/**
 * The in-memory tree (madbfs/src/node.cpp, the changes madbfs/src/filesystem.cpp makes to it): a
 * store of nodes with a name, a parent pointer and, for directories, children keyed by name. The
 * names on the way from the root to each node are its route; that every node has one is what makes
 * the parent chains acyclic.
 */
module Tree {
  import opened Bytes
  import opened Paths

  type Id = nat

  const ROOT: Id := 0

  /** The file type in a node's stat. */
  datatype FileType = RegularType | DirectoryType | LinkType | OtherType

  datatype File = Regular | Directory(children: map<string, Id>, synced: bool) | Link | Other | Error

  datatype Node = Node(name: string, parent: Option<Id>, mode: FileType, file: File)

  type Nodes = map<Id, Node>

  type Route = map<Id, seq<string>>

  function Children(nodes: Nodes, d: Id): map<string, Id> {
    if d in nodes && nodes[d].file.Directory? then nodes[d].file.children else map[]
  }

  predicate IsDir(nodes: Nodes, d: Id) { d in nodes && nodes[d].file.Directory? }

  function Parent(nodes: Nodes, id: Id): Option<Id> { if id in nodes then nodes[id].parent else None }

  /** A node hangs in its parent under its name, and its route goes through the parent. */
  ghost predicate Hangs(nodes: Nodes, route: Route, id: Id)
    requires id in nodes
  {
    var n := nodes[id];
    id in route &&
    if id == ROOT then n.parent.None? && n.file.Directory? && n.name == "/" && route[id] == []
    else
      && n.parent.Some? && n.parent.value in route && Plain(n.name)
      && n.name in Children(nodes, n.parent.value) && Children(nodes, n.parent.value)[n.name] == id
      && route[id] == route[n.parent.value] + [n.name]
  }

  /** A directory's children know their name and their parent. */
  ghost predicate Adopts(nodes: Nodes, d: Id) {
    forall name | name in Children(nodes, d) ::
      Children(nodes, d)[name] in nodes && nodes[Children(nodes, d)[name]].parent == Some(d)
          && nodes[Children(nodes, d)[name]].name == name
  }

  ghost predicate Routed(nodes: Nodes, route: Route) {
    && ROOT in nodes && route.Keys == nodes.Keys
    && (forall id {:trigger Hangs(nodes, route, id)} | id in nodes :: Hangs(nodes, route, id))
    && (forall id {:trigger Adopts(nodes, id)} | id in nodes :: Adopts(nodes, id))
  }

  /** Well-formed: names are unique, children and parents agree, and every parent chain ends at the root. */
  ghost predicate WellFormed(nodes: Nodes) { exists route: Route :: Routed(nodes, route) }

  /** `Filesystem::traverse`: from the root, name by name. */
  function Lookup(nodes: Nodes, names: seq<string>): Option<Id> {
    if names == [] then Some(ROOT)
    else
      match Lookup(nodes, names[..|names| - 1])
      case None => None
      case Some(d) => var n := names[|names| - 1]; if n in Children(nodes, d) then Some(Children(nodes, d)[n]) else None
  }

  lemma {:induction false} LookupNext(nodes: Nodes, names: seq<string>, n: string, d: Id)
    requires Lookup(nodes, names) == Some(d)
    ensures Lookup(nodes, names + [n]) == if n in Children(nodes, d) then Some(Children(nodes, d)[n]) else None
  {
    assert (names + [n])[..|names|] == names;
  }

  /** Looking up a node's route finds the node. */
  lemma {:induction false} RouteFound(nodes: Nodes, route: Route, id: Id)
    requires Routed(nodes, route) && id in nodes
    ensures Lookup(nodes, route[id]) == Some(id)
    decreases |route[id]|
  {
    assert Hangs(nodes, route, id);
    if id != ROOT {
      var p := nodes[id].parent.value;
      RouteFound(nodes, route, p);
      LookupNext(nodes, route[p], nodes[id].name, p);
    }
  }

  /** What a lookup finds is a node with that route. */
  lemma {:induction false} FoundRoute(nodes: Nodes, route: Route, names: seq<string>)
    requires Routed(nodes, route) && Lookup(nodes, names).Some?
    ensures Lookup(nodes, names).value in nodes && route[Lookup(nodes, names).value] == names
    decreases |names|
  {
    assert Hangs(nodes, route, ROOT);
    if names != [] {
      var front, n := names[..|names| - 1], names[|names| - 1];
      FoundRoute(nodes, route, front);
      var d := Lookup(nodes, front).value;
      assert Adopts(nodes, d);
      assert n in Children(nodes, d);
      var c := Children(nodes, d)[n];
      assert Hangs(nodes, route, c);
      assert names == front + [n];
    }
  }

  /** Only one node has a given route, and looking it up finds it: traversing and building a path are inverses. */
  lemma {:induction false} LookupIsRoute(nodes: Nodes, route: Route, names: seq<string>, id: Id)
    requires Routed(nodes, route)
    ensures Lookup(nodes, names) == Some(id) <==> id in nodes && route[id] == names
  {
    if id in nodes && route[id] == names { RouteFound(nodes, route, id); }
    if Lookup(nodes, names).Some? { FoundRoute(nodes, route, names); }
  }

  lemma {:induction false} RouteUnique(nodes: Nodes, route: Route, a: Id, b: Id)
    requires Routed(nodes, route) && a in nodes && b in nodes && route[a] == route[b]
    ensures a == b
  {
    RouteFound(nodes, route, a);
    RouteFound(nodes, route, b);
  }

  // Subtrees.

  ghost predicate Below(route: Route, top: Id, id: Id) { top in route && id in route && route[top] <= route[id] }

  /** A directory holds a whole subtree or none of it, its top aside. */
  lemma {:induction false} BelowParent(nodes: Nodes, route: Route, top: Id, id: Id)
    requires Routed(nodes, route) && id in nodes && id != ROOT && top in nodes
    ensures nodes[id].parent.Some? && nodes[id].parent.value in nodes
    ensures Below(route, top, id) <==> id == top || Below(route, top, nodes[id].parent.value)
    ensures Below(route, top, nodes[id].parent.value) ==> id != top
  {
    assert Hangs(nodes, route, id);
    var p := nodes[id].parent.value;
    if Below(route, top, id) && route[top] != route[id] {
      assert route[top] == route[id][..|route[top]|] == route[p][..|route[top]|];
    } else if Below(route, top, id) {
      RouteUnique(nodes, route, top, id);
    }
  }

  // Dropping nodes.

  function PrunedFile(file: File, gone: set<Id>): File {
    if file.Directory?
        then file.(children := map name | name in file.children && file.children[name] !in gone ::
            file.children[name]) else file
  }

  function Drop(nodes: Nodes, gone: set<Id>): Nodes {
    map id | id in nodes && id !in gone :: nodes[id].(file := PrunedFile(nodes[id].file, gone))
  }

  function Restrict(route: Route, gone: set<Id>): Route { map id | id in route && id !in gone :: route[id] }

  ghost predicate Closed(nodes: Nodes, gone: set<Id>) {
    ROOT !in gone && forall id | id in nodes && id !in gone && nodes[id].parent.Some? :: nodes[id].parent.value !in gone
  }

  lemma {:induction false} DropRouted(nodes: Nodes, route: Route, gone: set<Id>)
    requires Routed(nodes, route) && Closed(nodes, gone)
    ensures Routed(Drop(nodes, gone), Restrict(route, gone))
  {
    var nodes', route' := Drop(nodes, gone), Restrict(route, gone);
    forall id | id in nodes' ensures Hangs(nodes', route', id) && Adopts(nodes', id) {
      assert Hangs(nodes, route, id) && Adopts(nodes, id);
      assert forall name | name in Children(nodes', id) ::
          name in Children(nodes, id) && Children(nodes', id)[name] == Children(nodes, id)[name];
    }
  }

  // Adding, changing and moving a node.

  function WithChild(nodes: Nodes, d: Id, name: string, id: Id): Nodes
    requires IsDir(nodes, d)
  {
    nodes[d := nodes[d].(file := nodes[d].file.(children := nodes[d].file.children[name := id]))]
  }

  function WithoutChild(nodes: Nodes, d: Id, name: string): Nodes
    requires IsDir(nodes, d)
  {
    nodes[d := nodes[d].(file := nodes[d].file.(children := nodes[d].file.children - {name}))]
  }

  function NewChild(nodes: Nodes, d: Id, name: string, id: Id, mode: FileType, file: File): Nodes
    requires IsDir(nodes, d)
  {
    WithChild(nodes, d, name, id)[id := Node(name, Some(d), mode, file)]
  }

  predicate Leaf(file: File) { file.Directory? ==> file.children == map[] }

  lemma {:induction false} NewRouted(nodes: Nodes, route: Route, d: Id, name: string, id: Id, mode: FileType,
                                     file: File)
    requires Routed(nodes, route) && IsDir(nodes, d) && name !in Children(nodes, d) && Plain(name) && id !in nodes
              && Leaf(file)
    ensures Routed(NewChild(nodes, d, name, id, mode, file), route[id := route[d] + [name]])
  {
    var nodes', route' := NewChild(nodes, d, name, id, mode, file), route[id := route[d] + [name]];
    forall x | x in nodes' ensures Hangs(nodes', route', x) && Adopts(nodes', x) {
      if x != id {
        assert Hangs(nodes, route, x) && Adopts(nodes, x);
        NewChildren(nodes, d, name, id, mode, file, x);
      }
    }
  }

  lemma {:induction false} NewChildren(nodes: Nodes, d: Id, name: string, id: Id, mode: FileType, file: File, x: Id)
    requires IsDir(nodes, d) && id !in nodes && x in nodes
    ensures Children(NewChild(nodes, d, name, id, mode, file), x) == if x == d then Children(nodes, d)[name := id]
              else Children(nodes, x)
  {
  }

  /** A node that holds nothing may become any other leaf. */
  lemma {:induction false} LeafRouted(nodes: Nodes, route: Route, id: Id, mode: FileType, file: File)
    requires Routed(nodes, route) && id in nodes && id != ROOT && Leaf(nodes[id].file) && Leaf(file)
    ensures Routed(nodes[id := nodes[id].(mode := mode, file := file)], route)
  {
    var nodes' := nodes[id := nodes[id].(mode := mode, file := file)];
    forall x | x in nodes' ensures Hangs(nodes', route, x) && Adopts(nodes', x) {
      assert Hangs(nodes, route, x) && Adopts(nodes, x);
      assert x != id ==> Children(nodes', x) == Children(nodes, x);
    }
  }

  // Renaming.

  /** The route of a node when the subtree at `top` goes to `base`. */
  ghost function MovedTo(route: Route, top: Id, base: seq<string>, x: Id): seq<string>
    requires top in route && x in route
  {
    if route[top] <= route[x] then base + route[x][|route[top]|..] else route[x]
  }

  /** Extracts a node and inserts it under another name into a directory that has no such name. */
  function Move(nodes: Nodes, p: Id, name: string, id: Id, d: Id, n: string): Nodes
    requires IsDir(nodes, p) && IsDir(nodes, d) && id in nodes && id != p && id != d
  {
    var cut := WithoutChild(nodes, p, name);
    WithChild(cut[id := cut[id].(name := n, parent := Some(d))], d, n, id)
  }

  lemma {:induction false} MoveChildren(nodes: Nodes, p: Id, name: string, id: Id, d: Id, n: string, x: Id)
    requires IsDir(nodes, p) && IsDir(nodes, d) && id in nodes && id != p && id != d
    ensures var c := Children(nodes, x);
            var c1 := if x == p then c - {name} else c;
            Children(Move(nodes, p, name, id, d, n), x) == if x == d then c1[n := id] else c1
    ensures Move(nodes, p, name, id, d, n).Keys == nodes.Keys
    ensures x in nodes ==> var y := Move(nodes, p, name, id, d, n)[x];
              y.name == (if x == id then n else nodes[x].name)
                  && y.parent == (if x == id then Some(d) else nodes[x].parent)
              && y.mode == nodes[x].mode && y.file.Directory? == nodes[x].file.Directory?
  {
  }

  ghost function MoveRoute(route: Route, id: Id, base: seq<string>): Route
    requires id in route
  {
    map x | x in route :: MovedTo(route, id, base, x)
  }

  lemma {:induction false} MovedStep(route: Route, top: Id, base: seq<string>, q: Id, x: Id, name: string)
    requires top in route && q in route && x in route && route[x] == route[q] + [name] && route[top] != route[x]
    ensures MovedTo(route, top, base, x) == MovedTo(route, top, base, q) + [name]
  {
    var k := |route[top]|;
    if route[top] <= route[x] {
      assert route[x][..k] == route[q][..k];
      assert route[x][k..] == route[q][k..] + [name];
    }
  }

  lemma {:induction false} MoveRouted(nodes: Nodes, route: Route, id: Id, d: Id, n: string)
    requires Routed(nodes, route) && id in nodes && id != ROOT && IsDir(nodes, d) && !Below(route, id, d) && Plain(n)
    requires nodes[id].parent.Some? && IsDir(nodes, nodes[id].parent.value) && nodes[id].parent.value != id && d != id
    requires n in Children(nodes, d) ==> Children(nodes, d)[n] == id
    ensures Routed(Move(nodes, nodes[id].parent.value, nodes[id].name, id, d, n), MoveRoute(route, id, route[d] + [n]))
  {
    var p, name := nodes[id].parent.value, nodes[id].name;
    var nodes', route' := Move(nodes, p, name, id, d, n), MoveRoute(route, id, route[d] + [n]);
    MoveChildren(nodes, p, name, id, d, n, ROOT);
    assert Hangs(nodes, route, id) && Hangs(nodes, route, ROOT);
    assert route[id] != [];
    forall x | x in nodes' ensures Hangs(nodes', route', x) && Adopts(nodes', x) {
      MoveHangs(nodes, route, id, d, n, x);
      MoveAdopts(nodes, route, id, d, n, x);
    }
  }

  lemma {:induction false} MoveAdopts(nodes: Nodes, route: Route, id: Id, d: Id, n: string, x: Id)
    requires Routed(nodes, route) && id in nodes && id != ROOT && IsDir(nodes, d)
    requires nodes[id].parent.Some? && IsDir(nodes, nodes[id].parent.value) && nodes[id].parent.value != id && d != id
    requires n in Children(nodes, d) ==> Children(nodes, d)[n] == id
    requires x in nodes
    ensures Adopts(Move(nodes, nodes[id].parent.value, nodes[id].name, id, d, n), x)
  {
    var p, name := nodes[id].parent.value, nodes[id].name;
    var nodes' := Move(nodes, p, name, id, d, n);
    MoveChildren(nodes, p, name, id, d, n, x);
    assert Adopts(nodes, x);
    forall m | m in Children(nodes', x)
      ensures var c := Children(nodes', x)[m]; c in nodes' && nodes'[c].parent == Some(x) && nodes'[c].name == m
    {
      var c := Children(nodes', x)[m];
      if c != id {
        assert m in Children(nodes, x);
        MoveChildren(nodes, p, name, id, d, n, c);
      }
    }
  }

  lemma {:induction false} MoveHangs(nodes: Nodes, route: Route, id: Id, d: Id, n: string, x: Id)
    requires Routed(nodes, route) && id in nodes && id != ROOT && IsDir(nodes, d) && !Below(route, id, d) && Plain(n)
    requires nodes[id].parent.Some? && IsDir(nodes, nodes[id].parent.value) && nodes[id].parent.value != id && d != id
    requires n in Children(nodes, d) ==> Children(nodes, d)[n] == id
    requires x in nodes
    ensures Hangs(Move(nodes, nodes[id].parent.value, nodes[id].name, id, d, n), MoveRoute(route, id, route[d] + [n]),
              x)
  {
    var p, name := nodes[id].parent.value, nodes[id].name;
    var nodes', route' := Move(nodes, p, name, id, d, n), MoveRoute(route, id, route[d] + [n]);
    MoveChildren(nodes, p, name, id, d, n, x);
    assert Hangs(nodes, route, x) && Hangs(nodes, route, id);
    if x == id {
      MoveChildren(nodes, p, name, id, d, n, d);
      assert route[id][|route[id]|..] == [];
    } else if x != ROOT {
      var q := nodes[x].parent.value;
      MoveChildren(nodes, p, name, id, d, n, q);
      if route[id] == route[x] { RouteUnique(nodes, route, id, x); }
      MovedStep(route, id, route[d] + [n], q, x, nodes[x].name);
    }
  }

  /** Extracts a, inserts it in b's place, and inserts b, which that has overwritten, in a's. */
  function Swap(nodes: Nodes, a: Id, pa: Id, na: string, b: Id, pb: Id, nb: string): Nodes
    requires IsDir(nodes, pa) && IsDir(nodes, pb) && a in nodes && b in nodes && a != pa && a != pb && b != pa
              && b != pb
  {
    var s1 := WithoutChild(nodes, pa, na);
    var s3 := WithChild(s1[a := s1[a].(name := nb, parent := Some(pb))], pb, nb, a);
    WithChild(s3[b := s3[b].(name := na, parent := Some(pa))], pa, na, b)
  }

  /** Both nodes are where they are known to be, and neither is inside the other. */
  ghost predicate Apart(nodes: Nodes, route: Route, a: Id, b: Id) {
    && a in nodes && b in nodes && !Below(route, a, b) && !Below(route, b, a)
    && nodes[a].parent.Some? && nodes[b].parent.Some? && IsDir(nodes, nodes[a].parent.value)
         && IsDir(nodes, nodes[b].parent.value)
    && a != nodes[a].parent.value && a != nodes[b].parent.value && b != nodes[a].parent.value
         && b != nodes[b].parent.value
  }

  lemma {:induction false} ApartParents(nodes: Nodes, route: Route, a: Id, b: Id)
    requires Routed(nodes, route) && a in nodes && b in nodes && !Below(route, a, b) && !Below(route, b, a)
    ensures Apart(nodes, route, a, b) && a != ROOT && b != ROOT && a != b
  {
    assert Hangs(nodes, route, a) && Hangs(nodes, route, b) && Hangs(nodes, route, ROOT);
    BelowParent(nodes, route, a, b);
    BelowParent(nodes, route, b, a);
    BelowParent(nodes, route, a, a);
    BelowParent(nodes, route, b, b);
  }

  function SwapOf(nodes: Nodes, a: Id, b: Id): Nodes
    requires a in nodes && b in nodes && nodes[a].parent.Some? && nodes[b].parent.Some?
    requires var pa, pb := nodes[a].parent.value, nodes[b].parent.value;
             IsDir(nodes, pa) && IsDir(nodes, pb) && a != pa && a != pb && b != pa && b != pb
  {
    Swap(nodes, a, nodes[a].parent.value, nodes[a].name, b, nodes[b].parent.value, nodes[b].name)
  }

  lemma {:induction false} SwapChildren(nodes: Nodes, route: Route, a: Id, b: Id, x: Id)
    requires Apart(nodes, route, a, b) && a != b
    ensures var pa, na, pb, nb := nodes[a].parent.value, nodes[a].name, nodes[b].parent.value, nodes[b].name;
            var c := Children(nodes, x);
            var c1 := if x == pa then c - {na} else c;
            var c2 := if x == pb then c1[nb := a] else c1;
            Children(SwapOf(nodes, a, b), x) == if x == pa then c2[na := b] else c2
    ensures SwapOf(nodes, a, b).Keys == nodes.Keys
    ensures x in nodes ==> var y := SwapOf(nodes, a, b)[x];
              y.name == (if x == a then nodes[b].name else if x == b then nodes[a].name else nodes[x].name)
              && y.parent == (if x == a then nodes[b].parent else if x == b then nodes[a].parent else nodes[x].parent)
              && y.mode == nodes[x].mode && y.file.Directory? == nodes[x].file.Directory?
  {
  }

  ghost function SwappedTo(route: Route, a: Id, b: Id, x: Id): seq<string>
    requires a in route && b in route && x in route
  {
    if route[a] <= route[x] then MovedTo(route, a, route[b], x) else MovedTo(route, b, route[a], x)
  }

  ghost function SwapRoute(route: Route, a: Id, b: Id): Route
    requires a in route && b in route
  {
    map x | x in route :: SwappedTo(route, a, b, x)
  }

  lemma {:induction false} SwapAdopts(nodes: Nodes, route: Route, a: Id, b: Id, x: Id)
    requires Routed(nodes, route) && Apart(nodes, route, a, b) && a != b && x in nodes
    ensures Adopts(SwapOf(nodes, a, b), x)
  {
    var nodes' := SwapOf(nodes, a, b);
    SwapChildren(nodes, route, a, b, x);
    assert Adopts(nodes, x) && Hangs(nodes, route, a) && Hangs(nodes, route, b) && Hangs(nodes, route, ROOT);
    forall m | m in Children(nodes', x)
      ensures var c := Children(nodes', x)[m]; c in nodes' && nodes'[c].parent == Some(x) && nodes'[c].name == m
    {
      var c := Children(nodes', x)[m];
      SwapChildren(nodes, route, a, b, c);
      if c != a && c != b {
        assert m in Children(nodes, x) && Children(nodes, x)[m] == c;
      }
    }
  }

  lemma {:induction false} SwapHangs(nodes: Nodes, route: Route, a: Id, b: Id, x: Id)
    requires Routed(nodes, route) && Apart(nodes, route, a, b) && a != b && x in nodes
    ensures Hangs(SwapOf(nodes, a, b), SwapRoute(route, a, b), x)
  {
    SwapChildren(nodes, route, a, b, x);
    assert Hangs(nodes, route, x) && Hangs(nodes, route, a) && Hangs(nodes, route, b) && Hangs(nodes, route, ROOT);
    var pa, pb := nodes[a].parent.value, nodes[b].parent.value;
    if x == a || x == b {
      SwapChildren(nodes, route, a, b, pa);
      SwapChildren(nodes, route, a, b, pb);
      BelowParent(nodes, route, a, b);
      BelowParent(nodes, route, b, a);
      BelowParent(nodes, route, a, a);
      BelowParent(nodes, route, b, b);
      assert route[x][|route[x]|..] == [];
    } else if x != ROOT {
      var q := nodes[x].parent.value;
      SwapChildren(nodes, route, a, b, q);
      BelowParent(nodes, route, a, x);
      BelowParent(nodes, route, b, x);
      if route[a] == route[x] { RouteUnique(nodes, route, a, x); }
      if route[b] == route[x] { RouteUnique(nodes, route, b, x); }
      MovedStep(route, a, route[b], q, x, nodes[x].name);
      MovedStep(route, b, route[a], q, x, nodes[x].name);
    }
  }

  lemma {:induction false} SwapRouted(nodes: Nodes, route: Route, a: Id, b: Id)
    requires Routed(nodes, route) && Apart(nodes, route, a, b) && a != b
    ensures Routed(SwapOf(nodes, a, b), SwapRoute(route, a, b))
  {
    SwapChildren(nodes, route, a, b, ROOT);
    forall x | x in nodes ensures Hangs(SwapOf(nodes, a, b), SwapRoute(route, a, b), x)
        && Adopts(SwapOf(nodes, a, b), x) {
      SwapHangs(nodes, route, a, b, x);
      SwapAdopts(nodes, route, a, b, x);
    }
  }
}
