/** What `rename` does to the tree, in terms of what can be looked up afterwards (madbfs/src/filesystem.cpp). */
module TreeRename {
  import opened Bytes
  import opened Paths
  import opened Tree

  /** A lookup in one tree is a lookup in another when the same nodes are on the two routes. */
  lemma {:induction false} SameLookup(nodes: Nodes, route: Route, nodes': Nodes, route': Route, q: seq<string>,
                                      q': seq<string>)
    requires Routed(nodes, route) && Routed(nodes', route')
    requires forall y | y in nodes && route[y] == q :: y in nodes' && route'[y] == q'
    requires forall y | y in nodes' && route'[y] == q' :: y in nodes && route[y] == q
    ensures Lookup(nodes', q') == Lookup(nodes, q)
  {
    if Lookup(nodes, q).Some? {
      LookupIsRoute(nodes, route, q, Lookup(nodes, q).value);
      LookupIsRoute(nodes', route', q', Lookup(nodes, q).value);
    } else if Lookup(nodes', q').Some? {
      LookupIsRoute(nodes', route', q', Lookup(nodes', q').value);
      LookupIsRoute(nodes, route, q, Lookup(nodes', q').value);
    }
  }

  lemma {:induction false} NoLookup(nodes: Nodes, route: Route, q: seq<string>)
    requires Routed(nodes, route)
    requires forall y | y in nodes :: route[y] != q
    ensures Lookup(nodes, q) == None
  {
    if Lookup(nodes, q).Some? {
      LookupIsRoute(nodes, route, q, Lookup(nodes, q).value);
    }
  }

  /** Below a name that a directory does not have there is nothing. */
  lemma {:induction false} NothingBelow(nodes: Nodes, route: Route, d: Id, n: string, y: Id)
    requires Routed(nodes, route) && d in nodes && n !in Children(nodes, d) && y in nodes
    ensures !(route[d] + [n] <= route[y])
    decreases |route[y]|
  {
    assert Hangs(nodes, route, y);
    var base := route[d] + [n];
    if base <= route[y] {
      assert y != ROOT;
      var q := nodes[y].parent.value;
      if base == route[y] {
        RouteFound(nodes, route, y);
        RouteFound(nodes, route, d);
        LookupNext(nodes, route[d], n, d);
      } else {
        assert base == route[y][..|base|] == route[q][..|base|];
        NothingBelow(nodes, route, d, n, q);
      }
    }
  }

  /** The old name of a node that was looked up below the new one. */
  function Back(q: seq<string>, base: seq<string>, top: seq<string>): seq<string>
    requires base <= q
  {
    top + q[|base|..]
  }

  lemma {:induction false} BackRoute(route: Route, top: Id, base: seq<string>, y: Id, q: seq<string>)
    requires top in route && y in route && base <= q && route[top] <= route[y]
    ensures MovedTo(route, top, base, y) == q <==> route[y] == Back(q, base, route[top])
  {
    var k := |route[top]|;
    assert route[y] == route[top] + route[y][k..];
    assert q == base + q[|base|..];
    if MovedTo(route, top, base, y) == q {
      assert route[y][k..] == (base + route[y][k..])[|base|..] == q[|base|..];
    }
    if route[y] == Back(q, base, route[top]) {
      assert route[y][k..] == (route[top] + q[|base|..])[k..] == q[|base|..];
    }
  }

  /**
   * Moving a subtree to a free name: it is found below the new name, nothing below the old one, and
   * all else where it was.
   */
  lemma {:induction false} MoveLookup(nodes: Nodes, route: Route, id: Id, d: Id, n: string, nodes': Nodes,
                                      q: seq<string>)
    requires Routed(nodes, route) && id in nodes && d in nodes && n !in Children(nodes, d)
    requires Routed(nodes', MoveRoute(route, id, route[d] + [n])) && nodes'.Keys == nodes.Keys
    ensures Lookup(nodes', q) == if route[d] + [n] <= q then Lookup(nodes, Back(q, route[d] + [n], route[id]))
                                 else if route[id] <= q then None else Lookup(nodes, q)
  {
    var base := route[d] + [n];
    var route' := MoveRoute(route, id, base);
    forall y | y in nodes ensures !(base <= route[y]) {
      NothingBelow(nodes, route, d, n, y);
    }
    if base <= q {
      forall y | y in nodes && route[id] <= route[y] ensures route'[y] == q <==> route[y] == Back(q, base, route[id]) {
        BackRoute(route, id, base, y, q);
      }
      SameLookup(nodes, route, nodes', route', Back(q, base, route[id]), q);
    } else if route[id] <= q {
      NoLookup(nodes', route', q);
    } else {
      SameLookup(nodes, route, nodes', route', q, q);
    }
  }

  /** A node found below the new name of an exchanged subtree was found below its old name. */
  lemma {:induction false} SwapLookupBelow(nodes: Nodes, route: Route, a: Id, b: Id, q: seq<string>, y: Id)
    requires a in route && b in route && y in route && !Below(route, a, b) && !Below(route, b, a) && route[b] <= q
    ensures SwappedTo(route, a, b, y) == q <==> route[y] == Back(q, route[b], route[a])
  {
    OnePrefix(route[a], route[b], route[y]);
    OnePrefix(route[a], route[b], q);
    if route[a] <= route[y] {
      BackRoute(route, a, route[b], y, q);
    } else {
      assert Back(q, route[b], route[a])[..|route[a]|] == route[a];
    }
  }

  lemma {:induction false} SwappedSame(route: Route, a: Id, b: Id, y: Id)
    requires a in route && b in route && y in route && !Below(route, a, b) && !Below(route, b, a)
    ensures SwappedTo(route, a, b, y) == SwappedTo(route, b, a, y)
  {
    OnePrefix(route[a], route[b], route[y]);
  }

  /** Exchanging two subtrees: each is found below the other's name, and all else where it was. */
  lemma {:induction false} SwapLookup(nodes: Nodes, route: Route, a: Id, b: Id, nodes': Nodes, q: seq<string>)
    requires Routed(nodes, route) && a in nodes && b in nodes && !Below(route, a, b) && !Below(route, b, a)
    requires Routed(nodes', SwapRoute(route, a, b)) && nodes'.Keys == nodes.Keys
    ensures Lookup(nodes', q) == if route[b] <= q then Lookup(nodes, Back(q, route[b], route[a]))
                                 else if route[a] <= q then Lookup(nodes, Back(q, route[a], route[b]))
                                     else Lookup(nodes, q)
  {
    var route' := SwapRoute(route, a, b);
    if route[b] <= q {
      forall y | y in nodes ensures route'[y] == q <==> route[y] == Back(q, route[b], route[a]) {
        SwapLookupBelow(nodes, route, a, b, q, y);
      }
      SameLookup(nodes, route, nodes', route', Back(q, route[b], route[a]), q);
    } else if route[a] <= q {
      forall y | y in nodes ensures route'[y] == q <==> route[y] == Back(q, route[a], route[b]) {
        SwappedSame(route, a, b, y);
        SwapLookupBelow(nodes, route, b, a, q, y);
      }
      SameLookup(nodes, route, nodes', route', Back(q, route[a], route[b]), q);
    } else {
      SameLookup(nodes, route, nodes', route', q, q);
    }
  }

  lemma {:induction false} OnePrefix(a: seq<string>, b: seq<string>, c: seq<string>)
    ensures a <= c && b <= c ==> a <= b || b <= a
  {
    if a <= c && b <= c {
      assert a == c[..|a|] && b == c[..|b|];
      if |a| <= |b| { assert a == b[..|a|]; } else { assert b == a[..|b|]; }
    }
  }

  ghost function Sub(nodes: Nodes, route: Route, top: Id): set<Id> { set x | x in nodes && Below(route, top, x) }

  function Remove(nodes: Nodes, gone: set<Id>): Nodes { map x | x in nodes && x !in gone :: nodes[x] }

  lemma {:induction false} SubClosed(nodes: Nodes, route: Route, top: Id)
    requires Routed(nodes, route) && top in nodes && top != ROOT
    ensures Closed(nodes, Sub(nodes, route, top))
  {
    assert Hangs(nodes, route, ROOT) && Hangs(nodes, route, top);
    forall id | id in nodes && id !in Sub(nodes, route, top) && nodes[id].parent.Some?
      ensures nodes[id].parent.value !in Sub(nodes, route, top)
    {
      if id != ROOT { BelowParent(nodes, route, top, id); }
    }
  }

  /** Dropping a subtree: nothing is found below its name, and all else where it was. */
  lemma {:induction false} DropLookup(nodes: Nodes, route: Route, top: Id, q: seq<string>)
    requires Routed(nodes, route) && top in nodes && top != ROOT
    ensures Routed(Drop(nodes, Sub(nodes, route, top)), Restrict(route, Sub(nodes, route, top)))
    ensures Lookup(Drop(nodes, Sub(nodes, route, top)), q) == if route[top] <= q then None else Lookup(nodes, q)
  {
    var gone := Sub(nodes, route, top);
    SubClosed(nodes, route, top);
    DropRouted(nodes, route, gone);
    if route[top] <= q {
      NoLookup(Drop(nodes, gone), Restrict(route, gone), q);
    } else {
      SameLookup(nodes, route, Drop(nodes, gone), Restrict(route, gone), q, q);
    }
  }

  /** The children of a directory outside a subtree are outside too, but for the top under its name. */
  lemma {:induction false} OnlyTop(nodes: Nodes, route: Route, top: Id, x: Id, m: string)
    requires Routed(nodes, route) && top in nodes && top != ROOT && x in nodes && !Below(route, top, x)
              && m in Children(nodes, x)
    ensures Children(nodes, x)[m] in Sub(nodes, route, top) <==> Children(nodes, x)[m] == top
    ensures Children(nodes, x)[m] == top <==> Some(x) == nodes[top].parent && m == nodes[top].name
  {
    assert Adopts(nodes, x) && Hangs(nodes, route, top);
    var c := Children(nodes, x)[m];
    assert Hangs(nodes, route, c) && Hangs(nodes, route, ROOT);
    BelowParent(nodes, route, top, c);
  }

  /**
   * Moving a node over another, whose subtree is then destroyed, is dropping that subtree and moving
   * to the free name.
   */
  lemma {:induction false} OverwriteIsMove(nodes: Nodes, route: Route, id: Id, d: Id, n: string, t: Id)
    requires Routed(nodes, route) && Apart(nodes, route, id, t) && id != ROOT && t != ROOT
              && nodes[t].parent == Some(d) && nodes[t].name == n
    ensures var p, name, gone := nodes[id].parent.value, nodes[id].name, Sub(nodes, route, t);
            IsDir(Drop(nodes, gone), p) && IsDir(Drop(nodes, gone), d) && id in Drop(nodes, gone)
                && !Below(route, t, p) && !Below(route, t, d) &&
            Remove(Move(nodes, p, name, id, d, n), gone) == Move(Drop(nodes, gone), p, name, id, d, n)
  {
    var p, name, gone := nodes[id].parent.value, nodes[id].name, Sub(nodes, route, t);
    BelowParent(nodes, route, t, id);
    BelowParent(nodes, route, t, t);
    BelowParent(nodes, route, id, id);
    var a, b := Remove(Move(nodes, p, name, id, d, n), gone), Move(Drop(nodes, gone), p, name, id, d, n);
    MoveChildren(nodes, p, name, id, d, n, id);
    MoveChildren(Drop(nodes, gone), p, name, id, d, n, id);
    forall x | x in a ensures a[x] == b[x] {
      forall m | m in Children(nodes, x) ensures Children(nodes, x)[m] in gone <==> x == d && m == n {
        OnlyTop(nodes, route, t, x, m);
      }
      OverwriteNode(nodes, gone, p, name, id, d, n, x);
    }
    assert a.Keys == b.Keys;
  }

  lemma {:induction false} OverwriteNode(nodes: Nodes, gone: set<Id>, p: Id, name: string, id: Id, d: Id, n: string,
                                         x: Id)
    requires IsDir(nodes, p) && IsDir(nodes, d) && id in nodes && id != p && id != d && x in nodes && x !in gone
              && p !in gone && d !in gone && id !in gone
    requires forall m | m in Children(nodes, x) :: Children(nodes, x)[m] in gone <==> x == d && m == n
    ensures Move(nodes, p, name, id, d, n)[x] == Move(Drop(nodes, gone), p, name, id, d, n)[x]
  {
    MoveNode(nodes, p, name, id, d, n, x);
    MoveNode(Drop(nodes, gone), p, name, id, d, n, x);
    DroppedChildren(nodes, gone, x, d, n);
    var c := Children(nodes, x);
    assert (c - {n} - {name})[n := id] == (c - {name})[n := id] && (c - {n})[n := id] == c[n := id];
  }

  lemma {:induction false} DroppedChildren(nodes: Nodes, gone: set<Id>, x: Id, d: Id, n: string)
    requires x in nodes && x !in gone
    requires forall m | m in Children(nodes, x) :: Children(nodes, x)[m] in gone <==> x == d && m == n
    ensures Children(Drop(nodes, gone), x) == if x == d then Children(nodes, x) - {n} else Children(nodes, x)
    ensures Drop(nodes, gone)[x]
              == nodes[x].(file := if nodes[x].file.Directory?
                  then nodes[x].file.(children := Children(Drop(nodes, gone), x)) else nodes[x].file)
  {
  }

  /** A moved node, and any other, is as before but for its name, its parent and its children. */
  lemma {:induction false} MoveNode(nodes: Nodes, p: Id, name: string, id: Id, d: Id, n: string, x: Id)
    requires IsDir(nodes, p) && IsDir(nodes, d) && id in nodes && id != p && id != d && x in nodes
    ensures var c := Children(nodes, x);
            var c1 := if x == p then c - {name} else c;
            var c2 := if x == d then c1[n := id] else c1;
            Move(nodes, p, name, id, d, n)[x] ==
              nodes[x].(name := if x == id then n else nodes[x].name, parent := if x == id then Some(d)
                  else nodes[x].parent,
                        file := if nodes[x].file.Directory? then nodes[x].file.(children := c2) else nodes[x].file)
  {
  }

  // Plain rename.

  ghost function Overwritten(nodes: Nodes, route: Route, d: Id, n: string): set<Id> {
    if n in Children(nodes, d) then Sub(nodes, route, Children(nodes, d)[n]) else {}
  }

  /**
   * The device accepts a rename only of something that exists, into a directory, and with neither path
   * inside the other.
   */
  ghost predicate CanRename(nodes: Nodes, route: Route, id: Id, d: Id, n: string) {
    && Routed(nodes, route) && id in nodes && id != ROOT && IsDir(nodes, d) && Plain(n)
    && !(route[id] <= route[d] + [n]) && !(route[d] + [n] <= route[id])
  }

  /** The parents of what is renamed are there and are not inside it. */
  lemma {:induction false} RenameParents(nodes: Nodes, route: Route, id: Id, d: Id, n: string)
    requires CanRename(nodes, route, id, d, n)
    ensures nodes[id].parent.Some? && IsDir(nodes, nodes[id].parent.value) && nodes[id].parent.value != id && d != id
              && !Below(route, id, d)
    ensures n in Children(nodes, d) ==>
              var t := Children(nodes, d)[n];
              Apart(nodes, route, id, t) && t != ROOT && t != id && nodes[t].parent == Some(d) && nodes[t].name == n
                  && route[t] == route[d] + [n]
  {
    assert Hangs(nodes, route, id) && Hangs(nodes, route, d) && Adopts(nodes, d);
    BelowParent(nodes, route, id, id);
    assert route[d] <= route[d] + [n];
    if n in Children(nodes, d) {
      var t := Children(nodes, d)[n];
      assert Hangs(nodes, route, t);
      ApartParents(nodes, route, id, t);
    }
  }

  ghost function RenamedNodes(nodes: Nodes, route: Route, id: Id, d: Id, n: string): Nodes
    requires CanRename(nodes, route, id, d, n)
  {
    RenameParents(nodes, route, id, d, n);
    Remove(Move(nodes, nodes[id].parent.value, nodes[id].name, id, d, n), Overwritten(nodes, route, d, n))
  }

  ghost function RenamedRoute(nodes: Nodes, route: Route, id: Id, d: Id, n: string): Route
    requires CanRename(nodes, route, id, d, n)
  {
    map x | x in route && x !in Overwritten(nodes, route, d, n) :: MovedTo(route, id, route[d] + [n], x)
  }

  lemma {:induction false} RenameFree(nodes: Nodes, route: Route, id: Id, d: Id, n: string, q: seq<string>)
    requires CanRename(nodes, route, id, d, n) && n !in Children(nodes, d)
    ensures Routed(RenamedNodes(nodes, route, id, d, n), RenamedRoute(nodes, route, id, d, n))
    ensures Lookup(RenamedNodes(nodes, route, id, d, n), q) ==
              if route[d] + [n] <= q then Lookup(nodes, Back(q, route[d] + [n], route[id])) else if route[id] <= q
                  then None else Lookup(nodes, q)
  {
    RenameParents(nodes, route, id, d, n);
    MoveRouted(nodes, route, id, d, n);
    var moved := Move(nodes, nodes[id].parent.value, nodes[id].name, id, d, n);
    MoveChildren(nodes, nodes[id].parent.value, nodes[id].name, id, d, n, id);
    MoveLookup(nodes, route, id, d, n, moved, q);
    assert RenamedNodes(nodes, route, id, d, n) == moved;
    assert RenamedRoute(nodes, route, id, d, n) == MoveRoute(route, id, route[d] + [n]);
  }

  /** Once the overwritten subtree is dropped, the rename is one to a free name. */
  lemma {:induction false} RenameAfterDrop(nodes: Nodes, route: Route, id: Id, d: Id, n: string)
    requires CanRename(nodes, route, id, d, n) && n in Children(nodes, d)
    ensures var gone := Overwritten(nodes, route, d, n);
            var nodes1, route1 := Drop(nodes, gone), Restrict(route, gone);
            CanRename(nodes1, route1, id, d, n) && n !in Children(nodes1, d) && id !in gone && d !in gone &&
            RenamedNodes(nodes, route, id, d, n) == RenamedNodes(nodes1, route1, id, d, n) &&
            RenamedRoute(nodes, route, id, d, n) == RenamedRoute(nodes1, route1, id, d, n)
  {
    RenameParents(nodes, route, id, d, n);
    var t := Children(nodes, d)[n];
    var gone := Sub(nodes, route, t);
    OverwriteIsMove(nodes, route, id, d, n, t);
    DropLookup(nodes, route, t, []);
    var nodes1, route1 := Drop(nodes, gone), Restrict(route, gone);
    assert n !in Children(nodes1, d);
    assert Overwritten(nodes1, route1, d, n) == {};
    RenameParents(nodes1, route1, id, d, n);
    var moved := Move(nodes1, nodes[id].parent.value, nodes[id].name, id, d, n);
    assert Remove(moved, {}) == moved;
  }

  /**
   * Plain rename: the tree stays well-formed, the subtree is found below its new name and not below the
   * old one, everything else is where it was, and only the ids of the overwritten subtree are lost.
   */
  lemma {:induction false} RenameConserves(nodes: Nodes, route: Route, id: Id, d: Id, n: string, q: seq<string>)
    requires CanRename(nodes, route, id, d, n)
    ensures Routed(RenamedNodes(nodes, route, id, d, n), RenamedRoute(nodes, route, id, d, n))
    ensures Lookup(RenamedNodes(nodes, route, id, d, n), q) ==
              if route[d] + [n] <= q then Lookup(nodes, Back(q, route[d] + [n], route[id])) else if route[id] <= q
                  then None else Lookup(nodes, q)
    ensures RenamedNodes(nodes, route, id, d, n).Keys == nodes.Keys - Overwritten(nodes, route, d, n)
  {
    RenameParents(nodes, route, id, d, n);
    MoveChildren(nodes, nodes[id].parent.value, nodes[id].name, id, d, n, id);
    if n in Children(nodes, d) {
      var gone := Overwritten(nodes, route, d, n);
      RenameAfterDrop(nodes, route, id, d, n);
      RenameFree(Drop(nodes, gone), Restrict(route, gone), id, d, n, q);
      var base, t := route[d] + [n], Children(nodes, d)[n];
      if base <= q {
        DropLookup(nodes, route, t, Back(q, base, route[id]));
        OnePrefix(base, route[id], Back(q, base, route[id]));
        assert route[id] == Back(q, base, route[id])[..|route[id]|];
      } else {
        DropLookup(nodes, route, t, q);
      }
    } else {
      RenameFree(nodes, route, id, d, n, q);
    }
  }

  /** A renamed tree's nodes are the old ones, but for the name and parent of the moved one and for children. */
  lemma {:induction false} RenameKeepsNode(nodes: Nodes, route: Route, id: Id, d: Id, n: string, x: Id)
    requires CanRename(nodes, route, id, d, n) && x in RenamedNodes(nodes, route, id, d, n)
    ensures var y := RenamedNodes(nodes, route, id, d, n)[x];
            && x in nodes && y.mode == nodes[x].mode
            && y.name == (if x == id then n else nodes[x].name)
                 && y.parent == (if x == id then Some(d) else nodes[x].parent)
            && (if nodes[x].file.Directory? then y.file.Directory? && y.file.synced == nodes[x].file.synced
                 else y.file == nodes[x].file)
  {
    RenameParents(nodes, route, id, d, n);
    MoveChildren(nodes, nodes[id].parent.value, nodes[id].name, id, d, n, x);
    MoveNode(nodes, nodes[id].parent.value, nodes[id].name, id, d, n, x);
  }

  /**
   * Exchange: the tree stays well-formed, each subtree is found below the other's old name, everything
   * else is where it was, and no id is lost.
   */
  lemma {:induction false} ExchangeConserves(nodes: Nodes, route: Route, a: Id, b: Id, q: seq<string>)
    requires Routed(nodes, route) && a in nodes && b in nodes && !(route[a] <= route[b]) && !(route[b] <= route[a])
    ensures Apart(nodes, route, a, b) && a != b
    ensures Routed(SwapOf(nodes, a, b), SwapRoute(route, a, b))
    ensures Lookup(SwapOf(nodes, a, b), q) ==
              if route[b] <= q then Lookup(nodes, Back(q, route[b], route[a]))
              else if route[a] <= q then Lookup(nodes, Back(q, route[a], route[b])) else Lookup(nodes, q)
    ensures SwapOf(nodes, a, b).Keys == nodes.Keys
  {
    ApartParents(nodes, route, a, b);
    SwapRouted(nodes, route, a, b);
    SwapChildren(nodes, route, a, b, a);
    SwapLookup(nodes, route, a, b, SwapOf(nodes, a, b), q);
  }
}
