/** What the operations of the filesystem make of its tree and its open files (madbfs/src/filesystem.cpp). */
module FileOps {
  import opened Bytes
  import opened Paths
  import opened Tree
  import opened TreeRename
  import opened TreeWalk
  import opened Handles

  datatype Errc =
    | NoEntry | Exists | NotADirectory | IsADirectory | NotEmpty | NotSupported | TooManyLinks
    | Cached | FromDevice | FromCache

  /** What following an entry's node comes to: an error, a live regular file, or a pointer to nothing. */
  datatype Access = Refused | Reached(handle: Handle) | Undefined

  /** The device's answer to a stat; some failures are remembered as an Error node. */
  datatype Stat = Failed(cached: bool) | Is(mode: FileType)

  /**
   * What an operation asks from outside: the stats of paths, whether a node's entry has expired, and
   * whether its stat differs.
   */
  datatype Device = Device(stat: seq<string> -> Stat, expired: Id -> bool, modified: Id -> bool)

  function DirectoryError(file: File): Errc { if file.Error? then Cached else NotADirectory }

  function RegularError(file: File): Errc {
    match file
    case Directory(_, _) => IsADirectory
    case Link => TooManyLinks
    case Other => NotSupported
    case _ => Cached
  }

  function FileOf(mode: FileType): File {
    match mode
    case RegularType => Regular
    case DirectoryType => Directory(map[], false)
    case LinkType => Link
    case OtherType => Other
  }

  /** Every open file is a regular file that is still in the tree. */
  ghost predicate Live(nodes: Nodes, hs: seq<Handle>) {
    forall i | 0 <= i < |hs| && hs[i].node.Some? :: hs[i].node.value in nodes && nodes[hs[i].node.value].file.Regular?
  }

  /** Some open file is one of these nodes. */
  ghost predicate Open(hs: seq<Handle>,
                       ids: set<Id>) { exists i :: 0 <= i < |hs| && hs[i].node.Some? && hs[i].node.value in ids }

  /** When nodes go and handles are freed, what is open stays live exactly when no handle is left to what is gone. */
  lemma {:induction false} RemoveLive(nodes: Nodes, hs: seq<Handle>, nodes': Nodes, gone: set<Id>, erased: set<Id>)
    requires Live(nodes, hs) && nodes'.Keys == nodes.Keys - gone
    requires forall x | x in nodes' && x !in erased :: nodes'[x].file.Regular? == nodes[x].file.Regular?
    ensures Live(nodes', Erased(hs, erased)) <==> !Open(hs, gone - erased)
  {
    var hs' := Erased(hs, erased);
    if !Open(hs, gone - erased) {
      forall i | 0 <= i < |hs'| && hs'[i].node.Some?
          ensures hs'[i].node.value in nodes' && nodes'[hs'[i].node.value].file.Regular? {
        assert hs[i] == hs'[i];
      }
    } else {
      var i :| 0 <= i < |hs| && hs[i].node.Some? && hs[i].node.value in gone - erased;
      assert hs'[i] == hs[i];
    }
  }

  function KindOf(file: File): Option<FileType> {
    match file
    case Regular => Some(RegularType)
    case Directory(_, _) => Some(DirectoryType)
    case Link => Some(LinkType)
    case Other => Some(OtherType)
    case Error => None
  }

  function Rescanned(nodes: Nodes, id: Id): Nodes
    requires id in nodes
  {
    if nodes[id].file.Directory? then nodes[id := nodes[id].(file := nodes[id].file.(synced := false))] else nodes
  }

  ghost function Updated(nodes: Nodes, route: Route, id: Id, stat: Stat, modified: bool): Nodes
    requires id in nodes
  {
    var gone := Strict(nodes, route, id);
    match stat
    case Failed(cached) => if cached then Mutated(nodes, gone, id, nodes[id].mode, Error) else nodes
    case Is(mode) =>
      if !nodes[id].file.Error? && !modified then nodes
      else if mode.DirectoryType? && nodes[id].mode.DirectoryType? then Rescanned(nodes, id)
      else Mutated(nodes, gone, id, mode, FileOf(mode))
  }

  /** Whether an update replaces the node's file. */
  predicate Replaces(node: Node, stat: Stat, modified: bool) {
    match stat
    case Failed(cached) => cached
    case Is(mode) => (node.file.Error? || modified) && !(mode.DirectoryType? && node.mode.DirectoryType?)
  }

  ghost function UpdatedRoute(nodes: Nodes, route: Route, id: Id, stat: Stat, modified: bool): Route
    requires id in nodes
  {
    if Replaces(nodes[id], stat, modified) then Restrict(route, Strict(nodes, route, id)) else route
  }

  ghost function UpdatedHandles(nodes: Nodes, route: Route, hs: seq<Handle>, id: Id, stat: Stat,
                                modified: bool): seq<Handle>
    requires id in nodes
  {
    if Replaces(nodes[id], stat, modified) then MutatedHandles(nodes, route, hs, id) else hs
  }

  /** Updates, one after the other, to all of which the device answers with the same type. */
  ghost function UpdatedOften(nodes: Nodes, route: Route, id: Id, mode: FileType, modified: seq<bool>): Nodes
    requires id in nodes
    ensures id in UpdatedOften(nodes, route, id, mode, modified)
    decreases |modified|
  {
    if modified == [] then nodes
    else
      var m := modified[0];
      UpdatedOften(Updated(nodes, route, id, Is(mode), m), UpdatedRoute(nodes, route, id, Is(mode), m), id, mode,
          modified[1..])
  }

  /**
   * Exactly when a node comes to be of the kind the device says, after any number of updates: when it
   * was already, or when one of them replaced its file. None does if the node's stat says directory
   * and the device says so too, whatever the node is; and none does if it is not an Error node and
   * the modification time has not moved.
   */
  lemma {:induction false} UpdateKind(nodes: Nodes, route: Route, id: Id, mode: FileType, modified: seq<bool>)
    requires id in nodes
    ensures KindOf(UpdatedOften(nodes, route, id, mode, modified)[id].file) == Some(mode) <==>
              KindOf(nodes[id].file) == Some(mode) || exists m | m in modified :: Replaces(nodes[id], Is(mode), m)
    decreases |modified|
  {
    if modified != [] {
      var m, rest := modified[0], modified[1..];
      assert forall x :: x in modified <==> x == m || x in rest;
      var nodes', route' := Updated(nodes, route, id, Is(mode), m), UpdatedRoute(nodes, route, id, Is(mode), m);
      UpdateKind(nodes', route', id, mode, rest);
      if KindOf(nodes[id].file) != Some(mode) && !Replaces(nodes[id], Is(mode), m) {
        assert nodes'[id] == nodes[id];
      }
    }
  }

  /** A directory that vanished and came back is an Error node, and stays one however often it is updated. */
  lemma {:induction false} VanishedDirectory(nodes: Nodes, route: Route, id: Id, m: bool, modified: seq<bool>)
    requires IsDir(nodes, id) && nodes[id].mode == DirectoryType
    ensures var vanished := Updated(nodes, route, id, Failed(true), m);
            var route' := UpdatedRoute(nodes, route, id, Failed(true), m);
            KindOf(UpdatedOften(vanished, route', id, DirectoryType, modified)[id].file) != Some(DirectoryType)
  {
    var vanished := Updated(nodes, route, id, Failed(true), m);
    UpdateKind(vanished, UpdatedRoute(nodes, route, id, Failed(true), m), id, DirectoryType, modified);
  }

  /** A regular file in whose place there is an older directory stays a regular file. */
  lemma {:induction false} OlderDirectory(nodes: Nodes, route: Route, id: Id, modified: seq<bool>)
    requires id in nodes && nodes[id].file.Regular? && true !in modified
    ensures KindOf(UpdatedOften(nodes, route, id, DirectoryType, modified)[id].file) != Some(DirectoryType)
  {
    UpdateKind(nodes, route, id, DirectoryType, modified);
  }

  /** `mknod` makes every node a regular file, so a special file is of the kind its stat says only if it is one. */
  lemma {:induction false} SpecialFile(nodes: Nodes, route: Route, d: Id, name: string, id: Id, mode: FileType,
                                       modified: seq<bool>)
    requires IsDir(nodes, d) && id !in nodes && true !in modified
    ensures KindOf(UpdatedOften(NewChild(nodes, d, name, id, mode, Regular), route, id, mode, modified)[id].file)
              == Some(mode)
            <==> mode == RegularType
  {
    UpdateKind(NewChild(nodes, d, name, id, mode, Regular), route, id, mode, modified);
  }

  // Building a path.

  function ValueOf<T>(r: Result<T, Errc>): Option<T> { if r.Ok? then Some(r.value) else None }

  /** The first i names lead to nodes that are known, and that stay what they are when they are brought up to date. */
  ghost predicate Kept(nodes: Nodes, dev: Device, names: seq<string>, i: nat)
    requires i <= |names|
  {
    i > 0 ==>
    && Kept(nodes, dev, names, i - 1)
    && var found, stat := Lookup(nodes, names[..i]), dev.stat(names[..i]);
      && found.Some? && found.value in nodes
      && (dev.expired(found.value) ==> stat.Is? && !Replaces(nodes[found.value], stat, dev.modified(found.value)))
  }

  /** The first i names lead to a directory: the known one, or else one according to the device. */
  ghost predicate DirAt(nodes: Nodes, dev: Device, names: seq<string>, i: nat)
    requires i <= |names|
  {
    if Kept(nodes, dev, names, i) then Lookup(nodes, names[..i]).Some? && IsDir(nodes, Lookup(nodes, names[..i]).value)
    else dev.stat(names[..i]) == Is(DirectoryType)
  }

  /** The first i names lead to a kept node, or else, inside of a directory, to something the device has. */
  ghost predicate Passes(nodes: Nodes, dev: Device, names: seq<string>, i: nat)
    requires 0 < i <= |names|
  {
    Kept(nodes, dev, names, i) || (dev.stat(names[..i]).Is? && DirAt(nodes, dev, names, i - 1))
  }

  /** One step down a path: what the child is brought up to date to, or the child made for it. */
  ghost predicate Stepped(was: Nodes, route: Route, now: Nodes, d: Id, name: string, path: seq<string>, dev: Device,
                          onlyDirectory: bool, r: Option<Id>) {
    var stat := dev.stat(path);
    if name in Children(was, d) then
      var c := Children(was, d)[name];
      && c in was && (r.Some? <==> !dev.expired(c) || stat.Is?)
      && (r.Some? ==>
            r.value == c && now == if dev.expired(c) then Updated(was, route, c, stat, dev.modified(c)) else was)
    else
      && (r.Some? <==> IsDir(was, d) && stat.Is? && (onlyDirectory ==> stat.mode.DirectoryType?))
      && (r.Some? ==> r.value !in was && now == NewChild(was, d, name, r.value, stat.mode, FileOf(stat.mode)))
  }

  /** The node the first i names lead to is the one it was. */
  ghost predicate SameAt(was: Nodes, now: Nodes, names: seq<string>, i: nat)
    requires i <= |names|
  {
    Lookup(was, names[..i]).Some? ==>
      var x := Lookup(was, names[..i]).value;
      x in was && x in now && now[x] == was[x]
  }

  /** Where the walk down a path is after i names: at a kept node, with all below unchanged, or at a new leaf. */
  ghost predicate Descended(was: Nodes, now: Nodes, names: seq<string>, dev: Device, i: nat, cur: Id)
    requires i <= |names|
  {
    && (forall j {:trigger Passes(was, dev, names, j)} | 0 < j <= i :: Passes(was, dev, names, j))
    && if Kept(was, dev, names, i) then
         && Lookup(was, names[..i]) == Some(cur)
         && (IsDir(now, cur) <==> IsDir(was, cur)) && Children(now, cur) == Children(was, cur)
         && forall j {:trigger SameAt(was, now, names, j)} | i < j <= |names| :: SameAt(was, now, names, j)
       else Children(now, cur) == map[] && (IsDir(now, cur) <==> DirAt(was, dev, names, i))
  }

  lemma {:induction false} DescendStart(nodes: Nodes, route: Route, names: seq<string>, dev: Device)
    requires Routed(nodes, route)
    ensures Descended(nodes, nodes, names, dev, 0, ROOT)
  {
    forall j | 0 < j <= |names| ensures SameAt(nodes, nodes, names, j) {
      if Lookup(nodes, names[..j]).Some? { FoundRoute(nodes, route, names[..j]); }
    }
  }

  /** What is known of the next name: it was there before the walk began, or it is to be built. */
  lemma {:induction false} DescendFacts(was: Nodes, route0: Route, before: Nodes, names: seq<string>, dev: Device,
                                        i: nat, cur: Id)
    requires Routed(was, route0) && i < |names| && Descended(was, before, names, dev, i, cur)
    ensures IsDir(before, cur) <==> DirAt(was, dev, names, i)
    ensures names[i] in Children(before, cur) <==> Kept(was, dev, names, i) && Lookup(was, names[..i + 1]).Some?
    ensures names[i] in Children(before, cur) ==>
              var c := Children(before, cur)[names[i]];
              Lookup(was, names[..i + 1]) == Some(c) && c in was && c in before && before[c] == was[c]
                  && DirAt(was, dev, names, i)
  {
    assert names[..i + 1] == names[..i] + [names[i]];
    if Kept(was, dev, names, i) {
      LookupNext(was, names[..i], names[i], cur);
      assert SameAt(was, before, names, i + 1);
    }
  }

  lemma {:induction false} DescendNext(was: Nodes, route0: Route, before: Nodes, route: Route, now: Nodes,
                                       names: seq<string>, dev: Device, i: nat, cur: Id, r: Option<Id>)
    requires Routed(was, route0) && i < |names| && Descended(was, before, names, dev, i, cur)
    requires Stepped(before, route, now, cur, names[i], names[..i + 1], dev, i + 1 < |names|, r)
    ensures r.Some? ==> Descended(was, now, names, dev, i + 1, r.value)
    ensures r.None? ==> exists j :: 0 < j <= |names| && !Passes(was, dev, names, j)
  {
    DescendFacts(was, route0, before, names, dev, i, cur);
    if r.None? {
      assert !Kept(was, dev, names, i + 1);
      if dev.stat(names[..i + 1]).Failed? || !DirAt(was, dev, names, i) {
        assert !Passes(was, dev, names, i + 1);
      } else {
        assert !Kept(was, dev, names, i + 2) && !DirAt(was, dev, names, i + 1);
        assert !Passes(was, dev, names, i + 2);
      }
    } else if Kept(was, dev, names, i + 1) {
      DescendKept(was, route0, before, route, now, names, dev, i, cur, r.value);
    } else {
      assert Passes(was, dev, names, i + 1);
    }
  }

  lemma {:induction false} DescendKept(was: Nodes, route0: Route, before: Nodes, route: Route, now: Nodes,
                                       names: seq<string>, dev: Device, i: nat, cur: Id, c: Id)
    requires Routed(was, route0) && i < |names| && Descended(was, before, names, dev, i, cur)
    requires Stepped(before, route, now, cur, names[i], names[..i + 1], dev, i + 1 < |names|, Some(c))
    requires Kept(was, dev, names, i + 1)
    ensures Descended(was, now, names, dev, i + 1, c)
  {
    DescendFacts(was, route0, before, names, dev, i, cur);
    assert Passes(was, dev, names, i + 1);
    FoundRoute(was, route0, names[..i + 1]);
    forall j | i + 1 < j <= |names| ensures SameAt(was, now, names, j) {
      assert SameAt(was, before, names, j);
      if Lookup(was, names[..j]).Some? { FoundRoute(was, route0, names[..j]); }
    }
  }

  // A directory and its device listing.

  function NameSet(listing: seq<(string, FileType)>): set<string> { set e | e in listing :: e.0 }

  /** The device lists each name once. */
  ghost predicate Listing(listing: seq<(string, FileType)>) {
    (forall i | 0 <= i < |listing| :: Plain(listing[i].0)) && forall i, j | 0 <= i < j < |listing| ::
        listing[i].0 != listing[j].0
  }

  /** A listed name is new, or an Error node, or its entry has expired and its stat differs. */
  predicate Stale(nodes: Nodes, d: Id, dev: Device, name: string) {
    name in Children(nodes, d) ==>
        ErrorAt(nodes, d, name) || (var c := Children(nodes, d)[name]; dev.expired(c) && dev.modified(c))
  }

  function ChildAt(nodes: Nodes, d: Id, name: string): Option<Node> {
    if name in Children(nodes, d) && Children(nodes, d)[name] in nodes then Some(nodes[Children(nodes, d)[name]])
        else None
  }

  /** What becomes of a listed name: of the listed kind if it was stale, else what it was. */
  ghost predicate Expected(before: Nodes, after: Nodes, d: Id, dev: Device, name: string, mode: FileType) {
    if Stale(before, d, dev, name)
    then ChildAt(after, d, name).Some? && ChildAt(after, d, name).value.mode == mode
        && ChildAt(after, d, name).value.file == FileOf(mode)
    else ChildAt(after, d, name) == ChildAt(before, d, name)
  }

  /** What a directory had is the same node still. */
  ghost predicate SameIds(before: Nodes, after: Nodes, d: Id) {
    forall n | n in Children(before, d) && n in Children(after, d) :: Children(after, d)[n] == Children(before, d)[n]
  }

  /** A directory has the listed names too, as expected, and its other children as they were. */
  ghost predicate Refreshed(before: Nodes, after: Nodes, d: Id, dev: Device, listing: seq<(string, FileType)>) {
    && Children(after, d).Keys == Children(before, d).Keys + NameSet(listing)
    && SameIds(before, after, d)
    && (forall e | e in listing :: Expected(before, after, d, dev, e.0, e.1))
    && (forall n | n !in NameSet(listing) :: ChildAt(after, d, n) == ChildAt(before, d, n))
  }

  ghost predicate OneRefreshed(before: Nodes, after: Nodes, d: Id, dev: Device, name: string, mode: FileType) {
    && Children(after, d).Keys == Children(before, d).Keys + {name}
    && SameIds(before, after, d)
    && Expected(before, after, d, dev, name, mode)
    && (forall n | n != name :: ChildAt(after, d, n) == ChildAt(before, d, n))
  }

  lemma {:induction false} RefreshedNext(first: Nodes, before: Nodes, after: Nodes, d: Id, dev: Device,
                                         listing: seq<(string, FileType)>, i: nat)
    requires i < |listing| && Listing(listing) && Refreshed(first, before, d, dev, listing[..i])
    requires OneRefreshed(before, after, d, dev, listing[i].0, listing[i].1)
    ensures Refreshed(first, after, d, dev, listing[..i + 1])
  {
    var done, e := listing[..i], listing[i];
    assert listing[..i + 1] == done + [e];
    assert NameSet(listing[..i + 1]) == NameSet(done) + {e.0};
    assert e.0 !in NameSet(done);
    assert ChildAt(before, d, e.0) == ChildAt(first, d, e.0);
    assert Stale(before, d, dev, e.0) == Stale(first, d, dev, e.0);
    forall x | x in listing[..i + 1] ensures Expected(first, after, d, dev, x.0, x.1) {
      if x in done { assert x.0 in NameSet(done); }
    }
  }

  lemma {:induction false} AddSiblings(nodes: Nodes, route: Route, d: Id, dev: Device, name: string, id: Id,
                                       mode: FileType)
    requires Routed(nodes, route) && IsDir(nodes, d) && name !in Children(nodes, d) && id !in nodes
    ensures var after := NewChild(nodes, d, name, id, mode, FileOf(mode));
            IsDir(after, d) && OneRefreshed(nodes, after, d, dev, name, mode)
  {
    forall n | n in Children(nodes, d) ensures Children(nodes, d)[n] in nodes && Children(nodes, d)[n] != d {
      ChildOf(nodes, route, d, n);
      BelowParent(nodes, route, d, Children(nodes, d)[n]);
    }
    var after := NewChild(nodes, d, name, id, mode, FileOf(mode));
    assert Children(after, d) == Children(nodes, d)[name := id];
  }

  lemma {:induction false} MutateSiblings(nodes: Nodes, route: Route, d: Id, dev: Device, name: string, mode: FileType)
    requires Routed(nodes, route) && IsDir(nodes, d) && name in Children(nodes, d) && Stale(nodes, d, dev, name)
    ensures var c := Children(nodes, d)[name];
            c in nodes && d !in Strict(nodes, route, c) && c != d &&
            var after := Mutated(nodes, Strict(nodes, route, c), c, mode, FileOf(mode));
            IsDir(after, d) && OneRefreshed(nodes, after, d, dev, name, mode)
  {
    var c := Children(nodes, d)[name];
    ChildOf(nodes, route, d, name);
    BelowParent(nodes, route, c, c);
    StrictIsSub(nodes, route, c);
    var after := Mutated(nodes, Strict(nodes, route, c), c, mode, FileOf(mode));
    assert after[d] == nodes[d];
    forall n | n != name ensures ChildAt(after, d, n) == ChildAt(nodes, d, n) {
      if n in Children(nodes, d) {
        ChildOf(nodes, route, d, n);
        BelowParent(nodes, route, c, Children(nodes, d)[n]);
      }
    }
  }

  // What becomes of the other children, and of what is below them.

  function IdsAt(nodes: Nodes, d: Id, names: set<string>): set<Id> {
    set n | n in names && n in Children(nodes, d) :: Children(nodes, d)[n]
  }

  /** These children of a directory and what is below them have nothing to do with another child. */
  lemma {:induction false} UnderApart(nodes: Nodes, route: Route, d: Id, names: set<string>, name: string)
    requires Routed(nodes, route) && name !in names && d in nodes
    ensures forall x | x in Under(nodes, route, IdsAt(nodes, d, names)) :: !(route[d] + [name] <= route[x])
  {
    forall x | x in Under(nodes, route, IdsAt(nodes, d, names)) ensures !(route[d] + [name] <= route[x]) {
      var t :| t in IdsAt(nodes, d, names) && Below(route, t, x);
      var n :| n in names && n in Children(nodes, d) && Children(nodes, d)[n] == t;
      ChildOf(nodes, route, d, n);
      var k := |route[d]|;
      assert (route[d] + [n])[k] == n && (route[d] + [name])[k] == name;
      assert route[x][k] == route[t][k] == n;
    }
  }

  lemma {:induction false} UnderAdded(nodes: Nodes, route: Route, d: Id, name: string, id: Id, mode: FileType,
                                      names: set<string>)
    requires Routed(nodes, route) && IsDir(nodes, d) && name !in Children(nodes, d) && name !in names && id !in nodes
    ensures var after := NewChild(nodes, d, name, id, mode, FileOf(mode));
            IdsAt(after, d, names) == IdsAt(nodes, d, names) &&
            Under(after, route[id := route[d] + [name]], IdsAt(after, d, names))
                == Under(nodes, route, IdsAt(nodes, d, names))
  {
    var after, route' := NewChild(nodes, d, name, id, mode, FileOf(mode)), route[id := route[d] + [name]];
    NewChildren(nodes, d, name, id, mode, FileOf(mode), d);
    var tops := IdsAt(nodes, d, names);
    assert IdsAt(after, d, names) == tops;
    forall t | t in tops ensures t in nodes && t in route && !(route[t] <= route[d] + [name]) {
      var n :| n in names && n in Children(nodes, d) && Children(nodes, d)[n] == t;
      ChildOf(nodes, route, d, n);
      assert Hangs(nodes, route, t);
      assert (route[d] + [n])[|route[d]|] != (route[d] + [name])[|route[d]|];
    }
    forall x ensures x in Under(after, route', tops) <==> x in Under(nodes, route, tops) {
      if x in Under(after, route', tops) {
        var t :| t in tops && Below(route', t, x);
        assert x != id && Below(route, t, x);
      }
      if x in Under(nodes, route, tops) {
        var t :| t in tops && Below(route, t, x);
        assert Below(route', t, x);
      }
    }
  }

  lemma {:induction false} UnderMutated(nodes: Nodes, route: Route, d: Id, name: string, mode: FileType, file: File,
                                        names: set<string>)
    requires Routed(nodes, route) && IsDir(nodes, d) && name in Children(nodes, d) && name !in names
    ensures var c := Children(nodes, d)[name];
            var gone := Strict(nodes, route, c);
            c in nodes && d !in gone && c != d &&
            var after := Mutated(nodes, gone, c, mode, file);
            && IdsAt(after, d, names) == IdsAt(nodes, d, names)
            && Under(after, Restrict(route, gone), IdsAt(after, d, names))
                 == Under(nodes, route, IdsAt(nodes, d, names))
            && Under(nodes, route, IdsAt(nodes, d, names)) !! gone + {c}
  {
    var c := Children(nodes, d)[name];
    ChildOf(nodes, route, d, name);
    BelowParent(nodes, route, c, c);
    StrictIsSub(nodes, route, c);
    var gone := Strict(nodes, route, c);
    var after, tops := Mutated(nodes, gone, c, mode, file), IdsAt(nodes, d, names);
    UnderApart(nodes, route, d, names, name);
    assert after[d] == nodes[d];
    forall x | x in Under(nodes, route, tops) ensures x !in gone && x != c {
      assert !(route[c] <= route[x]);
    }
    forall x ensures x in Under(after, Restrict(route, gone), tops) <==> x in Under(nodes, route, tops) {
      if x in Under(nodes, route, tops) {
        var t :| t in tops && Below(route, t, x);
        var n :| n in names && n in Children(nodes, d) && Children(nodes, d)[n] == t;
        ChildOf(nodes, route, d, n);
        assert t in Under(nodes, route, tops);
        assert Below(Restrict(route, gone), t, x);
      }
    }
  }

  /** Freeing other handles leaves it as it was whether one of these nodes is open. */
  lemma {:induction false} OpenSame(hs: seq<Handle>, erased: set<Id>, ids: set<Id>)
    requires ids !! erased
    ensures Open(Erased(hs, erased), ids) <==> Open(hs, ids)
  {
    var hs' := Erased(hs, erased);
    if Open(hs, ids) {
      var i :| 0 <= i < |hs| && hs[i].node.Some? && hs[i].node.value in ids;
      assert hs'[i] == hs[i];
    }
    if Open(hs', ids) {
      var i :| 0 <= i < |hs'| && hs'[i].node.Some? && hs'[i].node.value in ids;
      assert hs'[i] == hs[i];
    }
  }

  /** Replacing a node's file leaves it as it was whether one of some other nodes is open. */
  lemma {:induction false} MutatedOpen(nodes: Nodes, route: Route, hs: seq<Handle>, id: Id, ids: set<Id>)
    requires id in nodes && ids !! Strict(nodes, route, id) + {id}
    ensures Open(MutatedHandles(nodes, route, hs, id), ids) <==> Open(hs, ids)
  {
    match nodes[id].file
    case Directory(_, _) => OpenSame(hs, Strict(nodes, route, id) + {id}, ids);
    case Regular => OpenSame(hs, {id}, ids);
    case _ =>
  }

  /** A directory has exactly the listed names, as expected, and what it had and has still is the same node. */
  ghost predicate AsListed(first: Nodes, after: Nodes, d: Id, dev: Device, listing: seq<(string, FileType)>) {
    && Children(after, d).Keys == NameSet(listing) && SameIds(first, after, d)
    && forall e | e in listing :: Expected(first, after, d, dev, e.0, e.1)
  }

  lemma {:induction false} PrunedListed(first: Nodes, refreshed: Nodes, nodes: Nodes, d: Id, dev: Device,
                                        listing: seq<(string, FileType)>)
    requires Refreshed(first, refreshed, d, dev, listing)
    requires Pruned(refreshed, nodes, d, Children(refreshed, d).Keys - NameSet(listing))
             || (nodes == refreshed && Children(first, d) == map[])
    ensures AsListed(first, nodes, d, dev, listing)
  {
    forall e | e in listing ensures Expected(first, nodes, d, dev, e.0, e.1) {
      assert e.0 in NameSet(listing) && Expected(first, refreshed, d, dev, e.0, e.1);
    }
  }

  lemma {:induction false} SyncListed(first: Nodes, nodes: Nodes, route: Route, d: Id, dev: Device,
                                      listing: seq<(string, FileType)>)
    requires Routed(nodes, route) && IsDir(nodes, d) && AsListed(first, nodes, d, dev, listing)
    ensures AsListed(first, nodes[d := nodes[d].(file := nodes[d].file.(synced := true))], d, dev, listing)
  {
    var after := nodes[d := nodes[d].(file := nodes[d].file.(synced := true))];
    assert Children(after, d) == Children(nodes, d);
    forall n ensures ChildAt(after, d, n) == ChildAt(nodes, d, n) {
      if n in Children(nodes, d) {
        ChildOf(nodes, route, d, n);
        BelowParent(nodes, route, d, Children(nodes, d)[n]);
      }
    }
    assert forall e | e in listing :: Expected(first, nodes, d, dev, e.0, e.1);
  }

  /** A directory as expected has no Error node under a listed name. */
  lemma {:induction false} ExpectedKind(before: Nodes, after: Nodes, d: Id, dev: Device,
                                        listing: seq<(string, FileType)>)
    requires AsListed(before, after, d, dev, listing)
    ensures forall n | n in NameSet(listing) :: !ErrorAt(after, d, n)
  {
    forall n | n in NameSet(listing) ensures !ErrorAt(after, d, n) {
      var e :| e in listing && e.0 == n;
      assert Expected(before, after, d, dev, e.0, e.1);
    }
  }

  // Children that go.

  /** What is left is of the kind it was. */
  ghost predicate SameKinds(before: Nodes, after: Nodes) {
    after.Keys <= before.Keys && forall x | x in after :: after[x].file.Regular? == before[x].file.Regular?
  }

  /** The children with some names are gone, with what was below them, and nothing else. */
  ghost predicate Pruning(first: Nodes, route0: Route, nodes: Nodes, route: Route, d: Id, done: set<string>) {
    var gone := Under(first, route0, IdsAt(first, d, done));
    && Routed(first, route0) && Routed(nodes, route) && IsDir(first, d) && IsDir(nodes, d) && d !in gone
    && nodes.Keys == first.Keys - gone && route == Restrict(route0, gone)
    && Pruned(first, nodes, d, done) && SameKinds(first, nodes)
  }

  lemma {:induction false} PruneStart(nodes: Nodes, route: Route, d: Id)
    requires Routed(nodes, route) && IsDir(nodes, d)
    ensures Pruning(nodes, route, nodes, route, d, {})
  {
    assert IdsAt(nodes, d, {}) == {} && Under(nodes, route, {}) == {};
    assert Restrict(route, {}) == route;
  }

  lemma {:induction false} PruneNext(first: Nodes, route0: Route, nodes: Nodes, route: Route, d: Id,
                                     done: set<string>, name: string)
    requires Pruning(first, route0, nodes, route, d, done) && name in Children(first, d) && name !in done
    ensures name in Children(nodes, d)
    ensures var more := Overwritten(nodes, route, d, name);
            Pruning(first, route0, Drop(nodes, more), Restrict(route, more), d, done + {name})
  {
    assert name in Children(nodes, d);
    PruneSiblings(nodes, route, d, name);
    GoneNext(first, route0, nodes, d, done, name);
    PrunedNext(first, nodes, Drop(nodes, Overwritten(nodes, route, d, name)), d, done, name);
  }

  /** Some names of a directory are gone; the others are the same nodes still, unchanged. */
  ghost predicate Pruned(before: Nodes, after: Nodes, d: Id, gone: set<string>) {
    && Children(after, d).Keys == Children(before, d).Keys - gone
    && SameIds(before, after, d)
    && (forall n | n !in gone :: ChildAt(after, d, n) == ChildAt(before, d, n))
  }

  lemma {:induction false} PrunedNext(first: Nodes, before: Nodes, after: Nodes, d: Id, gone: set<string>, name: string)
    requires Pruned(first, before, d, gone) && Pruned(before, after, d, {name})
    ensures Pruned(first, after, d, gone + {name})
  {
  }

  lemma {:induction false} PruneSiblings(nodes: Nodes, route: Route, d: Id, name: string)
    requires Routed(nodes, route) && IsDir(nodes, d) && name in Children(nodes, d)
    ensures var gone := Overwritten(nodes, route, d, name);
            && d !in gone && IsDir(Drop(nodes, gone), d) && Routed(Drop(nodes, gone), Restrict(route, gone))
            && Pruned(nodes, Drop(nodes, gone), d, {name})
  {
    var c, gone := Children(nodes, d)[name], Overwritten(nodes, route, d, name);
    ChildOf(nodes, route, d, name);
    BelowParent(nodes, route, c, c);
    SubClosed(nodes, route, c);
    DropRouted(nodes, route, gone);
    forall m | m in Children(nodes, d) ensures Children(nodes, d)[m] in gone <==> m == name {
      OnlyTop(nodes, route, c, d, m);
    }
    DroppedChildren(nodes, gone, d, d, name);
    forall n | n != name ensures ChildAt(Drop(nodes, gone), d, n) == ChildAt(nodes, d, n) {
      if n in Children(nodes, d) { SiblingKept(nodes, route, d, name, n); }
    }
  }

  lemma {:induction false} SiblingKept(nodes: Nodes, route: Route, d: Id, name: string, n: string)
    requires Routed(nodes, route) && IsDir(nodes, d) && name in Children(nodes, d) && n in Children(nodes, d)
              && n != name
    ensures var x, gone := Children(nodes, d)[n], Overwritten(nodes, route, d, name);
            x in nodes && x !in gone && Drop(nodes, gone)[x] == nodes[x]
  {
    var c, x, gone := Children(nodes, d)[name], Children(nodes, d)[n], Overwritten(nodes, route, d, name);
    ChildOf(nodes, route, d, name);
    ChildOf(nodes, route, d, n);
    BelowParent(nodes, route, c, c);
    BelowParent(nodes, route, c, x);
    BelowParent(nodes, route, x, x);
    forall m | m in Children(nodes, x) ensures Children(nodes, x)[m] !in gone {
      OnlyTop(nodes, route, c, x, m);
    }
    Unpruned(nodes, gone, x);
  }

  /** One more child goes, with everything below it, which nothing that went before was part of. */
  lemma {:induction false} GoneNext(first: Nodes, route: Route, nodes: Nodes, d: Id, done: set<string>, name: string)
    requires Routed(first, route) && IsDir(first, d) && name in Children(first, d) && name !in done
    requires var gone := Under(first, route, IdsAt(first, d, done));
             && nodes.Keys == first.Keys - gone && Routed(nodes, Restrict(route, gone))
             && name in Children(nodes, d) && Children(nodes, d)[name] == Children(first, d)[name]
    ensures var gone := Under(first, route, IdsAt(first, d, done));
            var more := Overwritten(nodes, Restrict(route, gone), d, name);
            && gone + more == Under(first, route, IdsAt(first, d, done + {name}))
            && Restrict(Restrict(route, gone), more) == Restrict(route, gone + more)
  {
    var gone := Under(first, route, IdsAt(first, d, done));
    var c := Children(first, d)[name];
    ChildOf(first, route, d, name);
    ChildOf(nodes, Restrict(route, gone), d, name);
    var more := Overwritten(nodes, Restrict(route, gone), d, name);
    assert IdsAt(first, d, done + {name}) == IdsAt(first, d, done) + {c};
    forall x ensures x in gone + more <==> x in Under(first, route, IdsAt(first, d, done + {name})) {
      if x in Under(first, route, IdsAt(first, d, done + {name})) && x !in gone {
        var t :| t in IdsAt(first, d, done) + {c} && Below(route, t, x);
        assert t == c;
      }
    }
  }

  predicate RenameMoves(nodes: Nodes, id: Id, d: Id) {
    id in nodes && nodes[id].parent.Some? && IsDir(nodes, nodes[id].parent.value) && IsDir(nodes, d)
        && id != nodes[id].parent.value && id != d
  }

  /** What the tree alone says about a rename. */
  predicate RenameAllowed(nodes: Nodes, id: Id, d: Id, n: string, exchange: bool, noReplace: bool) {
    && id != ROOT
    && (exchange ==> n in Children(nodes, d) && !ErrorAt(nodes, d, n))
    && (!exchange && noReplace && n in Children(nodes, d) ==> ErrorAt(nodes, d, n))
  }

  /** The descendants of what a plain rename overwrites. */
  ghost function StrictlyOver(nodes: Nodes, route: Route, d: Id,
                              n: string): set<Id> { Overwritten(nodes, route, d, n) - AtName(nodes, d, n) }

  /** A plain rename frees the handles of the node it overwrites and no others. */
  lemma {:induction false} RenameLive(nodes: Nodes, route: Route, hs: seq<Handle>, id: Id, d: Id, n: string)
    requires CanRename(nodes, route, id, d, n) && Live(nodes, hs)
    ensures Live(RenamedNodes(nodes, route, id, d, n), Erased(hs, AtName(nodes, d, n))) <==>
              !Open(hs, StrictlyOver(nodes, route, d, n))
  {
    var nodes' := RenamedNodes(nodes, route, id, d, n);
    RenameConserves(nodes, route, id, d, n, []);
    forall x | x in nodes' ensures nodes'[x].file.Regular? == nodes[x].file.Regular? {
      RenameKeepsNode(nodes, route, id, d, n, x);
    }
    RemoveLive(nodes, hs, nodes', Overwritten(nodes, route, d, n), AtName(nodes, d, n));
  }

  lemma {:induction false} SwapLive(nodes: Nodes, route: Route, hs: seq<Handle>, a: Id, b: Id)
    requires Routed(nodes, route) && Apart(nodes, route, a, b) && a != b && Live(nodes, hs)
    ensures Live(SwapOf(nodes, a, b), hs)
  {
    SwapChildren(nodes, route, a, b, a);
    forall x | x in nodes && nodes[x].file.Regular? ensures SwapOf(nodes, a, b)[x].file.Regular? {
      SwapRegular(nodes, route, a, b, x);
    }
  }

  /** What an exchange comes to, and how it gets there from the reinserted node. */
  lemma {:induction false} ExchangeFacts(nodes: Nodes, route: Route, hs: seq<Handle>, id: Id, d: Id, n: string)
    requires CanRename(nodes, route, id, d, n) && n in Children(nodes, d)
    ensures var t := Children(nodes, d)[n];
            && Apart(nodes, route, id, t) && id != t && nodes[id].parent.value in nodes
            && Routed(SwapOf(nodes, id, t), SwapRoute(route, id, t)) && SwapOf(nodes, id, t).Keys == nodes.Keys
            && (Live(nodes, hs) ==> Live(SwapOf(nodes, id, t), hs))
    ensures RenameMoves(nodes, id, d)
    ensures var t, p, name := Children(nodes, d)[n], nodes[id].parent.value, nodes[id].name;
            var moved := Move(nodes, p, name, id, d, n);
            && t in moved && IsDir(moved, p) && p != t
            && WithChild(moved[t := moved[t].(name := name, parent := Some(p))], p, name, t) == SwapOf(nodes, id, t)
  {
    RenameParents(nodes, route, id, d, n);
    ChildOf(nodes, route, d, n);
    var t := Children(nodes, d)[n];
    ExchangeConserves(nodes, route, id, t, []);
    if Live(nodes, hs) { SwapLive(nodes, route, hs, id, t); }
    MoveChildren(nodes, nodes[id].parent.value, nodes[id].name, id, d, n, nodes[id].parent.value);
  }

  lemma {:induction false} SwapRegular(nodes: Nodes, route: Route, a: Id, b: Id, x: Id)
    requires Apart(nodes, route, a, b) && a != b && x in nodes && !nodes[x].file.Directory?
    ensures SwapOf(nodes, a, b)[x].file == nodes[x].file
  {
  }

  /** A directory with nothing but Error nodes in it. */
  predicate RemovableAt(nodes: Nodes, d: Id, name: string) {
    name in Children(nodes, d) && var id := Children(nodes, d)[name];
        IsDir(nodes, id) && forall k | k in Kids(nodes, id) :: k in nodes && nodes[k].file.Error?
  }

  lemma {:induction false} ErrorsOnly(nodes: Nodes, route: Route, id: Id)
    requires Routed(nodes, route) && IsDir(nodes, id) && forall k | k in Kids(nodes, id) ::
              k in nodes && nodes[k].file.Error?
    ensures Sub(nodes, route, id) == {id} + Kids(nodes, id)
  {
    forall x ensures x in Sub(nodes, route, id) <==> x == id || x in Kids(nodes, id) {
      if x in Sub(nodes, route, id) && x != id {
        var k := KidToward(nodes, route, id, x);
        KidOf(nodes, route, id, k);
        if k != x {
          var j := KidToward(nodes, route, k, x);
        }
      }
      if x in Kids(nodes, id) { KidOf(nodes, route, id, x); }
    }
  }

  /** Taking a node out of its directory and destroying its subtree. */
  lemma {:induction false} EraseIsDrop(nodes: Nodes, route: Route, top: Id)
    requires Routed(nodes, route) && top in nodes && top != ROOT
    ensures nodes[top].parent.Some? && IsDir(nodes, nodes[top].parent.value)
    ensures Remove(WithoutChild(nodes, nodes[top].parent.value, nodes[top].name), Sub(nodes, route, top))
              == Drop(nodes, Sub(nodes, route, top))
  {
    assert Hangs(nodes, route, top);
    var d, n, gone := nodes[top].parent.value, nodes[top].name, Sub(nodes, route, top);
    var a, b := Remove(WithoutChild(nodes, d, n), gone), Drop(nodes, gone);
    forall x | x in b ensures a[x] == b[x] {
      forall m | m in Children(nodes, x) ensures Children(nodes, x)[m] in gone <==> x == d && m == n {
        OnlyTop(nodes, route, top, x, m);
      }
      DroppedChildren(nodes, gone, x, d, n);
    }
    assert a.Keys == b.Keys;
  }

  lemma {:induction false} ChildOf(nodes: Nodes, route: Route, d: Id, name: string)
    requires Routed(nodes, route) && name in Children(nodes, d)
    ensures var c := Children(nodes, d)[name];
            c in nodes && c != ROOT && d in nodes && nodes[c].parent == Some(d) && nodes[c].name == name
                && route[c] == route[d] + [name] && Plain(name)
  {
    assert Adopts(nodes, d) && Hangs(nodes, route, Children(nodes, d)[name]) && Hangs(nodes, route, ROOT);
  }

  lemma {:induction false} UnlinkFacts(nodes: Nodes, route: Route, hs: seq<Handle>, d: Id, name: string)
    requires Routed(nodes, route) && IsDir(nodes, d) && name in Children(nodes, d)
              && !IsDir(nodes, Children(nodes, d)[name])
    ensures var c := Children(nodes, d)[name];
            && Remove(WithoutChild(nodes, d, name), {c}) == Drop(nodes, {c})
                 && Routed(Drop(nodes, {c}), Restrict(route, {c}))
            && (Live(nodes, hs) ==> Live(Drop(nodes, {c}), Erased(hs, {c})))
    ensures WithChild(WithoutChild(nodes, d, name), d, name, Children(nodes, d)[name]) == nodes
  {
    var c := Children(nodes, d)[name];
    ChildOf(nodes, route, d, name);
    NoneStrict(nodes, route, c);
    LeafClosed(nodes, route, c);
    EraseIsDrop(nodes, route, c);
    DropRouted(nodes, route, {c});
    Reinserted(nodes, d, name);
    if Live(nodes, hs) { RemoveLive(nodes, hs, Drop(nodes, {c}), {c}, {c}); }
  }

  lemma {:induction false} RmdirFacts(nodes: Nodes, route: Route, hs: seq<Handle>, d: Id, name: string)
    requires Routed(nodes, route) && IsDir(nodes, d) && RemovableAt(nodes, d, name)
    ensures var c := Children(nodes, d)[name];
            var gone := {c} + Kids(nodes, c);
            && Sub(nodes, route, c) == gone
            && Remove(WithoutChild(nodes, d, name), gone) == Drop(nodes, gone)
                 && Routed(Drop(nodes, gone), Restrict(route, gone))
            && (Live(nodes, hs) ==> Live(Drop(nodes, gone), hs))
  {
    var c := Children(nodes, d)[name];
    ChildOf(nodes, route, d, name);
    ErrorsOnly(nodes, route, c);
    SubClosed(nodes, route, c);
    EraseIsDrop(nodes, route, c);
    var gone := Sub(nodes, route, c);
    DropRouted(nodes, route, gone);
    if Live(nodes, hs) {
      RemoveLive(nodes, hs, Drop(nodes, gone), gone, {});
      assert Erased(hs, {}) == hs;
    }
  }

  lemma {:induction false} Reinserted(nodes: Nodes, d: Id, name: string)
    requires IsDir(nodes, d) && name in Children(nodes, d)
    ensures WithChild(WithoutChild(nodes, d, name), d, name, Children(nodes, d)[name]) == nodes
  {
    var c := Children(nodes, d);
    assert (c - {name})[name := c[name]] == c;
  }

  lemma {:induction false} DropNone(nodes: Nodes)
    ensures Drop(nodes, {}) == nodes
  {
    forall x | x in nodes ensures Drop(nodes, {})[x] == nodes[x] {
      Unpruned(nodes, {}, x);
    }
  }

  predicate ErrorAt(nodes: Nodes, d: Id, name: string) {
    name in Children(nodes, d) && Children(nodes, d)[name] in nodes && nodes[Children(nodes, d)[name]].file.Error?
  }

  /** The node of a name, if there is one. */
  ghost function AtName(nodes: Nodes, d: Id,
                        name: string): set<Id> { if name in Children(nodes, d) then {Children(nodes, d)[name]} else {} }

  lemma {:induction false} LeafClosed(nodes: Nodes, route: Route, id: Id)
    requires Routed(nodes, route) && id in nodes && id != ROOT && Kids(nodes, id) == {}
    ensures Closed(nodes, {id}) && Sub(nodes, route, id) == {id}
  {
    StrictIsSub(nodes, route, id);
    assert Under(nodes, route, {}) == {};
    assert id in Sub(nodes, route, id);
    SubClosed(nodes, route, id);
  }

  /**
   * The handles `mutate_and_invalidate` leaves: it frees those of a directory's descendants, and of
   * the node if it was a directory or a regular file.
   */
  ghost function MutatedHandles(nodes: Nodes, route: Route, hs: seq<Handle>, id: Id): seq<Handle>
    requires id in nodes
  {
    match nodes[id].file
    case Directory(_, _) => Erased(hs, Strict(nodes, route, id) + {id})
    case Regular => Erased(hs, {id})
    case _ => hs
  }

  lemma {:induction false} NoneStrict(nodes: Nodes, route: Route, id: Id)
    requires id in nodes && !nodes[id].file.Directory?
    ensures Kids(nodes, id) == {} && Strict(nodes, route, id) == {}
  {
  }

  lemma {:induction false} MutateLive(nodes: Nodes, route: Route, hs: seq<Handle>, id: Id, mode: FileType, file: File)
    requires Routed(nodes, route) && id in nodes
    ensures Live(nodes, hs) ==>
              Live(Mutated(nodes, Strict(nodes, route, id), id, mode, file), MutatedHandles(nodes, route, hs, id))
  {
    StrictIsSub(nodes, route, id);
    var gone := Strict(nodes, route, id);
    if Live(nodes, hs) {
      if nodes[id].file.Directory? {
        RemoveLive(nodes, hs, Mutated(nodes, gone, id, mode, file), gone, gone + {id});
      } else {
        NoneStrict(nodes, route, id);
        assert Mutated(nodes, gone, id, mode, file).Keys == nodes.Keys;
      }
    }
  }

  lemma {:induction false} SyncRouted(nodes: Nodes, route: Route, id: Id, synced: bool)
    requires Routed(nodes, route) && IsDir(nodes, id)
    ensures Routed(nodes[id := nodes[id].(file := nodes[id].file.(synced := synced))], route)
  {
    var nodes' := nodes[id := nodes[id].(file := nodes[id].file.(synced := synced))];
    assert forall x :: Children(nodes', x) == Children(nodes, x);
    forall x | x in nodes' ensures Hangs(nodes', route, x) && Adopts(nodes', x) {
      assert Hangs(nodes, route, x) && Adopts(nodes, x);
    }
  }

  lemma {:induction false} NotFound(nodes: Nodes, names: seq<string>, i: nat)
    requires i <= |names| && Lookup(nodes, names[..i]) == None
    ensures Lookup(nodes, names) == None
    decreases |names| - i
  {
    if i < |names| {
      assert names[..i + 1][..i] == names[..i];
      NotFound(nodes, names, i + 1);
    } else {
      assert names[..i] == names;
    }
  }
}
