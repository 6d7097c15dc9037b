/**
 * Runs of filesystem operations: each operation makes some of these changes to the tree and the table
 * of open files.
 */
module TreeRun {
  import opened Bytes
  import opened Paths
  import opened Tree
  import opened TreeRename
  import opened TreeWalk
  import opened Handles
  import opened FileOps

  datatype State = State(nodes: Nodes, route: Route, handles: seq<Handle>)

  datatype Change =
    | AddNode(d: Id, name: string, id: Id, mode: FileType, file: File)  // a node is built, made or listed
    | ForgetError(id: Id)                                              // the Error node mknod and mkdir overwrite
    | UnlinkName(d: Id, name: string)
    | RmdirName(d: Id, name: string)
    | UpdateNode(id: Id, stat: Stat, modified: bool)
    | ReplaceNode(id: Id, mode: FileType, file: File)                  // readdir: a child has become something else
    | PruneName(d: Id, name: string)                                   // readdir: a child is not listed any more
    | SyncDirectory(d: Id)                                             // readdir: the directory has been reconciled
    | RenameTo(id: Id, d: Id, name: string)
    | ExchangeWith(id: Id, other: Id)
    | OpenNode(id: Id, how: OpenMode)
    | ReleaseEntry(fd: nat)

  ghost predicate Enabled(s: State, c: Change) {
    match c
    case AddNode(d, name, id, _, file) =>
      IsDir(s.nodes, d) && d in s.route && name !in Children(s.nodes, d) && Plain(name) && id !in s.nodes && Leaf(file)
    case ForgetError(id) => id in s.nodes && id != ROOT && s.nodes[id].file.Error?
    case UnlinkName(d, name) => IsDir(s.nodes, d) && name in Children(s.nodes, d)
        && !IsDir(s.nodes, Children(s.nodes, d)[name])
    case RmdirName(d, name) => IsDir(s.nodes, d) && RemovableAt(s.nodes, d, name)
    case UpdateNode(id, _, _) => id in s.nodes && id != ROOT
    case ReplaceNode(id, _, file) => id in s.nodes && id != ROOT && Leaf(file)
    case PruneName(d, name) => IsDir(s.nodes, d) && name in Children(s.nodes, d)
    case SyncDirectory(d) => IsDir(s.nodes, d)
    case RenameTo(id, d, name) => CanRename(s.nodes, s.route, id, d, name)
    case ExchangeWith(a, b) => a in s.route && b in s.route && Apart(s.nodes, s.route, a, b) && a != b
    case OpenNode(id, _) => id in s.nodes && s.nodes[id].file.Regular?
    case ReleaseEntry(fd) => fd < |s.handles|
  }

  ghost function Dropped(s: State, gone: set<Id>, freed: set<Id>): State {
    State(Drop(s.nodes, gone), Restrict(s.route, gone), if freed == {} then s.handles else Erased(s.handles, freed))
  }

  ghost function Apply(s: State, c: Change): State
    requires Enabled(s, c)
  {
    match c
    case AddNode(d, name, id, mode, file) =>
        State(NewChild(s.nodes, d, name, id, mode, file), s.route[id := s.route[d] + [name]], s.handles)
    case ForgetError(id) => Dropped(s, {id}, {})
    case UnlinkName(d, name) => Dropped(s, AtName(s.nodes, d, name), AtName(s.nodes, d, name))
    case RmdirName(d, name) => Dropped(s, Overwritten(s.nodes, s.route, d, name), {})
    case UpdateNode(id, stat, modified) =>
      State(Updated(s.nodes, s.route, id, stat, modified), UpdatedRoute(s.nodes, s.route, id, stat, modified),
            UpdatedHandles(s.nodes, s.route, s.handles, id, stat, modified))
    case ReplaceNode(id, mode, file) =>
      var gone := Strict(s.nodes, s.route, id);
      State(Mutated(s.nodes, gone, id, mode, file), Restrict(s.route, gone),
          MutatedHandles(s.nodes, s.route, s.handles, id))
    case PruneName(d, name) => Dropped(s, Overwritten(s.nodes, s.route, d, name), {})
    case SyncDirectory(d) => s.(nodes := s.nodes[d := s.nodes[d].(file := s.nodes[d].file.(synced := true))])
    case RenameTo(id, d, name) =>
      State(RenamedNodes(s.nodes, s.route, id, d, name), RenamedRoute(s.nodes, s.route, id, d, name),
          Erased(s.handles, AtName(s.nodes, d, name)))
    case ExchangeWith(a, b) => State(SwapOf(s.nodes, a, b), SwapRoute(s.route, a, b), s.handles)
    case OpenNode(id, how) => s.(handles := Stored(s.handles, Handle(Some(id), how, 0)))
    case ReleaseEntry(fd) => s.(handles := s.handles[fd := FREE])
  }

  ghost predicate Good(s: State) { Routed(s.nodes, s.route) }

  lemma {:induction false} UpdateGood(s: State, id: Id, stat: Stat, modified: bool)
    requires Good(s) && id in s.nodes && id != ROOT
    ensures Good(Apply(s, UpdateNode(id, stat, modified)))
    ensures Live(s.nodes, s.handles) ==>
              Live(Apply(s, UpdateNode(id, stat, modified)).nodes, Apply(s, UpdateNode(id, stat, modified)).handles)
  {
    if Replaces(s.nodes[id], stat, modified) {
      var mode := if stat.Failed? then s.nodes[id].mode else stat.mode;
      var file := if stat.Failed? then Error else FileOf(stat.mode);
      MutateRouted(s.nodes, s.route, id, mode, file);
      MutateLive(s.nodes, s.route, s.handles, id, mode, file);
    } else if s.nodes[id].file.Directory? {
      SyncRouted(s.nodes, s.route, id, false);
    }
  }

  /**
   * What becomes of a node that is brought up to date, for every answer of the device: an Error leaf of
   * the old type if the failure is remembered; nothing if it is not, or if nothing has changed; a
   * directory with the same children, to be read again; or a new leaf of the type the device says. Only
   * what a replaced node held goes, and no other node changes.
   */
  ghost predicate Known(s: State, s': State, id: Id, stat: Stat, modified: bool)
    requires id in s.nodes
  {
    var was, gone := s.nodes[id], Strict(s.nodes, s.route, id);
    && id in s'.nodes
    && (forall i | i in s'.nodes && i != id :: i in s.nodes && s'.nodes[i] == s.nodes[i])
    && (stat == Failed(true) ==>
          s'.nodes[id] == was.(file := Error) && s'.nodes.Keys == s.nodes.Keys - gone)
    && (stat == Failed(false) || (stat.Is? && !modified && !was.file.Error?) ==> s' == s)
    && (stat == Is(DirectoryType) && modified && was.file.Directory? && was.mode.DirectoryType? ==>
          s' == s.(nodes := s'.nodes) && s'.nodes.Keys == s.nodes.Keys
              && s'.nodes[id] == was.(file := Directory(was.file.children, false)))
    && (stat == Is(DirectoryType) && was.mode.DirectoryType? && !was.file.Directory? ==> s' == s)
    && (stat.Is? && (modified || was.file.Error?) && !(stat.mode.DirectoryType? && was.mode.DirectoryType?) ==>
          s'.nodes[id] == was.(mode := stat.mode, file := FileOf(stat.mode))
              && s'.nodes.Keys == s.nodes.Keys - gone)
  }

  lemma {:induction false} UpdateKnown(s: State, id: Id, stat: Stat, modified: bool)
    requires Good(s) && id in s.nodes && id != ROOT
    ensures Known(s, Apply(s, UpdateNode(id, stat, modified)), id, stat, modified)
  {
    StrictIsSub(s.nodes, s.route, id);
  }

  lemma {:induction false} PruneGood(s: State, d: Id, name: string)
    requires Good(s) && IsDir(s.nodes, d) && name in Children(s.nodes, d)
    ensures var gone := Overwritten(s.nodes, s.route, d, name);
            Routed(Drop(s.nodes, gone), Restrict(s.route, gone)) &&
            (Live(s.nodes, s.handles) ==> (Live(Drop(s.nodes, gone), s.handles) <==> !Open(s.handles, gone)))
  {
    PruneSiblings(s.nodes, s.route, d, name);
    var gone := Overwritten(s.nodes, s.route, d, name);
    if Live(s.nodes, s.handles) {
      RemoveLive(s.nodes, s.handles, Drop(s.nodes, gone), gone, {});
      assert Erased(s.handles, {}) == s.handles;
    }
  }

  /** Every change keeps the tree well-formed. */
  lemma {:induction false} ChangeGood(s: State, c: Change)
    requires Good(s) && Enabled(s, c)
    ensures Good(Apply(s, c))
  {
    match c
    case AddNode(d, name, id, mode, file) => NewRouted(s.nodes, s.route, d, name, id, mode, file);
    case ForgetError(id) =>
      NoneStrict(s.nodes, s.route, id);
      LeafClosed(s.nodes, s.route, id);
      DropRouted(s.nodes, s.route, {id});
    case UnlinkName(d, name) => UnlinkFacts(s.nodes, s.route, s.handles, d, name);
    case RmdirName(d, name) => PruneGood(s, d, name);
    case UpdateNode(id, stat, modified) => UpdateGood(s, id, stat, modified);
    case ReplaceNode(id, mode, file) => MutateRouted(s.nodes, s.route, id, mode, file);
    case PruneName(d, name) => PruneGood(s, d, name);
    case SyncDirectory(d) => SyncRouted(s.nodes, s.route, d, true);
    case RenameTo(id, d, name) => RenameConserves(s.nodes, s.route, id, d, name, []);
    case ExchangeWith(a, b) => SwapRouted(s.nodes, s.route, a, b);
    case _ =>
  }

  /**
   * The changes that leave a handle behind: a plain rename over a directory with an open file in it,
   * and the loss of a child that is open or has an open file in it.
   */
  ghost predicate Strands(s: State, c: Change) {
    match c
    case RenameTo(_, d, name) => Open(s.handles, StrictlyOver(s.nodes, s.route, d, name))
    case PruneName(d, name) => Open(s.handles, Overwritten(s.nodes, s.route, d, name))
    case _ => false
  }

  /** Every change keeps the open files live, exactly when it strands none. */
  lemma {:induction false} ChangeLive(s: State, c: Change)
    requires Good(s) && Enabled(s, c) && Live(s.nodes, s.handles)
    ensures Live(Apply(s, c).nodes, Apply(s, c).handles) <==> !Strands(s, c)
  {
    match c
    case AddNode(d, name, id, mode, file) =>
      forall x | x in s.nodes && s.nodes[x].file.Regular?
          ensures NewChild(s.nodes, d, name, id, mode, file)[x] == s.nodes[x] {
      }
    case ForgetError(id) =>
      RemoveLive(s.nodes, s.handles, Drop(s.nodes, {id}), {id}, {});
      assert Erased(s.handles, {}) == s.handles;
    case UnlinkName(d, name) => UnlinkFacts(s.nodes, s.route, s.handles, d, name);
    case RmdirName(d, name) => RmdirFacts(s.nodes, s.route, s.handles, d, name);
    case UpdateNode(id, stat, modified) => UpdateGood(s, id, stat, modified);
    case ReplaceNode(id, mode, file) => MutateLive(s.nodes, s.route, s.handles, id, mode, file);
    case PruneName(d, name) => PruneGood(s, d, name);
    case SyncDirectory(d) =>
    case RenameTo(id, d, name) => RenameLive(s.nodes, s.route, s.handles, id, d, name);
    case ExchangeWith(a, b) => SwapLive(s.nodes, s.route, s.handles, a, b);
    case OpenNode(id, how) => StoreExact(s.handles, Handle(Some(id), how, 0));
    case ReleaseEntry(_) =>
  }

  /**
   * The changes that free an entry somebody still has open, other than its release: unlinking the
   * file or renaming over it, and replacing it or a directory it is in.
   */
  ghost predicate FreesEntry(s: State, c: Change, i: nat)
    requires i < |s.handles| && s.handles[i].node.Some?
  {
    var node := s.handles[i].node.value;
    match c
    case UnlinkName(d, name) => name in Children(s.nodes, d) && Children(s.nodes, d)[name] == node
    case RenameTo(_, d, name) => name in Children(s.nodes, d) && Children(s.nodes, d)[name] == node
    case UpdateNode(id, stat, modified) =>
      id in s.nodes && Replaces(s.nodes[id], stat, modified) && Below(s.route, id, node)
    case ReplaceNode(id, _, _) => Below(s.route, id, node)
    case ReleaseEntry(fd) => fd == i
    case _ => false
  }

  /** Every change frees exactly the entries `FreesEntry` says, and leaves the other open ones as they are. */
  lemma {:induction false} ChangeFrees(s: State, c: Change, i: nat)
    requires Good(s) && Enabled(s, c) && Live(s.nodes, s.handles) && i < |s.handles| && s.handles[i].node.Some?
    ensures i < |Apply(s, c).handles|
    ensures Apply(s, c).handles[i].node.None? <==> FreesEntry(s, c, i)
    ensures !FreesEntry(s, c, i) ==> Apply(s, c).handles[i] == s.handles[i]
  {
    match c
    case UpdateNode(id, _, _) => ReplacedEntry(s, id, i);
    case ReplaceNode(id, _, _) => ReplacedEntry(s, id, i);
    case OpenNode(id, how) => StoreExact(s.handles, Handle(Some(id), how, 0));
    case _ =>
  }

  lemma {:induction false} ReplacedEntry(s: State, id: Id, i: nat)
    requires Good(s) && Live(s.nodes, s.handles) && id in s.nodes && i < |s.handles| && s.handles[i].node.Some?
    ensures var hs, node := MutatedHandles(s.nodes, s.route, s.handles, id), s.handles[i].node.value;
            && |hs| == |s.handles| && (hs[i].node.None? <==> Below(s.route, id, node))
            && (hs[i].node.Some? ==> hs[i] == s.handles[i])
  {
    var node := s.handles[i].node.value;
    StrictIsSub(s.nodes, s.route, id);
    if !s.nodes[id].file.Directory? { NoneStrict(s.nodes, s.route, id); }
    assert Below(s.route, id, node) <==> node in Strict(s.nodes, s.route, id) + {id};
  }

  // Runs.

  ghost predicate Reaches(s: State, cs: seq<Change>, s': State)
    decreases |cs|
  {
    if cs == [] then s' == s else Enabled(s, cs[0]) && Reaches(Apply(s, cs[0]), cs[1..], s')
  }

  /** Some change of a run leaves a handle behind. */
  ghost predicate StrandsAny(s: State, cs: seq<Change>)
    decreases |cs|
  {
    cs != [] && (Strands(s, cs[0]) || (Enabled(s, cs[0]) && StrandsAny(Apply(s, cs[0]), cs[1..])))
  }

  /** Some change of a run frees the entry. */
  ghost predicate FreesAny(s: State, cs: seq<Change>, i: nat)
    decreases |cs|
  {
    && cs != [] && Enabled(s, cs[0]) && i < |s.handles| && s.handles[i].node.Some?
    && (FreesEntry(s, cs[0], i) || FreesAny(Apply(s, cs[0]), cs[1..], i))
  }

  lemma {:induction false} ReachesOne(s: State, c: Change)
    requires Enabled(s, c)
    ensures Reaches(s, [c], Apply(s, c))
  {
    assert [c][1..] == [];
  }

  lemma {:induction false} ReachesMore(s: State, a: seq<Change>, m: State, b: seq<Change>, s': State)
    requires Reaches(s, a, m) && Reaches(m, b, s')
    ensures Reaches(s, a + b, s')
    decreases |a|
  {
    if a == [] {
      assert a + b == b;
    } else {
      assert (a + b)[0] == a[0] && (a + b)[1..] == a[1..] + b;
      ReachesMore(Apply(s, a[0]), a[1..], m, b, s');
    }
  }

  const INITIAL := State(map[ROOT := Node("/", None, OtherType, Directory(map[], false))], map[ROOT := []], [])

  lemma {:induction false} InitialGood()
    ensures Good(INITIAL) && Live(INITIAL.nodes, INITIAL.handles)
  {
    assert Hangs(INITIAL.nodes, INITIAL.route, ROOT) && Adopts(INITIAL.nodes, ROOT);
  }

  lemma {:induction false} ReachesGood(s: State, cs: seq<Change>, s': State)
    requires Good(s) && Reaches(s, cs, s')
    ensures Good(s')
    ensures Live(s.nodes, s.handles) && !StrandsAny(s, cs) ==> Live(s'.nodes, s'.handles)
    decreases |cs|
  {
    if cs != [] {
      ChangeGood(s, cs[0]);
      if Live(s.nodes, s.handles) { ChangeLive(s, cs[0]); }
      ReachesGood(Apply(s, cs[0]), cs[1..], s');
    }
  }

  /**
   * Over every run the tree is well-formed; and as long as nothing has been stranded, every open file
   * is a regular file in the tree.
   */
  lemma {:induction false} RunGood(cs: seq<Change>, s: State)
    requires Reaches(INITIAL, cs, s)
    ensures Good(s) && WellFormed(s.nodes)
    ensures !StrandsAny(INITIAL, cs) ==> Live(s.nodes, s.handles)
  {
    InitialGood();
    ReachesGood(INITIAL, cs, s);
    assert Routed(s.nodes, s.route);
  }

  /** Over every run, looking up a path and reading off a node's route are inverses. */
  lemma {:induction false} RunRoundTrip(cs: seq<Change>, s: State, names: seq<string>, id: Id)
    requires Reaches(INITIAL, cs, s)
    ensures Lookup(s.nodes, names) == Some(id) <==> id in s.nodes && id in s.route && s.route[id] == names
  {
    RunGood(cs, s);
    LookupIsRoute(s.nodes, s.route, names, id);
  }

  /**
   * Over every run that strands nothing, an open entry is the same open file in the end, unless some
   * change on the way has freed it.
   */
  lemma {:induction false} RunHolds(s: State, cs: seq<Change>, s': State, i: nat)
    requires Good(s) && Live(s.nodes, s.handles) && Reaches(s, cs, s') && !StrandsAny(s, cs)
    requires i < |s.handles| && s.handles[i].node.Some? && !FreesAny(s, cs, i)
    ensures i < |s'.handles| && s'.handles[i] == s.handles[i]
    ensures s.handles[i].node.value in s'.nodes && s'.nodes[s.handles[i].node.value].file.Regular?
    decreases |cs|
  {
    if cs != [] {
      ChangeGood(s, cs[0]);
      ChangeLive(s, cs[0]);
      ChangeFrees(s, cs[0], i);
      RunHolds(Apply(s, cs[0]), cs[1..], s', i);
    }
  }

  // Two runs that strand a handle.

  lemma {:induction false} Extend(cs: seq<Change>, s: State, c: Change) returns (cs': seq<Change>, s': State)
    requires Reaches(INITIAL, cs, s) && Good(s) && Enabled(s, c)
    ensures Reaches(INITIAL, cs', s') && Good(s') && s' == Apply(s, c)
  {
    s' := Apply(s, c);
    cs' := cs + [c];
    ReachesOne(s, c);
    ReachesMore(INITIAL, cs, s, [c], s');
    ChangeGood(s, c);
  }

  lemma {:induction false} OpenFirst(node: Id, how: OpenMode)
    ensures var hs := Stored([], Handle(Some(node), how, 0)); |hs| > 0 && hs[0].node == Some(node) && CountOpen(hs) == 1
  {
    StoreExact([], Handle(Some(node), how, 0));
  }

  lemma {:induction false} FileInDirectory() returns (cs: seq<Change>, s: State)
    ensures Reaches(INITIAL, cs, s) && Good(s) && s.handles == [] && s.nodes.Keys == {ROOT, 1, 2}
    ensures s.route == map[ROOT := [], 1 := ["d"], 2 := ["d", "f"]]
    ensures IsDir(s.nodes, ROOT) && "e" !in Children(s.nodes, ROOT) && "d" in Children(s.nodes, ROOT)
              && s.nodes[2].file.Regular?
    ensures Children(s.nodes, ROOT)["d"] == 1
  {
    InitialGood();
    assert Plain("d") && Plain("f");
    cs, s := Extend([], INITIAL, AddNode(ROOT, "d", 1, DirectoryType, Directory(map[], false)));
    assert INITIAL.route[ROOT] + ["d"] == ["d"];
    assert s.nodes[1] == Node("d", Some(ROOT), DirectoryType, Directory(map[], false));
    cs, s := Extend(cs, s, AddNode(1, "f", 2, RegularType, Regular));
    assert ["d"] + ["f"] == ["d", "f"];
  }

  lemma {:induction false} OpenInDirectory() returns (cs: seq<Change>, s: State)
    ensures Reaches(INITIAL, cs, s) && Good(s) && s.nodes.Keys == {ROOT, 1, 2, 3} && Live(s.nodes, s.handles)
    ensures s.route == map[ROOT := [], 1 := ["d"], 2 := ["d", "f"], 3 := ["e"]]
    ensures IsDir(s.nodes, ROOT) && "d" in Children(s.nodes, ROOT) && Children(s.nodes, ROOT)["d"] == 1
    ensures |s.handles| > 0 && s.handles[0].node == Some(2)
  {
    cs, s := FileInDirectory();
    ghost var t := s;
    cs, s := Extend(cs, s, OpenNode(2, ReadMode));
    OpenFirst(2, ReadMode);
    ChangeLive(t, OpenNode(2, ReadMode));
    assert Plain("e");
    t := s;
    cs, s := Extend(cs, s, AddNode(ROOT, "e", 3, DirectoryType, Directory(map[], false)));
    ChangeLive(t, AddNode(ROOT, "e", 3, DirectoryType, Directory(map[], false)));
    assert [] + ["e"] == ["e"];
  }

  /**
   * A directory is renamed over one with an open file in it. The device lets only an empty one be
   * overwritten, so the file must have gone from the device while its node is still here.
   */
  lemma {:induction false} StrandedByRename() returns (cs: seq<Change>, s: State, c: Change)
    ensures Reaches(INITIAL, cs, s) && c == RenameTo(3, ROOT, "d") && Enabled(s, c)
    ensures Live(s.nodes, s.handles) && !Live(Apply(s, c).nodes, Apply(s, c).handles)
  {
    c := RenameTo(3, ROOT, "d");
    cs, s := OpenInDirectory();
    assert Plain("d") && s.route[ROOT] + ["d"] == ["d"] && ["d"][0] != ["e"][0];
    assert s.route[1] == s.route[2][..1];
    assert 2 in StrictlyOver(s.nodes, s.route, ROOT, "d");
    ChangeLive(s, c);
  }

  /** An open file is not listed any more. */
  lemma {:induction false} StrandedByPruning() returns (cs: seq<Change>, s: State, c: Change)
    ensures Reaches(INITIAL, cs, s) && c == PruneName(ROOT, "f") && Enabled(s, c)
    ensures Live(s.nodes, s.handles) && !Live(Apply(s, c).nodes, Apply(s, c).handles)
  {
    InitialGood();
    c := PruneName(ROOT, "f");
    cs, s := Extend([], INITIAL, AddNode(ROOT, "f", 1, RegularType, Regular));
    cs, s := Extend(cs, s, OpenNode(1, ReadMode));
    OpenFirst(1, ReadMode);
    StoreExact([], Handle(Some(1), ReadMode, 0));
    assert 1 in Overwritten(s.nodes, s.route, ROOT, "f");
    ChangeLive(s, c);
  }
}
