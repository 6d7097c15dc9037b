/** The operations of the filesystem on its tree and its open files (madbfs/src/filesystem.cpp). */
module FileTree {
  import opened Bytes
  import opened Paths
  import opened Tree
  import opened TreeRename
  import opened TreeWalk
  import opened Handles
  import opened FileOps
  import opened TreeRun

  class Filesystem {
    var nodes: Nodes
    var next: Id
    ghost var route: Route
    const store: FileHandleStore

    ghost predicate Valid() reads this { Routed(nodes, route) && forall id | id in nodes :: id < next }

    ghost predicate AllLive() reads this, store { Live(nodes, store.handles) }

    ghost function Now(): State reads this, store { State(nodes, route, store.handles) }

    /** The children with these names, and everything below them. */
    ghost function Holding(d: Id,
                           names: set<string>): set<Id> reads this { Under(nodes, route, IdsAt(nodes, d, names)) }

    /** The children of a directory that a listing does not have, and everything below them. */
    ghost function Unlisted(d: Id, listing: seq<(string, FileType)>): set<Id> reads this {
      Holding(d, Children(nodes, d).Keys - NameSet(listing))
    }

    constructor ()
      ensures Now() == INITIAL
      ensures Valid() && AllLive() && fresh(store) && nodes.Keys == {ROOT}
    {
      nodes := map[ROOT := Node("/", None, OtherType, Directory(map[], false))];
      next := 1;
      route := map[ROOT := []];
      store := new FileHandleStore();
      new;
      assert Hangs(nodes, route, ROOT) && Adopts(nodes, ROOT);
    }

    /** `traverse`. */
    method Traverse(names: seq<string>) returns (r: Option<Id>)
      requires Valid()
      ensures r == Lookup(nodes, names)
      ensures r.Some? ==> r.value in nodes && route[r.value] == names
    {
      var current := ROOT;
      var i: nat := 0;
      assert names[..0] == [];
      while i < |names|
        invariant i <= |names| && Lookup(nodes, names[..i]) == Some(current)
      {
        assert names[..i + 1] == names[..i] + [names[i]];
        LookupNext(nodes, names[..i], names[i], current);
        if names[i] !in Children(nodes, current) {
          NotFound(nodes, names, i + 1);
          return None;
        }
        current := Children(nodes, current)[names[i]];
        i := i + 1;
      }
      assert names[..i] == names;
      FoundRoute(nodes, route, names);
      return Some(current);
    }

    /** `build`, once the device has told what it is: a new leaf in a directory without that name. */
    method Add(d: Id, name: string, mode: FileType, file: File) returns (id: Id)
      requires Valid() && IsDir(nodes, d) && name !in Children(nodes, d) && Plain(name) && Leaf(file)
      modifies this
      ensures Valid() && id == old(next) && id !in old(nodes)
      ensures nodes == NewChild(old(nodes), d, name, id, mode, file)
                && route == old(route)[id := old(route)[d] + [name]]
      ensures Enabled(old(Now()), AddNode(d, name, id, mode, file))
      ensures Now() == Apply(old(Now()), AddNode(d, name, id, mode, file))
      ensures old(AllLive()) ==> AllLive()
    {
      id := next;
      NewRouted(nodes, route, d, name, id, mode, file);
      route := route[id := route[d] + [name]];
      nodes := NewChild(nodes, d, name, id, mode, file);
      next := next + 1;
    }

    /** `mutate_and_invalidate`, with the new stat: the node becomes a leaf, and what it held is destroyed. */
    method Mutate(id: Id, mode: FileType, file: File)
      requires Valid() && id in nodes && id != ROOT && Leaf(file)
      modifies this, store
      ensures Valid() && next == old(next)
      ensures nodes == Mutated(old(nodes), Strict(old(nodes), old(route), id), id, mode, file)
      ensures route == Restrict(old(route), Strict(old(nodes), old(route), id))
      ensures store.handles == MutatedHandles(old(nodes), old(route), old(store.handles), id)
      ensures Now() == Apply(old(Now()), ReplaceNode(id, mode, file))
      ensures old(AllLive()) ==> AllLive()
    {
      MutateRouted(nodes, route, id, mode, file);
      MutateLive(nodes, route, store.handles, id, mode, file);
      var gone := Invalidate(id);
      route := Restrict(route, gone);
      nodes := Mutated(nodes, gone, id, mode, file);
    }

    /** Frees the handles of what a node holds, and its own, and finds out what that is. */
    method Invalidate(id: Id) returns (gone: set<Id>)
      requires Valid() && id in nodes
      modifies store
      ensures gone == Strict(nodes, route, id)
      ensures store.handles == MutatedHandles(nodes, route, old(store.handles), id)
    {
      StrictIsSub(nodes, route, id);
      gone := {};
      if nodes[id].file.Directory? {
        var order := Walk(nodes, route, Kids(nodes, id));
        EraseAll(store, order + [id]);
        assert Ids(order + [id]) == Ids(order) + {id};
        gone := Ids(order);
      } else {
        NoneStrict(nodes, route, id);
        if nodes[id].file.Regular? {
          var erased := store.Erase(id);
        }
      }
    }

    /** `update`: what a node whose entry has expired becomes. */
    method Update(id: Id, stat: Stat, modified: bool) returns (r: Result<(), Errc>)
      requires Valid() && id in nodes && id != ROOT
      modifies this, store
      ensures Valid() && id in nodes && route[id] == old(route[id])
      ensures next == old(next)
      ensures old(AllLive()) ==> AllLive()
      ensures r.Ok? <==> stat.Is?
      ensures Known(old(Now()), Now(), id, stat, modified)
      ensures nodes == Updated(old(nodes), old(route), id, stat, modified)
      ensures route == UpdatedRoute(old(nodes), old(route), id, stat, modified)
      ensures store.handles == UpdatedHandles(old(nodes), old(route), old(store.handles), id, stat, modified)
      ensures Now() == Apply(old(Now()), UpdateNode(id, stat, modified))
    {
      UpdateKnown(Now(), id, stat, modified);
      r := BringUpToDate(id, stat, modified);
    }

    method BringUpToDate(id: Id, stat: Stat, modified: bool) returns (r: Result<(), Errc>)
      requires Valid() && id in nodes && id != ROOT
      modifies this, store
      ensures Valid() && id in nodes && route[id] == old(route[id])
      ensures next == old(next)
      ensures old(AllLive()) ==> AllLive()
      ensures r.Ok? <==> stat.Is?
      ensures nodes == Updated(old(nodes), old(route), id, stat, modified)
      ensures route == UpdatedRoute(old(nodes), old(route), id, stat, modified)
      ensures store.handles == UpdatedHandles(old(nodes), old(route), old(store.handles), id, stat, modified)
    {
      StrictIsSub(nodes, route, id);
      if stat.Failed? {
        if stat.cached {
          Mutate(id, nodes[id].mode, Error);
        }
        return Err(FromDevice);
      }
      if !nodes[id].file.Error? && !modified {
        return Ok(());
      }
      if stat.mode.DirectoryType? && nodes[id].mode.DirectoryType? {
        Rescan(id);
      } else {
        Mutate(id, stat.mode, FileOf(stat.mode));
      }
      return Ok(());
    }

    /** `build` and `build_directory`: a node for a name its directory does not know, if the device has it. */
    method Build(d: Id, name: string, stat: Stat, onlyDirectory: bool)
      returns (r: Result<Id, Errc>, ghost cs: seq<Change>)
      requires Valid() && d in nodes && name !in Children(nodes, d) && Plain(name)
      modifies this, store
      ensures Valid() && Reaches(old(Now()), cs, Now())
      ensures old(AllLive()) ==> AllLive()
      ensures r.Ok? ==> r.value in nodes && route[r.value] == old(route[d]) + [name] && !nodes[r.value].file.Error?
      ensures r.Ok? <==> IsDir(old(nodes), d) && stat.Is? && (onlyDirectory ==> stat.mode.DirectoryType?)
      ensures r.Ok? ==>
                r.value !in old(nodes) && nodes == NewChild(old(nodes), d, name, r.value, stat.mode, FileOf(stat.mode))
      ensures r.Err? && nodes != old(nodes) ==>
                IsDir(old(nodes), d) && stat == Failed(true)
                    && nodes == NewChild(old(nodes), d, name, old(next), OtherType, Error)
    {
      cs := [];
      if stat.Failed? {
        if stat.cached && nodes[d].file.Directory? {
          ghost var c := AddNode(d, name, next, OtherType, Error);
          ReachesOneIf(Now(), c);
          var e := Add(d, name, OtherType, Error);
          cs := [c];
        }
        return Err(FromDevice), cs;
      }
      if onlyDirectory && stat.mode != DirectoryType {
        return Err(NotADirectory), cs;
      }
      if !nodes[d].file.Directory? {
        return Err(DirectoryError(nodes[d].file)), cs;
      }
      ghost var c := AddNode(d, name, next, stat.mode, FileOf(stat.mode));
      ReachesOneIf(Now(), c);
      var id := Add(d, name, stat.mode, FileOf(stat.mode));
      return Ok(id), [c];
    }

    /** One step of `traverse_or_build`: the child if it is known, brought up to date if need be, else a new one. */
    method Step(d: Id, name: string, path: seq<string>, dev: Device, onlyDirectory: bool)
      returns (r: Result<Id, Errc>, ghost cs: seq<Change>)
      requires Valid() && d in nodes && Plain(name)
      modifies this, store
      ensures Valid() && Reaches(old(Now()), cs, Now())
      ensures old(AllLive()) ==> AllLive()
      ensures r.Ok? ==> r.value in nodes && route[r.value] == old(route[d]) + [name]
      ensures Stepped(old(nodes), old(route), nodes, d, name, path, dev, onlyDirectory, ValueOf(r))
    {
      cs := [];
      if name in Children(nodes, d) {
        var id := Children(nodes, d)[name];
        ChildOf(nodes, route, d, name);
        if dev.expired(id) {
          ghost var c := UpdateNode(id, dev.stat(path), dev.modified(id));
          ReachesOneIf(Now(), c);
          var updated := Update(id, dev.stat(path), dev.modified(id));
          cs := [c];
          if updated.Err? {
            return Err(updated.error), cs;
          }
        }
        return Ok(id), cs;
      }
      r, cs := Build(d, name, dev.stat(path), onlyDirectory);
    }

    /**
     * `traverse_or_build`: the node it finds or builds has the path's names. It succeeds exactly when
     * each name on the way does, as the tree and the device were before the call.
     */
    method TraverseOrBuild(names: seq<string>, dev: Device) returns (r: Result<Id, Errc>, ghost cs: seq<Change>)
      requires Valid() && AllPlain(names)
      modifies this, store
      ensures Valid() && Reaches(old(Now()), cs, Now())
      ensures old(AllLive()) ==> AllLive()
      ensures r.Ok? ==> r.value in nodes && route[r.value] == names && Lookup(nodes, names) == Some(r.value)
      ensures r.Ok? <==> forall i :: 0 < i <= |names| ==> Passes(old(nodes), dev, names, i)
    {
      var current := ROOT;
      cs := [];
      assert Hangs(nodes, route, ROOT);
      var i: nat := 0;
      assert names[..0] == [];
      DescendStart(nodes, route, names, dev);
      while i < |names|
        invariant i <= |names| && Valid() && current in nodes && route[current] == names[..i]
        invariant Reaches(old(Now()), cs, Now())
        invariant old(AllLive()) ==> AllLive()
        invariant Descended(old(nodes), nodes, names, dev, i, current)
      {
        assert names[i] in names;
        assert names[..i + 1] == names[..i] + [names[i]];
        ghost var before := Now();
        var next;
        ghost var more;
        next, more := Step(current, names[i], names[..i + 1], dev, i + 1 < |names|);
        ReachesMore(old(Now()), cs, before, more, Now());
        cs := cs + more;
        DescendNext(old(nodes), old(route), before.nodes, before.route, nodes, names, dev, i, current, ValueOf(next));
        if next.Err? {
          return Err(next.error), cs;
        }
        current := next.value;
        i := i + 1;
      }
      assert names[..i] == names;
      RouteFound(nodes, route, current);
      r := Ok(current);
    }

    /** `mknod` and `mkdir` in a directory: a new node, in place of an Error node or of nothing. */
    method Create(d: Id, name: string, file: File, accepted: bool, after: Stat)
      returns (r: Result<Id, Errc>, ghost cs: seq<Change>)
      requires Valid() && IsDir(nodes, d) && Plain(name) && Leaf(file)
      modifies this
      ensures Valid() && Reaches(old(Now()), cs, Now())
      ensures old(AllLive()) ==> AllLive()
      ensures r.Ok? <==> accepted && after.Is? && (name in old(Children(nodes, d)) ==> old(ErrorAt(nodes, d, name)))
      ensures r.Ok? ==> r.value == old(next) && r.value in nodes && r.value !in old(nodes)
      ensures r.Ok? ==> route[r.value] == old(route[d]) + [name]
      ensures r.Ok? ==> IsDir(Drop(old(nodes), old(AtName(nodes, d, name))), d)
      ensures r.Ok? ==>
                nodes == NewChild(Drop(old(nodes), old(AtName(nodes, d, name))), d, name, r.value, after.mode, file)
      ensures r.Err? ==> nodes == old(nodes) && route == old(route)
      ensures name in old(Children(nodes, d)) && !old(ErrorAt(nodes, d, name)) ==> r == Err(Exists)
    {
      cs := [];
      var overwrite := false;
      if name in Children(nodes, d) {
        var id := Children(nodes, d)[name];
        ChildOf(nodes, route, d, name);
        if !nodes[id].file.Error? {
          return Err(Exists), cs;
        }
        NoneStrict(nodes, route, id);
        overwrite := true;
      }
      if !accepted || after.Failed? {
        return Err(FromDevice), cs;
      }
      if overwrite {
        ghost var c := ForgetError(Children(nodes, d)[name]);
        ReachesOneIf(Now(), c);
        Forget(Children(nodes, d)[name]);
        cs := [c];
      } else {
        DropNone(nodes);
      }
      ghost var before, c := Now(), AddNode(d, name, next, after.mode, file);
      ReachesOneIf(before, c);
      var id := Add(d, name, after.mode, file);
      ReachesMore(old(Now()), cs, before, [c], Now());
      return Ok(id), cs + [c];
    }

    /** An Error node is destroyed. */
    method Forget(id: Id)
      requires Valid() && id in nodes && id != ROOT && nodes[id].file.Error?
      modifies this
      ensures Valid() && next == old(next)
      ensures nodes == Drop(old(nodes), {id}) && route == Restrict(old(route), {id})
      ensures Now() == Apply(old(Now()), ForgetError(id))
      ensures old(AllLive()) ==> AllLive()
    {
      NoneStrict(nodes, route, id);
      LeafClosed(nodes, route, id);
      DropRouted(nodes, route, {id});
      nodes := Drop(nodes, {id});
      route := Restrict(route, {id});
    }

    /** `unlink` in a directory: the node is taken out first, and put back when the device refuses. */
    method Unlink(d: Id, name: string, accepted: bool) returns (r: Result<(), Errc>)
      requires Valid() && IsDir(nodes, d)
      modifies this, store
      ensures Valid() && next == old(next)
      ensures old(AllLive()) ==> AllLive()
      ensures r.Ok? <==> accepted && name in old(Children(nodes, d)) && !old(IsDir(nodes, Children(nodes, d)[name]))
      ensures r.Ok? ==>
                nodes == Drop(old(nodes), old(AtName(nodes, d, name)))
                    && route == Restrict(old(route), old(AtName(nodes, d, name)))
      ensures r.Ok? ==> store.handles == Erased(old(store.handles), old(AtName(nodes, d, name)))
      ensures r.Ok? ==> Now() == Apply(old(Now()), UnlinkName(d, name))
      ensures r.Err? ==> nodes == old(nodes) && route == old(route) && store.handles == old(store.handles)
      ensures r == Err(NoEntry) <==> name !in old(Children(nodes, d))
      ensures r == Err(IsADirectory) <==> name in old(Children(nodes, d)) && old(IsDir(nodes, Children(nodes, d)[name]))
    {
      if name !in Children(nodes, d) {
        return Err(NoEntry);
      }
      var id := Children(nodes, d)[name];
      ChildOf(nodes, route, d, name);
      if nodes[id].file.Directory? {
        return Err(IsADirectory);
      }
      UnlinkFacts(nodes, route, store.handles, d, name);
      nodes := WithoutChild(nodes, d, name);
      if !accepted {
        Reinserted(old(nodes), d, name);
        nodes := WithChild(nodes, d, name, id);
        return Err(FromDevice);
      }
      var erased := store.Erase(id);
      nodes := Remove(nodes, {id});
      route := Restrict(route, {id});
      return Ok(());
    }

    /** `rmdir` in a directory: only Error nodes may be left in what goes. */
    method Rmdir(d: Id, name: string, accepted: bool) returns (r: Result<(), Errc>)
      requires Valid() && IsDir(nodes, d)
      modifies this
      ensures Valid() && next == old(next)
      ensures old(AllLive()) ==> AllLive()
      ensures r.Ok? <==> accepted && old(RemovableAt(nodes, d, name))
      ensures r.Ok? ==> nodes == Drop(old(nodes), old(Sub(nodes, route, Children(nodes, d)[name])))
      ensures r.Ok? ==> route == Restrict(old(route), old(Sub(nodes, route, Children(nodes, d)[name])))
      ensures r.Ok? ==> Now() == Apply(old(Now()), RmdirName(d, name))
      ensures r.Err? ==> nodes == old(nodes) && route == old(route)
      ensures r == Err(NoEntry) <==> name !in old(Children(nodes, d))
      ensures r == Err(Cached) <==> old(ErrorAt(nodes, d, name))
      ensures r == Err(NotEmpty) <==>
                name in old(Children(nodes, d)) && old(IsDir(nodes, Children(nodes, d)[name]))
                    && !old(RemovableAt(nodes, d, name))
    {
      if name !in Children(nodes, d) {
        return Err(NoEntry);
      }
      var id := Children(nodes, d)[name];
      ChildOf(nodes, route, d, name);
      if !nodes[id].file.Directory? {
        return Err(DirectoryError(nodes[id].file));
      }
      if exists k | k in Kids(nodes, id) :: !(k in nodes && nodes[k].file.Error?) {
        return Err(NotEmpty);
      }
      if !accepted {
        return Err(FromDevice);
      }
      RmdirFacts(nodes, route, store.handles, d, name);
      var gone := {id} + Kids(nodes, id);
      nodes := Remove(WithoutChild(nodes, d, name), gone);
      route := Restrict(route, gone);
      return Ok(());
    }

    /**
     * `rename`, once both paths have been looked up: `id` is what the old path names, `d` and `n` the
     * directory and the name of the new one. The device accepts nothing that is inside the other.
     */
    method Rename(id: Id, d: Id, n: string, exchange: bool, noReplace: bool, accepted: bool)
      returns (r: Result<(), Errc>)
      requires Valid() && id in nodes && d in nodes && Plain(n)
      requires accepted ==> !(route[id] <= route[d] + [n]) && !(route[d] + [n] <= route[id])
      modifies this, store
      ensures Valid() && next == old(next)
      ensures r.Ok? <==> accepted && old(IsDir(nodes, d)) && RenameAllowed(old(nodes), id, d, n, exchange, noReplace)
      ensures r.Err? ==> nodes == old(nodes) && route == old(route) && store.handles == old(store.handles)
      ensures r.Ok? ==> CanRename(old(nodes), old(route), id, d, n)
      ensures r.Ok? ==> store.handles == if exchange then old(store.handles)
                else Erased(old(store.handles), old(AtName(nodes, d, n)))
      ensures r.Ok? && !exchange ==>
                nodes == RenamedNodes(old(nodes), old(route), id, d, n)
                    && route == RenamedRoute(old(nodes), old(route), id, d, n)
      ensures r.Ok? && !exchange && old(AllLive()) ==>
                (AllLive() <==> !Open(old(store.handles), StrictlyOver(old(nodes), old(route), d, n)))
      ensures r.Ok? && exchange ==> var t := old(Children(nodes, d)[n]);
                Apart(old(nodes), old(route), id, t) && id != t && nodes == SwapOf(old(nodes), id, t)
                    && route == SwapRoute(old(route), id, t)
      ensures r.Ok? && exchange && old(AllLive()) ==> AllLive()
      ensures r.Ok? && !exchange ==> Now() == Apply(old(Now()), RenameTo(id, d, n))
      ensures r.Ok? && exchange ==> Now() == Apply(old(Now()), ExchangeWith(id, old(Children(nodes, d)[n])))
    {
      if id == ROOT {
        return Err(NotSupported);
      }
      assert Hangs(nodes, route, id);
      if !nodes[d].file.Directory? {
        return Err(DirectoryError(nodes[d].file));
      }
      if exchange {
        if n !in Children(nodes, d) {
          return Err(NoEntry);
        } else if ErrorAt(nodes, d, n) {
          return Err(Cached);
        }
      } else if noReplace && n in Children(nodes, d) && !ErrorAt(nodes, d, n) {
        return Err(Exists);
      }
      if !accepted {
        return Err(FromDevice);
      }
      RenameParents(nodes, route, id, d, n);
      if exchange {
        var t := Exchange(id, d, n);
      } else {
        Replace(id, d, n);
      }
      return Ok(());
    }

    /** The first half of a rename: the node goes to its new directory, and what it overwrites there is handed out. */
    method Reinsert(id: Id, d: Id, n: string) returns (over: Option<Id>)
      requires CanRename(nodes, route, id, d, n)
      modifies this`nodes
      ensures over == if n in old(Children(nodes, d)) then Some(old(Children(nodes, d)[n])) else None
      ensures RenameMoves(old(nodes), id, d)
                && nodes == Move(old(nodes), old(nodes[id].parent.value), old(nodes[id].name), id, d, n)
    {
      RenameParents(nodes, route, id, d, n);
      assert Hangs(nodes, route, id);
      var p, name := nodes[id].parent.value, nodes[id].name;
      nodes := WithoutChild(nodes, p, name);
      nodes := nodes[id := nodes[id].(name := n, parent := Some(d))];
      over := if n in Children(nodes, d) then Some(Children(nodes, d)[n]) else None;
      nodes := WithChild(nodes, d, n, id);
    }

    /** The rest of an exchange: what was overwritten goes to the old place. */
    method Exchange(id: Id, d: Id, n: string) returns (t: Id)
      requires Valid() && CanRename(nodes, route, id, d, n) && n in Children(nodes, d)
      modifies this
      ensures Valid() && next == old(next)
      ensures t == old(Children(nodes, d)[n]) && Apart(old(nodes), old(route), id, t) && id != t
      ensures nodes == SwapOf(old(nodes), id, t) && route == SwapRoute(old(route), id, t)
      ensures Now() == Apply(old(Now()), ExchangeWith(id, t))
      ensures old(AllLive()) ==> AllLive()
    {
      ghost var was := Now();
      ExchangeFacts(nodes, route, store.handles, id, d, n);
      t := Swap(id, d, n);
      route := SwapRoute(route, id, t);
      assert Now() == Apply(was, ExchangeWith(id, t));
    }

    method Swap(id: Id, d: Id, n: string) returns (t: Id)
      requires CanRename(nodes, route, id, d, n) && n in Children(nodes, d)
      modifies this`nodes
      ensures t == old(Children(nodes, d)[n]) && Apart(old(nodes), route, id, t) && id != t
      ensures nodes == SwapOf(old(nodes), id, t)
    {
      ExchangeFacts(nodes, route, [], id, d, n);
      var p, name := nodes[id].parent.value, nodes[id].name;
      var over := Reinsert(id, d, n);
      t := over.value;
      PutBack(t, p, name);
    }

    method PutBack(b: Id, p: Id, name: string)
      requires b in nodes && IsDir(nodes, p) && p != b
      modifies this`nodes
      ensures nodes == WithChild(old(nodes)[b := old(nodes)[b].(name := name, parent := Some(p))], p, name, b)
    {
      nodes := nodes[b := nodes[b].(name := name, parent := Some(p))];
      nodes := WithChild(nodes, p, name, b);
    }

    /** The rest of a plain rename: what was overwritten is destroyed. */
    method Replace(id: Id, d: Id, n: string)
      requires Valid() && CanRename(nodes, route, id, d, n)
      modifies this, store
      ensures Valid() && next == old(next)
      ensures nodes == RenamedNodes(old(nodes), old(route), id, d, n)
                && route == RenamedRoute(old(nodes), old(route), id, d, n)
      ensures store.handles == Erased(old(store.handles), old(AtName(nodes, d, n)))
      ensures Now() == Apply(old(Now()), RenameTo(id, d, n))
      ensures old(AllLive()) ==> (AllLive() <==> !Open(old(store.handles), StrictlyOver(old(nodes), old(route), d, n)))
    {
      ghost var was := Now();
      RenameParents(nodes, route, id, d, n);
      RenameConserves(nodes, route, id, d, n, []);
      if AllLive() { RenameLive(nodes, route, store.handles, id, d, n); }
      ghost var now := RenamedRoute(nodes, route, id, d, n);
      var gone := Subtree(d, n);
      assert Erased(store.handles, {}) == store.handles;
      var over := Reinsert(id, d, n);
      if over.Some? {
        var erased := store.Erase(over.value);
      }
      nodes := Remove(nodes, gone);
      route := now;
      assert Now() == Apply(was, RenameTo(id, d, n));
    }

    /** What is destroyed with the node of a name. */
    method Subtree(d: Id, n: string) returns (gone: set<Id>)
      requires Valid()
      ensures gone == Overwritten(nodes, route, d, n)
    {
      if n !in Children(nodes, d) {
        return {};
      }
      ChildOf(nodes, route, d, n);
      var order := Walk(nodes, route, {Children(nodes, d)[n]});
      assert Under(nodes, route, {Children(nodes, d)[n]}) == Overwritten(nodes, route, d, n);
      return Ids(order);
    }

    /**
     * `open`, with the cache on: only regular files whose entry the cache accepts can be opened, and
     * the entry given out was free.
     */
    method OpenFile(id: Id, mode: OpenMode, hinted: bool) returns (r: Result<nat, Errc>)
      requires Valid() && id in nodes
      modifies store
      ensures r.Ok? <==> nodes[id].file.Regular? && hinted
      ensures r.Ok? ==> r.value == FirstFree(old(store.handles)) && Now() == Apply(old(Now()), OpenNode(id, mode))
      ensures r.Err? ==> store.handles == old(store.handles)
      ensures r == Err(FromCache) <==> nodes[id].file.Regular? && !hinted
      ensures r == Err(IsADirectory) <==> nodes[id].file.Directory?
      ensures (r == Err(TooManyLinks) <==> nodes[id].file.Link?) && (r == Err(NotSupported) <==> nodes[id].file.Other?)
      ensures old(AllLive()) ==> AllLive()
    {
      if !nodes[id].file.Regular? {
        return Err(RegularError(nodes[id].file));
      }
      if !hinted {
        return Err(FromCache);
      }
      StoreExact(store.handles, Handle(Some(id), mode, 0));
      var fd := store.Store(id, mode, 0);
      return Ok(fd);
    }

    /**
     * What `flush` and `release` make of an entry: neither asks whether there is a node before it
     * follows the pointer.
     */
    function Followed(h: Option<Handle>): Access
      reads this
    {
      if h.None? then Refused
      else if h.value.node.None? || h.value.node.value !in nodes then Undefined
      else if nodes[h.value.node.value].file.Regular? then Reached(h.value)
      else Refused
    }

    /** `release`. With live handles it goes wrong exactly for a free entry within the capacity. */
    method ReleaseFile(fd: nat) returns (r: Access)
      requires Valid()
      modifies store
      ensures fd < |old(store.handles)| ==> Now() == Apply(old(Now()), ReleaseEntry(fd))
      ensures fd >= |old(store.handles)| ==> Now() == old(Now()) && r == Refused
      ensures fd < |old(store.handles)| && old(store.handles[fd].node.Some?) ==>
                CountOpen(store.handles) + 1 == CountOpen(old(store.handles))
      ensures old(AllLive()) ==> AllLive()
      ensures r.Undefined? <==>
                fd < |old(store.handles)| && (var n := old(store.handles)[fd].node; n.None? || n.value !in nodes)
      ensures old(AllLive()) ==> (r.Undefined? <==> fd < |old(store.handles)| && old(store.handles[fd].node.None?))
      ensures old(AllLive()) ==> (r.Reached? <==> fd < |old(store.handles)| && old(store.handles[fd].node.Some?))
    {
      if fd < |store.handles| { CountUpdate(store.handles, fd, FREE); }
      var h := store.Release(fd);
      return Followed(h);
    }

    /** `flush`, which finds the entry by the same unchecked `find`. */
    method FlushFile(fd: nat) returns (r: Access)
      requires Valid()
      ensures AllLive() ==> (r.Undefined? <==> fd < |store.handles| && store.handles[fd].node.None?)
      ensures AllLive() ==> (r == Refused <==> fd >= |store.handles|)
      ensures AllLive() && fd < |store.handles| && store.handles[fd].node.Some? ==> r == Reached(store.handles[fd])
    {
      var h := store.Find(fd);
      return Followed(h);
    }

    /**
     * The first loop over a listing: names the directory does not know are added, and what has become
     * something else is replaced. What is below the unlisted children is left alone, handles included.
     */
    method Refresh(d: Id, listing: seq<(string, FileType)>, dev: Device) returns (ghost cs: seq<Change>)
      requires Valid() && IsDir(nodes, d) && Listing(listing)
      modifies this, store
      ensures Valid() && IsDir(nodes, d) && route[d] == old(route[d]) && Reaches(old(Now()), cs, Now())
      ensures Refreshed(old(nodes), nodes, d, dev, listing)
      ensures old(AllLive()) ==> AllLive()
      ensures var rest := old(Children(nodes, d).Keys) - NameSet(listing);
              && Holding(d, rest) == old(Unlisted(d, listing))
              && (Open(store.handles, Holding(d, rest)) <==> old(Open(store.handles, Unlisted(d, listing))))
    {
      cs := [];
      ghost var rest := Children(nodes, d).Keys - NameSet(listing);
      var i: nat := 0;
      while i < |listing|
        invariant i <= |listing| && Valid() && IsDir(nodes, d) && route[d] == old(route[d])
        invariant Reaches(old(Now()), cs, Now())
        invariant Refreshed(old(nodes), nodes, d, dev, listing[..i])
        invariant old(AllLive()) ==> AllLive()
        invariant Holding(d, rest) == old(Holding(d, rest))
        invariant Open(store.handles, Holding(d, rest)) <==> old(Open(store.handles, Holding(d, rest)))
      {
        ghost var before := Now();
        assert listing[i] in listing && listing[i].0 in NameSet(listing);
        ghost var more := RefreshOne(d, listing[i].0, listing[i].1, dev, rest);
        RefreshedNext(old(nodes), before.nodes, nodes, d, dev, listing, i);
        ReachesMore(old(Now()), cs, before, more, Now());
        cs := cs + more;
        i := i + 1;
      }
      assert listing[..i] == listing;
    }

    method RefreshOne(d: Id, name: string, mode: FileType, dev: Device, ghost rest: set<string>)
      returns (ghost cs: seq<Change>)
      requires Valid() && IsDir(nodes, d) && Plain(name) && name !in rest
      modifies this, store
      ensures Valid() && IsDir(nodes, d) && route[d] == old(route[d]) && Reaches(old(Now()), cs, Now())
      ensures OneRefreshed(old(nodes), nodes, d, dev, name, mode)
      ensures old(AllLive()) ==> AllLive()
      ensures Holding(d, rest) == old(Holding(d, rest))
      ensures Open(store.handles, Holding(d, rest)) <==> old(Open(store.handles, Holding(d, rest)))
    {
      cs := [];
      if name !in Children(nodes, d) {
        AddSiblings(nodes, route, d, dev, name, next, mode);
        UnderAdded(nodes, route, d, name, next, mode, rest);
        ghost var c := AddNode(d, name, next, mode, FileOf(mode));
        ReachesOneIf(Now(), c);
        var id := Add(d, name, mode, FileOf(mode));
        return [c];
      }
      var child := Children(nodes, d)[name];
      ChildOf(nodes, route, d, name);
      if nodes[child].file.Error? || (dev.expired(child) && dev.modified(child)) {
        MutateSiblings(nodes, route, d, dev, name, mode);
        UnderMutated(nodes, route, d, name, mode, FileOf(mode), rest);
        MutatedOpen(nodes, route, store.handles, child, Holding(d, rest));
        ghost var c := ReplaceNode(child, mode, FileOf(mode));
        ReachesOneIf(Now(), c);
        Mutate(child, mode, FileOf(mode));
        return [c];
      }
    }

    /**
     * The second loop: children the listing does not have are destroyed. The handles to what goes with
     * them stay, so what is open stays live exactly when none of it is open.
     */
    method Prune(d: Id, names: set<string>) returns (ghost cs: seq<Change>)
      requires Valid() && IsDir(nodes, d)
      modifies this
      ensures Valid() && IsDir(nodes, d) && route[d] == old(route[d]) && Reaches(old(Now()), cs, Now())
      ensures Pruned(old(nodes), nodes, d, old(Children(nodes, d).Keys) - names)
      ensures nodes.Keys == old(nodes.Keys) - old(Holding(d, Children(nodes, d).Keys - names))
      ensures old(AllLive()) ==> (AllLive() <==> !old(Open(store.handles, Holding(d, Children(nodes, d).Keys - names))))
    {
      ghost var was, hs, gone := nodes, store.handles, Holding(d, Children(nodes, d).Keys - names);
      cs := PruneLoop(d, names);
      if Live(was, hs) {
        RemoveLive(was, hs, nodes, gone, {});
        assert Erased(hs, {}) == hs;
      }
    }

    method PruneLoop(d: Id, names: set<string>) returns (ghost cs: seq<Change>)
      requires Valid() && IsDir(nodes, d)
      modifies this
      ensures Valid() && IsDir(nodes, d) && route[d] == old(route[d]) && Reaches(old(Now()), cs, Now())
      ensures Pruned(old(nodes), nodes, d, old(Children(nodes, d).Keys) - names)
      ensures nodes.Keys == old(nodes.Keys) - old(Holding(d, Children(nodes, d).Keys - names))
      ensures SameKinds(old(nodes), nodes)
    {
      var doomed := Children(nodes, d).Keys - names;
      ghost var done: set<string> := {};
      cs := [];
      PruneStart(nodes, route, d);
      while doomed != {}
        invariant doomed !! done && doomed + done == old(Children(nodes, d).Keys) - names
        invariant Pruning(old(nodes), old(route), nodes, route, d, done)
        invariant Valid() && Reaches(old(Now()), cs, Now())
        decreases doomed
      {
        var name :| name in doomed;
        PruneNext(old(nodes), old(route), nodes, route, d, done, name);
        ghost var before, c := Now(), PruneName(d, name);
        ReachesOneIf(before, c);
        PruneOne(d, name);
        ReachesMore(old(Now()), cs, before, [c], Now());
        cs := cs + [c];
        doomed := doomed - {name};
        done := done + {name};
      }
    }

    method PruneOne(d: Id, name: string)
      requires Valid() && IsDir(nodes, d) && name in Children(nodes, d)
      modifies this
      ensures Valid() && Now() == Apply(old(Now()), PruneName(d, name))
    {
      PruneSiblings(nodes, route, d, name);
      var gone := Subtree(d, name);
      nodes := Drop(nodes, gone);
      route := Restrict(route, gone);
    }

    /** The two loops over a listing. */
    method RefreshAndPrune(d: Id, listing: seq<(string, FileType)>, dev: Device) returns (ghost cs: seq<Change>)
      requires Valid() && IsDir(nodes, d) && Listing(listing)
      modifies this, store
      ensures Valid() && IsDir(nodes, d) && Reaches(old(Now()), cs, Now())
      ensures AsListed(old(nodes), nodes, d, dev, listing)
      ensures old(AllLive()) ==> (AllLive() <==> !old(Open(store.handles, Unlisted(d, listing))))
    {
      var had := Children(nodes, d) != map[];
      cs := Refresh(d, listing, dev);
      ghost var refreshed, more := Now(), [];
      if had {
        more := Prune(d, NameSet(listing));
      }
      ReachesMore(old(Now()), cs, refreshed, more, Now());
      PrunedListed(old(nodes), refreshed.nodes, nodes, d, dev, listing);
      cs := cs + more;
    }

    /** The reconciliation of an unsynced directory with the device's listing. */
    method Reconcile(d: Id, listing: seq<(string, FileType)>, dev: Device) returns (ghost cs: seq<Change>)
      requires Valid() && IsDir(nodes, d) && Listing(listing)
      modifies this, store
      ensures Valid() && IsDir(nodes, d) && nodes[d].file.synced && Reaches(old(Now()), cs, Now())
      ensures AsListed(old(nodes), nodes, d, dev, listing)
      ensures old(AllLive()) ==> (AllLive() <==> !old(Open(store.handles, Unlisted(d, listing))))
    {
      cs := RefreshAndPrune(d, listing, dev);
      ghost var pruned := Now();
      SyncListed(old(nodes), nodes, route, d, dev, listing);
      MarkSynced(d);
      ReachesOne(pruned, SyncDirectory(d));
      ReachesMore(old(Now()), cs, pruned, [SyncDirectory(d)], Now());
      cs := cs + [SyncDirectory(d)];
    }

    method MarkSynced(d: Id)
      requires Valid() && IsDir(nodes, d)
      modifies this`nodes
      ensures Valid() && Now() == Apply(old(Now()), SyncDirectory(d))
      ensures AllLive() <==> old(AllLive())
    {
      SyncRouted(nodes, route, d, true);
      nodes := nodes[d := nodes[d].(file := nodes[d].file.(synced := true))];
    }

    /**
     * `readdir` of a directory: one that is not synced is reconciled first. What it reports are the
     * names of all but Error nodes.
     */
    method ReadDir(d: Id, listing: seq<(string, FileType)>, dev: Device)
      returns (names: set<string>, ghost cs: seq<Change>)
      requires Valid() && IsDir(nodes, d) && Listing(listing)
      modifies this, store
      ensures Valid() && IsDir(nodes, d) && nodes[d].file.synced && Reaches(old(Now()), cs, Now())
      ensures names == set n | n in Children(nodes, d) && !ErrorAt(nodes, d, n)
      ensures old(nodes[d].file.synced) ==> Now() == old(Now())
      ensures !old(nodes[d].file.synced) ==> names == NameSet(listing) == Children(nodes, d).Keys
      ensures !old(nodes[d].file.synced) ==> AsListed(old(nodes), nodes, d, dev, listing)
      ensures old(AllLive()) ==>
                (AllLive() <==> old(nodes[d].file.synced) || !old(Open(store.handles, Unlisted(d, listing))))
    {
      cs := [];
      if !nodes[d].file.synced {
        cs := Reconcile(d, listing, dev);
        ExpectedKind(old(nodes), nodes, d, dev, listing);
      }
      names := set n | n in Children(nodes, d) && !ErrorAt(nodes, d, n);
    }

    /** A directory that has changed on the device is reported as it is listed, the next time it is read. */
    method Reread(id: Id, listing: seq<(string, FileType)>, dev: Device)
      returns (names: set<string>, ghost cs: seq<Change>)
      requires Valid() && IsDir(nodes, id) && id != ROOT && nodes[id].mode.DirectoryType? && Listing(listing)
      modifies this, store
      ensures Valid() && IsDir(nodes, id) && nodes[id].file.synced
      ensures names == NameSet(listing) == Children(nodes, id).Keys
      ensures AsListed(old(nodes)[id := old(nodes[id]).(file := old(nodes[id].file).(synced := false))], nodes, id, dev,
                  listing)
    {
      var updated := Update(id, Is(DirectoryType), true);
      names, cs := ReadDir(id, listing, dev);
    }

    /**
     * A directory that is one still is only marked to be read again; a node that is not one, though
     * its stat says so, stays as it is.
     */
    method Rescan(id: Id)
      requires Valid() && id in nodes
      modifies this
      ensures Valid() && next == old(next) && route == old(route)
      ensures nodes == Rescanned(old(nodes), id)
      ensures old(AllLive()) ==> AllLive()
    {
      if nodes[id].file.Directory? {
        SyncRouted(nodes, route, id, false);
        nodes := nodes[id := nodes[id].(file := nodes[id].file.(synced := false))];
      }
    }
  }

  lemma {:induction false} ReachesOneIf(s: State, c: Change)
    ensures Enabled(s, c) ==> Reaches(s, [c], Apply(s, c))
  {
    if Enabled(s, c) { ReachesOne(s, c); }
  }

  // What goes wrong, on a fresh filesystem.

  /** A directory is made, vanishes from the device and comes back: its node stays an Error node. */
  method DirectoryComesBack(modified: bool) returns (fs: Filesystem, id: Id)
    ensures fs.Valid() && id in fs.nodes && fs.nodes[id].mode.DirectoryType? && fs.nodes[id].file.Error?
  {
    fs := new Filesystem();
    assert Plain("d");
    var made;
    ghost var cs;
    made, cs := fs.Create(ROOT, "d", Directory(map[], false), true, Is(DirectoryType));
    id := made.value;
    assert fs.nodes[id].mode.DirectoryType?;
    assert Hangs(fs.nodes, fs.route, ROOT);
    var gone := fs.Update(id, Failed(true), false);
    var back := fs.Update(id, Is(DirectoryType), modified);
  }

  /** A file is made and opened, and is not listed any more when its directory is read. */
  method OpenFileNotListed(dev: Device) returns (fs: Filesystem)
    ensures fs.Valid() && !fs.AllLive()
  {
    fs := new Filesystem();
    assert Plain("f");
    assert fs.Now() == INITIAL;
    var made;
    ghost var cs;
    made, cs := fs.Create(ROOT, "f", Regular, true, Is(RegularType));
    DropNone(INITIAL.nodes);
    var fd := fs.OpenFile(made.value, ReadMode, true);
    OpenFirst(made.value, ReadMode);
    ghost var id := made.value;
    assert Children(fs.nodes, ROOT)["f"] == id;
    assert id in IdsAt(fs.nodes, ROOT, Children(fs.nodes, ROOT).Keys - NameSet([]));
    assert Below(fs.route, id, id);
    assert id in fs.Unlisted(ROOT, []);
    assert fs.store.handles[0].node == Some(id);
    assert Open(fs.store.handles, fs.Unlisted(ROOT, []));
    var names, more := fs.ReadDir(ROOT, [], dev);
  }

  /** A file is opened and unlinked, and its descriptor is closed afterwards, which flushes it first. */
  method UnlinkWhileOpen() returns (fs: Filesystem, r: Access)
    ensures fs.Valid() && fs.AllLive() && r == Undefined
  {
    fs := new Filesystem();
    assert Plain("f");
    assert fs.Now() == INITIAL;
    var made;
    ghost var cs;
    made, cs := fs.Create(ROOT, "f", Regular, true, Is(RegularType));
    DropNone(INITIAL.nodes);
    var fd := fs.OpenFile(made.value, ReadMode, true);
    OpenFirst(made.value, ReadMode);
    assert fd == Ok(0) && fs.store.handles[0].node == Some(made.value);
    var gone := fs.Unlink(ROOT, "f", true);
    r := fs.FlushFile(fd.value);
  }
}
