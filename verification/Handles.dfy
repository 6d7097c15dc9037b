/** The table of open files (madbfs/src/file_handle_store.cpp). An entry without a node is free. */
module Handles {
  import opened Bytes
  import opened Tree

  datatype OpenMode = ReadMode | WriteMode | ReadWriteMode

  datatype Handle = Handle(node: Option<Id>, mode: OpenMode, fd: nat)

  const FREE := Handle(None, ReadMode, 0)

  function Frees(n: nat): (r: seq<Handle>)
    ensures |r| == n && forall i | 0 <= i < n :: r[i] == FREE
  {
    seq(n, _ => FREE)
  }

  /** The first free entry, or the capacity. */
  function FirstFree(hs: seq<Handle>): (i: nat)
    ensures i <= |hs|
    ensures i < |hs| ==> hs[i].node.None?
    ensures forall j | 0 <= j < i :: hs[j].node.Some?
  {
    if hs == [] then 0 else if hs[0].node.None? then 0 else 1 + FirstFree(hs[1..])
  }

  /** The table once it has room: an empty one gets 1024 entries, a full one doubles. */
  function Grown(hs: seq<Handle>): seq<Handle> {
    if FirstFree(hs) < |hs| then hs else hs + Frees(if hs == [] then 1024 else |hs|)
  }

  function Stored(hs: seq<Handle>, h: Handle): seq<Handle> { Grown(hs)[FirstFree(hs) := h] }

  function Erased(hs: seq<Handle>, ids: set<Id>): (r: seq<Handle>)
    ensures |r| == |hs|
    ensures forall i | 0 <= i < |hs| :: r[i] == if hs[i].node.Some? && hs[i].node.value in ids
              then hs[i].(node := None) else hs[i]
  {
    seq(|hs|, i requires 0 <= i < |hs| => if hs[i].node.Some? && hs[i].node.value in ids then hs[i].(node := None)
        else hs[i])
  }

  function CountOpen(hs: seq<Handle>): (n: nat)
    ensures n <= |hs|
  {
    if hs == [] then 0 else CountOpen(hs[..|hs| - 1]) + if hs[|hs| - 1].node.Some? then 1 else 0
  }

  lemma {:induction false} CountAppend(a: seq<Handle>, b: seq<Handle>)
    ensures CountOpen(a + b) == CountOpen(a) + CountOpen(b)
  {
    if b == [] {
      assert a + b == a;
    } else {
      assert (a + b)[..|a + b| - 1] == a + b[..|b| - 1];
      CountAppend(a, b[..|b| - 1]);
    }
  }

  lemma {:induction false} CountFrees(n: nat)
    ensures CountOpen(Frees(n)) == 0
  {
    if n > 0 {
      assert Frees(n)[..n - 1] == Frees(n - 1);
      CountFrees(n - 1);
    }
  }

  lemma {:induction false} CountUpdate(hs: seq<Handle>, i: nat, h: Handle)
    requires i < |hs|
    ensures CountOpen(hs[i := h])
              == CountOpen(hs) + (if h.node.Some? then 1 else 0) - (if hs[i].node.Some? then 1 else 0)
  {
    assert hs == hs[..i] + [hs[i]] + hs[i + 1..];
    assert hs[i := h] == hs[..i] + [h] + hs[i + 1..];
    CountAppend(hs[..i] + [hs[i]], hs[i + 1..]);
    CountAppend(hs[..i] + [h], hs[i + 1..]);
    CountAppend(hs[..i], [hs[i]]);
    CountAppend(hs[..i], [h]);
    CountOne(h);
    CountOne(hs[i]);
  }

  lemma {:induction false} CountOne(h: Handle)
    ensures CountOpen([h]) == if h.node.Some? then 1 else 0
  {
    assert [h][..0] == [];
    assert CountOpen([h][..0]) == 0;
  }

  /** Storing opens exactly one entry, which was free and is the first such, and disturbs no other. */
  lemma {:induction false} StoreExact(hs: seq<Handle>, h: Handle)
    requires h.node.Some?
    ensures var i, r := FirstFree(hs), Stored(hs, h);
            && |hs| <= |r| && i < |r| && r[i] == h
            && (i < |hs| ==> hs[i].node.None?) && (forall j | 0 <= j < i && j < |hs| :: hs[j].node.Some?)
            && |r| == (if exists j :: 0 <= j < |hs| && hs[j].node.None? then |hs| else if hs == [] then 1024
                 else 2 * |hs|)
            && (forall j | 0 <= j < |hs| && j != i :: r[j] == hs[j])
            && (forall j | |hs| <= j < |r| && j != i :: r[j] == FREE)
            && CountOpen(r) == CountOpen(hs) + 1
  {
    var g := Grown(hs);
    if g != hs {
      CountAppend(hs, Frees(if hs == [] then 1024 else |hs|));
      CountFrees(if hs == [] then 1024 else |hs|);
    }
    CountUpdate(g, FirstFree(hs), h);
  }

  /** What is promised of `find` and `release`: the handle if there is one, and nothing otherwise. */
  function FindPromised(hs: seq<Handle>, fd: nat): Option<Handle> {
    if fd < |hs| && hs[fd].node.Some? then Some(hs[fd]) else None
  }

  class FileHandleStore {
    var handles: seq<Handle>

    constructor ()
      ensures handles == []
    {
      handles := [];
    }

    /**
     * An entry is given back for any number within the capacity, free or not, so the promise to give
     * back a handle if there is one and nothing otherwise is kept exactly for the others.
     */
    method Find(fd: nat) returns (r: Option<Handle>)
      ensures r == FindPromised(handles, fd) <==> fd >= |handles| || handles[fd].node.Some?
      ensures fd < |handles| && handles[fd].node.None? ==> r == Some(handles[fd])
    {
      return if fd < |handles| then Some(handles[fd]) else None;
    }

    /** For reading or writing: the entry must be in use, and opened for it. */
    method FindFor(fd: nat, mode: OpenMode) returns (r: Option<Handle>)
      ensures r.Some? <==>
                fd < |handles| && handles[fd].node.Some?
                    && (handles[fd].mode == mode || handles[fd].mode == ReadWriteMode)
      ensures r.Some? ==> r.value == handles[fd]
    {
      if fd >= |handles| {
        return None;
      }
      var handle := handles[fd];
      var ok := handle.mode == mode || handle.mode == ReadWriteMode;
      return if handle.node.Some? && ok then Some(handle) else None;
    }

    method Store(node: Id, mode: OpenMode, fd: nat) returns (r: nat)
      modifies this
      ensures r == FirstFree(old(handles)) && handles == Stored(old(handles), Handle(Some(node), mode, fd))
    {
      var found := FirstFree(handles);
      if found < |handles| {
        handles := handles[found := Handle(Some(node), mode, fd)];
        return found;
      }
      var size := |handles|;
      if handles == [] {
        handles := handles + Frees(1024);
      } else {
        handles := handles + Frees(size);
      }
      handles := handles[size := Handle(Some(node), mode, fd)];
      return size;
    }

    method Release(fd: nat) returns (r: Option<Handle>)
      modifies this
      ensures r == if fd < |old(handles)| then Some(old(handles)[fd]) else None
      ensures r == FindPromised(old(handles), fd) <==> fd >= |old(handles)| || old(handles)[fd].node.Some?
      ensures handles == if fd < |old(handles)| then old(handles)[fd := FREE] else old(handles)
    {
      if fd >= |handles| {
        return None;
      }
      r := Some(handles[fd]);
      handles := handles[fd := FREE];
    }

    /** Frees every entry of a node, and says how many they were. */
    method Erase(node: Id) returns (count: nat)
      modifies this
      ensures handles == Erased(old(handles), {node})
      ensures count + CountOpen(handles) == CountOpen(old(handles))
    {
      count := 0;
      var i: nat := 0;
      while i < |handles|
        invariant i <= |handles| == |old(handles)|
        invariant forall j | 0 <= j < i :: handles[j] == Erased(old(handles), {node})[j]
        invariant forall j | i <= j < |handles| :: handles[j] == old(handles)[j]
        invariant count + CountOpen(handles) == CountOpen(old(handles))
      {
        if handles[i].node == Some(node) {
          CountUpdate(handles, i, handles[i].(node := None));
          handles := handles[i := handles[i].(node := None)];
          count := count + 1;
        }
        i := i + 1;
      }
    }

    method CountEntries() returns (open: nat, empty: nat)
      ensures open == CountOpen(handles) && open + empty == |handles|
      ensures open == 0 <==> forall j | 0 <= j < |handles| :: handles[j].node.None?
    {
      open := 0;
      var i: nat := 0;
      while i < |handles|
        invariant i <= |handles| && open == CountOpen(handles[..i])
        invariant open == 0 <==> forall j | 0 <= j < i :: handles[j].node.None?
      {
        assert handles[..i + 1][..i] == handles[..i];
        if handles[i].node.Some? {
          open := open + 1;
        }
        i := i + 1;
      }
      assert handles[..i] == handles;
      empty := |handles| - open;
    }
  }

  /** A handle that was stored and released is found again, though nothing is promised to be there. */
  method FindReleased(node: Id, mode: OpenMode) returns (store: FileHandleStore, fd: nat, r: Option<Handle>)
    ensures r == Some(FREE) && FindPromised(store.handles, fd) == None
  {
    store := new FileHandleStore();
    fd := store.Store(node, mode, 0);
    var released := store.Release(fd);
    r := store.Find(fd);
  }
}
