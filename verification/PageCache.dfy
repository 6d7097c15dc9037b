/**
 * The cache as an object (`Cache` in madbfs/include/madbfs/cache.hpp), one operation at a time. Its
 * methods are the operations of `CacheOps` applied to its fields; what they promise is said of the
 * flat file `File(id)` each id stands for.
 */
module PageCache {
  import opened Bytes
  import opened Tiling
  import opened PageModel
  import opened Recency
  import opened CacheModel
  import opened Transfer
  import opened CacheSteps
  import CacheOps

  /** The view an operation begins with: it has lost nothing so far. */
  ghost function Fresh(v: View): View { v.(damaged := {}) }

  /** Calls that were refused are counted, a reliable device refuses none, and only a refused call loses bytes. */
  ghost predicate Steady(s: State, v: View, s': State, v': View) {
    && s'.reliable == s.reliable && v.faults <= v'.faults && (s.reliable ==> v'.faults == v.faults)
    && (v'.faults == v.faults ==> v'.damaged == {})
  }

  class Cache {
    var state: State
    ghost var view: View

    ghost predicate Valid()
      reads this
    {
      CacheSteps.Valid(state, view)
    }

    /** The flat file an id stands for: what the device will hold once every page has been pushed. */
    ghost function File(id: Id): seq<byte>
      reads this
    {
      Content(view.logical, id)
    }

    /** What a reader finds for byte j of the file, or -1. */
    ghost function SeenAt(id: Id, j: nat): int
      requires Valid()
      reads this
    {
      SeenIn(state, id, j)
    }

    /** A reader sees all of the file. */
    ghost predicate Whole(id: Id)
      reads this
    {
      CacheSteps.Whole(state, view, id)
    }

    /** The last operation has lost bytes of this file: the device refused to take a page it evicted. */
    ghost predicate Lost(id: Id)
      reads this
    {
      id in view.damaged
    }

    /** A write of n bytes hides and zeroes nothing, judged before it begins. */
    ghost predicate Safe(id: Id, offset: nat, n: nat)
      requires Valid() && n > 0
      reads this
    {
      FirstBeforeLast(state.pageSize, offset, n);
      WriteSafe(state.pageSize, state.maxPages, Recents(state, view), File(id), id, FirstPage(state.pageSize, offset),
          LastPage(state.pageSize, offset, n), offset, n)
    }

    /** The file once a write at offset has zeroed what the cache does not have of its first page before it. */
    ghost function Zeroed(id: Id, offset: nat): seq<byte>
      requires Valid()
      reads this
    {
      var first := FirstPage(state.pageSize, offset);
      CacheOps.FirstBase(state, view, id, first, InPage(state.pageSize, first, offset))
    }

    /** The history once every page of a request has been accessed, in order. */
    ghost function Visited(id: Id, offset: nat, n: nat): seq<Event>
      requires Valid() && n > 0
      reads this
    {
      Uses(view.history, id, FirstPage(state.pageSize, offset), PageCount(state.pageSize, offset, n))
    }

    constructor (pageSize: nat, maxPages: nat, device: Files, reliable: bool)
      requires 0 < pageSize <= 0xFFFF_FFFF && maxPages > 0
      ensures Valid() && state.pageSize == pageSize && state.maxPages == maxPages && state.device == device
      ensures state.reliable == reliable
      ensures forall id :: !Lost(id) && File(id) == Content(device, id) && Whole(id)
    {
      state := State(pageSize, maxPages, [], map[], {}, {}, map[], map[], device, reliable);
      view := View(device, {}, [], 0);
      EmptyRefined(pageSize, device);
      new;
      forall id ensures Whole(id) { Uncached(pageSize, Content(device, id)); }
    }

    /** `new_lookup`: a file gets an entry when it is first opened. */
    method Open(id: Id)
      requires Valid()
      modifies this
      ensures Valid() && state == old(state).(entries := old(state).entries + {id})
      ensures forall i :: File(i) == old(File(i)) && Whole(i) == old(Whole(i)) && !Lost(i)
      ensures view.history == old(view).history
    {
      ghost var was := view.logical;
      view := view.(logical := was[id := Content(was, id)], damaged := {});
      state := state.(entries := state.entries + {id});
      SameFiles(state.pageSize, state.table, state.device, state.device, was, view.logical);
    }

    /**
     * A read yields what was seen. If that was the whole file, it yields exactly the file's bytes, if it
     * starts inside the file, at its end, or on a page boundary past it.
     */
    method Read(id: Id, out: array<byte>, offset: nat) returns (r: Result<nat, Errc>)
      requires Valid() && out.Length > 0
      modifies this, out
      ensures Valid() && Frame(old(state), state) && Steady(old(state), old(view), state, view)
      ensures forall i | !Lost(i) :: File(i) == old(File(i)) && (old(Whole(i)) ==> Whole(i))
      ensures id !in state.entries ==> r == Err(BadFileDescriptor)
      ensures id in state.entries && view.faults == old(view).faults ==> r.Ok?
      ensures r.Ok? && !Lost(id) ==>
                forall j | offset <= j < offset + out.Length && old(SeenAt(id, j)) >= 0 ::
                  out[j - offset] == old(SeenAt(id, j)) == At(File(id), j)
      ensures r.Ok? && !Lost(id) && old(Whole(id)) ==>
                var wanted := Window(File(id), offset, out.Length);
                if offset <= |File(id)| || offset % state.pageSize == 0
                then r.value == |wanted| && out[..] == wanted + old(out[..])[|wanted|..]
                else r.value > |wanted|
      ensures r.Ok? ==> view.history == old(Visited(id, offset, out.Length))
      ensures if id in state.entries then
                SomeUses(old(view).history, view.history, id, FirstPage(state.pageSize, offset),
                    PageCount(state.pageSize, offset, out.Length))
              else view.history == old(view).history
    {
      ghost var s0, v0 := state, Fresh(view);
      var s, v, buffer, n := CacheOps.Read(state, Fresh(view), id, out[..], offset);
      AllWholeKept(s0, v0, s, v, {});
      state, view := s, v;
      forall j | 0 <= j < out.Length { out[j] := buffer[j]; }
      assert out[..] == buffer;
      return n;
    }

    /**
     * A write puts its bytes into the file, and they are seen, whatever else happens. It is the flat
     * file's plain write if and only if it is safe.
     */
    method Write(id: Id, input: seq<byte>, offset: nat) returns (r: Result<nat, Errc>)
      requires Valid() && input != []
      modifies this
      ensures Valid() && Steady(old(state), old(view), state, view)
      ensures forall i | i != id && !Lost(i) :: File(i) == old(File(i)) && (old(Whole(i)) ==> Whole(i))
      ensures if id in old(state).entries then r == Ok(|input|) else r == Err(BadFileDescriptor) && state == old(state)
      ensures r.Err? ==> File(id) == old(File(id))
      ensures r.Ok? && !Lost(id) ==> File(id) == Splice(old(Zeroed(id, offset)), offset, input)
      ensures r.Ok? && !Lost(id) ==> forall j | offset <= j < offset + |input| :: SeenAt(id, j) == input[j - offset]
      ensures r.Ok? && !Lost(id) && old(Whole(id)) ==>
                var safe, after := old(Safe(id, offset, |input|)), Splice(old(File(id)), offset, input);
                && (Base(state.pageSize, FirstPage(state.pageSize, offset)) <= |old(File(id))| ==>
                      (FileOk(state.pageSize, PagesOf(state.table, id), Content(state.device, id), after) <==> safe))
                && (safe ==> File(id) == after)
      ensures view.history == if r.Ok? then old(Visited(id, offset, |input|)) else old(view).history
    {
      ghost var s0, v0 := state, Fresh(view);
      var s, v, n := CacheOps.Write(state, Fresh(view), id, input, offset);
      AllWholeKept(s0, v0, s, v, {id});
      state, view := s, v;
      return n;
    }

    /** A successful flush leaves the file on the device, seen or not, and all its pages clean. */
    method Flush(id: Id) returns (r: Result<(), Errc>)
      requires Valid()
      modifies this
      ensures Valid() && Steady(old(state), old(view), state, view)
      ensures forall i :: File(i) == old(File(i)) && (old(Whole(i)) ==> Whole(i)) && !Lost(i)
      ensures view.history == old(view).history && state.lru == old(state).lru
      ensures r.Ok? <==> view.faults == old(view).faults
      ensures r.Ok? ==> forall i: nat :: Saved(PagesOf(state.table, id), i)
      ensures r.Ok? ==> Content(state.device, id) == File(id)
    {
      ghost var s0, v0 := state, Fresh(view);
      var s, v, n := CacheOps.Flush(state, Fresh(view), id);
      AllWholeKept(s0, v0, s, v, {});
      state, view := s, v;
      return n;
    }

    /** `shutdown`, and so `invalidate_all`: nothing is cached, and what could be flushed is on the device. */
    method Shutdown() returns (failed: set<Id>)
      requires Valid()
      modifies this
      ensures Valid() && state.lru == [] && state.entries == {}
      ensures view.history == old(view).history + [Clear]
      ensures state.pageSize == old(state).pageSize && state.maxPages == old(state).maxPages
      ensures forall id :: File(id) == Content(state.device, id) && Whole(id) && !Lost(id)
      ensures forall id | id !in failed :: Content(state.device, id) == old(File(id))
      ensures failed <= old(state).entries && view.faults == old(view).faults + |failed|
      ensures Steady(old(state), old(view), state, view)
    {
      var s, v, f := CacheOps.Shutdown(state, Fresh(view));
      state, view := s, v;
      forall id ensures Whole(id) { Uncached(state.pageSize, Content(state.device, id)); }
      return f;
    }

    /** `set_page_size` and `set_max_pages`: a shutdown, so files keep their contents across the change. */
    method Resize(pageSize: nat, maxPages: nat) returns (failed: set<Id>)
      requires Valid() && 0 < pageSize <= 0xFFFF_FFFF && maxPages > 0
      modifies this
      ensures Valid() && state.pageSize == pageSize && state.maxPages == maxPages && state.lru == []
      ensures view.history == old(view).history + [Clear]
      ensures forall id | id !in failed :: File(id) == Content(state.device, id) == old(File(id)) && Whole(id)
      ensures failed <= old(state).entries && view.faults == old(view).faults + |failed|
      ensures Steady(old(state), old(view), state, view)
    {
      ghost var was := view.history;
      failed := Shutdown();
      state := state.(pageSize := pageSize, maxPages := maxPages, table := map[], dirty := {});
      view := view.(logical := state.device);
      ListedClear(was, maxPages);
      EmptyRefined(pageSize, state.device);
      forall id ensures Whole(id) { Uncached(pageSize, Content(state.device, id)); }
    }

    /** `invalidate_one`: afterwards the file is what the device has, which is what it was if it was flushed. */
    method InvalidateOne(id: Id, shouldFlush: bool) returns (r: Result<(), Errc>)
      requires Valid()
      modifies this
      ensures Valid() && forall i | i != id :: File(i) == old(File(i)) && (old(Whole(i)) ==> Whole(i)) && !Lost(i)
      ensures id !in state.entries && !Lost(id) && File(id) == Content(state.device, id) && Whole(id)
      ensures view.history == old(view).history + [Forget(id)] && state.lru == Others(old(state).lru, id)
      ensures shouldFlush && r.Ok? ==> File(id) == old(File(id))
      ensures !shouldFlush ==> r.Ok? && File(id) == old(Content(state.device, id))
      ensures r.Ok? <==> view.faults == old(view).faults
      ensures Steady(old(state), old(view), state, view)
    {
      ghost var s0, v0 := state, Fresh(view);
      var s, v, n := CacheOps.InvalidateOne(state, Fresh(view), id, shouldFlush);
      AllWholeKept(s0, v0, s, v, {id});
      state, view := s, v;
      Uncached(state.pageSize, Content(state.device, id));
      return n;
    }
  }

  lemma {:induction false} AllWholeKept(s: State, v: View, s': State, v': View, but: set<Id>)
    requires Quiet(s, v, s', v', but) && Sound(s', v') && s'.pageSize == s.pageSize
    ensures forall id | id !in v'.damaged && id !in but && CacheSteps.Whole(s, v, id) :: CacheSteps.Whole(s', v', id)
  {
    forall id | id !in v'.damaged && id !in but && CacheSteps.Whole(s, v, id) ensures CacheSteps.Whole(s', v', id) {
      WholeKept(s, v, s', v', id, but);
    }
  }

  /**
   * The cache's list in every reachable state, whatever was read, written, flushed, invalidated or
   * evicted before: by strictly descending last use, each page used and not forgotten since.
   */
  lemma {:induction false} LruOrder(s: State, v: View, i: nat, j: nat)
    requires CacheSteps.Valid(s, v) && i < j < |s.lru|
    ensures LastUse(v.history, s.lru[i]) > LastUse(v.history, s.lru[j])
    ensures Alive(v.history, s.lru[i]) && Alive(v.history, s.lru[j])
  {
    ListedIs(s.lru, v.history, s.maxPages);
    RecentDescends(v.history, s.maxPages);
    assert Later(v.history, Recents(s, v), i, j);
    RecentAlive(v.history, s.maxPages, s.lru[i]);
    RecentAlive(v.history, s.maxPages, s.lru[j]);
  }

  /** What a reachable cache has used, not forgotten and yet not kept was last used before everything it keeps. */
  lemma {:induction false} EvictedAreOldest(s: State, v: View, kept: PageKey, gone: PageKey)
    requires CacheSteps.Valid(s, v) && kept in s.lru && Alive(v.history, gone) && gone !in s.lru
    ensures LastUse(v.history, gone) < LastUse(v.history, kept)
  {
    ListedIs(s.lru, v.history, s.maxPages);
    EvictedOldest(v.history, s.maxPages, kept, gone);
  }
}
