/**
 * Concurrent readers of the page cache (`read_at` in madbfs/src/cache.cpp) on files whose read
 * descriptor is open, with clean pages only: every point where the coroutine may suspend is a step
 * boundary. A reader that misses starts a fetch and leaves its future in `queue` under the page's
 * key; a reader that finds a future there waits for it. A fetch is named by its reader.
 */
module SingleFlight {
  import opened Recency

  type Reader = nat

  /** What a page holds; only that a fetch returns the device's data matters here. */
  type Data = nat

  datatype Outcome = Page(data: Data) | Failed

  datatype Phase =
    | Start(key: PageKey)
    | Waiting(key: PageKey, fetch: Reader)
    | Fetching(key: PageKey)
    | Done(key: PageKey, outcome: Outcome)

  datatype State = State(
    max: nat,
    device: map<PageKey, Data>,
    lru: seq<PageKey>,
    pages: map<PageKey, Data>,
    queue: map<PageKey, Reader>,
    promises: map<Reader, bool>,  // the promises that were set, and whether to success
    readers: map<Reader, Phase>)

  datatype Action =
    | Begin(reader: Reader)
    | Wake(reader: Reader)
    | FetchFails(reader: Reader)
    | FetchReturns(reader: Reader)
    | ClearQueue

  function DeviceData(s: State, k: PageKey): Data { if k in s.device then s.device[k] else 0 }

  /**
   * The part of `read_at` after any waiting: a hit, or the start of a fetch. A second future for a key
   * is not stored.
   */
  function Lookup(s: State, r: Reader, k: PageKey): State {
    if k in s.pages then
      s.(lru := Promote(s.lru, k), readers := s.readers[r := Done(k, Page(s.pages[k]))])
    else
      s.(queue := if k in s.queue then s.queue else s.queue[k := r], readers := s.readers[r := Fetching(k)])
  }

  /** A fetched page is linked at the front, and the surplus is evicted from the back. */
  function Store(s: State, k: PageKey): State {
    var lru := Take([k] + s.lru, s.max);
    var pages := s.pages[k := DeviceData(s, k)];
    s.(lru := lru, pages := map x | x in pages && x in lru :: pages[x])
  }

  predicate Enabled(s: State, a: Action) {
    match a
    case Begin(r) => r in s.readers && s.readers[r].Start?
    case Wake(r) => r in s.readers && s.readers[r].Waiting? && s.readers[r].fetch in s.promises
    case FetchFails(r) => r in s.readers && s.readers[r].Fetching?
    case FetchReturns(r) => r in s.readers && s.readers[r].Fetching?
    case ClearQueue => true
  }

  function Apply(s: State, a: Action): State
    requires Enabled(s, a)
  {
    match a
    case Begin(r) =>
      var k := s.readers[r].key;
      if k in s.queue then s.(readers := s.readers[r := Waiting(k, s.queue[k])]) else Lookup(s, r, k)
    case Wake(r) =>
      var k := s.readers[r].key;
      if s.promises[s.readers[r].fetch] then Lookup(s, r, k) else s.(readers := s.readers[r := Done(k, Failed)])
    case FetchFails(r) =>
      var k := s.readers[r].key;
      s.(promises := s.promises[r := false], queue := s.queue - {k}, readers := s.readers[r := Done(k, Failed)])
    case FetchReturns(r) =>
      var k := s.readers[r].key;
      if k !in s.queue then
        s.(promises := s.promises[r := false], readers := s.readers[r := Done(k, Failed)])
      else
        var s' := Store(s, k);
        s'.(promises := s.promises[r := true], queue := s.queue - {k},
            readers := s.readers[r := Done(k, Page(DeviceData(s, k)))])
    case ClearQueue => s.(queue := map[])
  }

  /** An empty cache and any number of readers that have not begun. */
  ghost predicate Init(s: State) {
    && s.max > 0 && s.lru == [] && s.pages == map[] && s.queue == map[] && s.promises == map[]
    && forall r | r in s.readers :: s.readers[r].Start?
  }

  /** The list holds each key at most once, and exactly the cached pages, with the device's data. */
  ghost predicate CacheOk(s: State) {
    && s.max > 0 && Distinct(s.lru) && |s.lru| <= s.max
    && (forall k :: k in s.lru <==> k in s.pages)
    && (forall k | k in s.pages :: s.pages[k] == DeviceData(s, k))
  }

  /** A queued key is not cached, and its future belongs to a fetch of that key that is still running. */
  ghost predicate QueueOk(s: State) {
    forall k | k in s.queue ::
      k !in s.pages && s.queue[k] in s.readers && s.readers[s.queue[k]] == Fetching(k)
  }

  ghost predicate ReaderOk(s: State, p: Phase) {
    match p
    case Waiting(k, f) => f in s.readers && (s.readers[f].Fetching? || f in s.promises)
    case Done(k, Page(d)) => d == DeviceData(s, k)
    case _ => true
  }

  /** Every waiter waits for a fetch that is running or has set its promise, and no promise is set early. */
  ghost predicate ReadersOk(s: State) {
    && (forall r | r in s.readers :: ReaderOk(s, s.readers[r]))
    && (forall r | r in s.promises ::
          r in s.readers && s.readers[r].Done? && (s.promises[r] <==> s.readers[r].outcome.Page?))
  }

  ghost predicate Inv(s: State) { CacheOk(s) && QueueOk(s) && ReadersOk(s) }

  lemma {:induction false} StoreKeeps(s: State, k: PageKey)
    requires CacheOk(s) && k !in s.pages
    ensures CacheOk(Store(s, k)) && k in Store(s, k).pages
    ensures forall x | x in Store(s, k).pages :: x == k || x in s.pages
  {
    var all := [k] + s.lru;
    WithoutAbsent(s.lru, k);
    PromoteDistinct(s.lru, k);
    var lru := Take(all, s.max);
    if |all| > s.max { DistinctPrefix(all, s.max); }
    assert lru[0] == k;
    forall x | x in lru ensures x == k || x in s.pages { }
  }

  lemma {:induction false} PromoteKeeps(s: State, k: PageKey)
    requires CacheOk(s) && k in s.pages
    ensures CacheOk(s.(lru := Promote(s.lru, k)))
  {
    PromoteDistinct(s.lru, k);
    var i :| 0 <= i < |s.lru| && s.lru[i] == k;
    WithoutAt(s.lru, i);
  }

  lemma {:induction false} LookupKeeps(s: State, r: Reader, k: PageKey)
    requires Inv(s) && r in s.readers && !s.readers[r].Done? && !s.readers[r].Fetching? && s.readers[r].key == k
    ensures Inv(Lookup(s, r, k))
  {
    if k in s.pages {
      PromoteKeeps(s, k);
    }
    ReadersKeep(s, Lookup(s, r, k), r);
  }

  /** A step that only moves reader r on, to a phase that is fine, leaves the other readers fine. */
  lemma {:induction false} ReadersKeep(s: State, s': State, r: Reader)
    requires ReadersOk(s) && r in s.readers && r in s'.readers && ReaderOk(s', s'.readers[r]) && s'.device == s.device
    requires s'.readers == s.readers[r := s'.readers[r]] && s.promises.Keys <= s'.promises.Keys <= s.promises.Keys + {r}
    requires s.readers[r].Fetching? ==> r in s'.promises
    requires forall q | q in s.promises && q != r :: s'.promises[q] == s.promises[q]
    requires r in s'.promises ==> s'.readers[r].Done? && (s'.promises[r] <==> s'.readers[r].outcome.Page?)
    ensures ReadersOk(s')
  {
    forall q | q in s'.readers ensures ReaderOk(s', s'.readers[q]) {
      if q != r { assert ReaderOk(s, s.readers[q]); }
    }
  }

  lemma {:induction false} WaitKeeps(s: State, r: Reader)
    requires Inv(s) && r in s.readers && (s.readers[r].Start? || s.readers[r].Waiting?)
    requires Enabled(s, if s.readers[r].Start? then Begin(r) else Wake(r))
    ensures Inv(Apply(s, if s.readers[r].Start? then Begin(r) else Wake(r)))
  {
    var k := s.readers[r].key;
    if s.readers[r].Start? && k in s.queue {
      ReadersKeep(s, s.(readers := s.readers[r := Waiting(k, s.queue[k])]), r);
    } else if s.readers[r].Waiting? && !s.promises[s.readers[r].fetch] {
      ReadersKeep(s, s.(readers := s.readers[r := Done(k, Failed)]), r);
    } else {
      LookupKeeps(s, r, k);
    }
  }

  lemma {:induction false} FetchKeeps(s: State, a: Action)
    requires Inv(s) && (a.FetchFails? || a.FetchReturns?) && Enabled(s, a)
    ensures Inv(Apply(s, a))
  {
    var r, k, s' := a.reader, s.readers[a.reader].key, Apply(s, a);
    if a.FetchReturns? && k in s.queue { StoreKeeps(s, k); }
    ReadersKeep(s, s', r);
    forall x | x in s'.queue ensures x !in s'.pages && s'.queue[x] in s'.readers
        && s'.readers[s'.queue[x]] == Fetching(x) {
      assert x in s.queue;
    }
  }

  lemma {:induction false} StepKeeps(s: State, a: Action)
    requires Inv(s) && Enabled(s, a)
    ensures Inv(Apply(s, a))
  {
    match a
    case Begin(r) => WaitKeeps(s, r);
    case Wake(r) => WaitKeeps(s, r);
    case FetchFails(_) => FetchKeeps(s, a);
    case FetchReturns(_) => FetchKeeps(s, a);
    case ClearQueue =>
      forall q | q in s.readers ensures ReaderOk(Apply(s, a), s.readers[q]) { assert ReaderOk(s, s.readers[q]); }
  }

  /** A run: the states the actions lead through, each enabled where it is taken. */
  ghost predicate IsRun(s: State, actions: seq<Action>, s': State)
    decreases |actions|
  {
    if actions == [] then s' == s
    else Enabled(s, actions[0]) && IsRun(Apply(s, actions[0]), actions[1..], s')
  }

  /**
   * Single flight, over every interleaving of any number of readers and queue clears: a queued key
   * is never cached, the list never holds a key twice, every waiter waits for a fetch that runs or
   * is resolved, and every successful read got the device's data.
   */
  lemma {:induction false} RunKeeps(s: State, actions: seq<Action>, s': State)
    requires Inv(s) && IsRun(s, actions, s')
    ensures Inv(s')
    decreases |actions|
  {
    if actions != [] {
      StepKeeps(s, actions[0]);
      RunKeeps(Apply(s, actions[0]), actions[1..], s');
    }
  }

  lemma {:induction false} InitInv(s: State)
    requires Init(s)
    ensures Inv(s)
  {
  }

  function Rank(p: Phase): nat {
    match p
    case Start(_) => 3
    case Waiting(_, _) => 2
    case Fetching(_) => 1
    case Done(_, _) => 0
  }

  /** The steps the readers still have to take, at most. */
  ghost function Work(readers: map<Reader, Phase>): nat
    decreases |readers|
  {
    if readers == map[] then 0
    else var r :| r in readers; Rank(readers[r]) + Work(readers - {r})
  }

  lemma {:induction false} WorkSplit(readers: map<Reader, Phase>, r: Reader)
    requires r in readers
    ensures Work(readers) == Rank(readers[r]) + Work(readers - {r})
    decreases |readers|
  {
    var q :| q in readers && Work(readers) == Rank(readers[q]) + Work(readers - {q});
    if q != r {
      WorkSplit(readers - {q}, r);
      WorkSplit(readers - {r}, q);
      assert readers - {q} - {r} == readers - {r} - {q};
    }
  }

  lemma {:induction false} StepLowers(s: State, a: Action)
    requires Enabled(s, a) && a != ClearQueue
    ensures a.reader in s.readers && a.reader in Apply(s, a).readers
    ensures Apply(s, a).readers == s.readers[a.reader := Apply(s, a).readers[a.reader]]
    ensures Rank(Apply(s, a).readers[a.reader]) < Rank(s.readers[a.reader])
  {
  }

  /** Every step of a reader uses up work; clearing the queue does not add any. */
  lemma {:induction false} StepWorks(s: State, a: Action)
    requires Enabled(s, a)
    ensures a == ClearQueue ==> Work(Apply(s, a).readers) == Work(s.readers)
    ensures a != ClearQueue ==> Work(Apply(s, a).readers) < Work(s.readers)
  {
    if a != ClearQueue {
      StepLowers(s, a);
      LowerWorks(s.readers, a.reader, Apply(s, a).readers[a.reader]);
    }
  }

  lemma {:induction false} LowerWorks(readers: map<Reader, Phase>, r: Reader, p: Phase)
    requires r in readers && Rank(p) < Rank(readers[r])
    ensures Work(readers[r := p]) < Work(readers)
  {
    WorkSplit(readers, r);
    WorkSplit(readers[r := p], r);
    assert readers[r := p] - {r} == readers - {r};
  }

  function ReaderSteps(actions: seq<Action>): nat {
    if actions == [] then 0 else (if actions[0] == ClearQueue then 0 else 1) + ReaderSteps(actions[1..])
  }

  /** No run is endless: the readers take at most as many steps as there was work. */
  lemma {:induction false} RunBounded(s: State, actions: seq<Action>, s': State)
    requires IsRun(s, actions, s')
    ensures ReaderSteps(actions) + Work(s'.readers) <= Work(s.readers)
    decreases |actions|
  {
    if actions != [] {
      StepWorks(s, actions[0]);
      RunBounded(Apply(s, actions[0]), actions[1..], s');
    }
  }

  /**
   * No wakeup is lost: as long as some reader is not done, a reader can take a step. Since runs are
   * bounded, every reader is eventually done.
   */
  lemma {:induction false} NoLostWakeup(s: State, r: Reader)
    requires Inv(s) && r in s.readers && !s.readers[r].Done?
    ensures exists a: Action :: a != ClearQueue && Enabled(s, a)
  {
    match s.readers[r]
    case Start(_) => assert Enabled(s, Begin(r));
    case Fetching(_) => assert Enabled(s, FetchReturns(r));
    case Waiting(_, f) =>
      assert ReaderOk(s, s.readers[r]);
      assert Enabled(s, if f in s.promises then Wake(r) else FetchReturns(f));
  }

  // Who fails, and who gets the page.

  predicate HasFailed(s: State, r: Reader) { r in s.readers && s.readers[r].Done? && s.readers[r].outcome.Failed? }

  predicate HasPage(s: State, r: Reader) { r in s.readers && s.readers[r].Done? && s.readers[r].outcome.Page? }

  /**
   * The step makes a reader fail: its fetch fails, or comes back when the key has left the queue; or it
   * has waited for a reader that failed.
   */
  predicate Fails(s: State, a: Action, r: Reader) {
    match a
    case FetchFails(q) => q == r
    case FetchReturns(q) => q == r && r in s.readers && s.readers[r].key !in s.queue
    case Wake(q) => q == r && r in s.readers && s.readers[r].Waiting? && HasFailed(s, s.readers[r].fetch)
    case _ => false
  }

  /** The step gives a reader the page: it is cached when the reader looks, or fetched by it. */
  predicate Gets(s: State, a: Action, r: Reader) {
    match a
    case Begin(q) => q == r && r in s.readers && s.readers[r].key in s.pages
    case Wake(q) => q == r && r in s.readers && s.readers[r].Waiting? && HasPage(s, s.readers[r].fetch)
                    && s.readers[r].key in s.pages
    case FetchReturns(q) => q == r && r in s.readers && s.readers[r].key in s.queue
    case _ => false
  }

  /** Every step makes exactly those readers fail, and gives exactly those the page. */
  lemma {:induction false} StepDecides(s: State, a: Action, r: Reader)
    requires Inv(s) && Enabled(s, a)
    ensures HasFailed(Apply(s, a), r) <==> HasFailed(s, r) || Fails(s, a, r)
    ensures HasPage(Apply(s, a), r) <==> HasPage(s, r) || Gets(s, a, r)
  {
    match a
    case Begin(_) => BeginDecides(s, a, r);
    case Wake(_) => WakeDecides(s, a, r);
    case _ =>
  }

  lemma {:induction false} BeginDecides(s: State, a: Action, r: Reader)
    requires Inv(s) && Enabled(s, a) && a.Begin?
    ensures HasFailed(Apply(s, a), r) <==> HasFailed(s, r)
    ensures HasPage(Apply(s, a), r) <==> HasPage(s, r) || Gets(s, a, r)
  {
  }

  lemma {:induction false} WakeDecides(s: State, a: Action, r: Reader)
    requires Inv(s) && Enabled(s, a) && a.Wake?
    ensures HasFailed(Apply(s, a), r) <==> HasFailed(s, r) || Fails(s, a, r)
    ensures HasPage(Apply(s, a), r) <==> HasPage(s, r) || Gets(s, a, r)
  {
    assert ReaderOk(s, s.readers[a.reader]);
  }

  /** A reader that begins while its page is being fetched waits for that fetch, and starts none. */
  lemma {:induction false} JoinsFetch(s: State, r: Reader)
    requires Inv(s) && Enabled(s, Begin(r)) && s.readers[r].key in s.queue
    ensures var k := s.readers[r].key;
            && Apply(s, Begin(r)) == s.(readers := s.readers[r := Waiting(k, s.queue[k])])
            && s.readers[s.queue[k]] == Fetching(k)
  {
  }

  /** Some step of the run makes the reader fail, or gives it the page. */
  ghost predicate Happens(s: State, actions: seq<Action>, r: Reader, fails: bool)
    decreases |actions|
  {
    && actions != [] && Enabled(s, actions[0])
    && ((if fails then Fails(s, actions[0], r) else Gets(s, actions[0], r))
        || Happens(Apply(s, actions[0]), actions[1..], r, fails))
  }

  /** Over every run: who has failed or has the page is exactly whom some step made fail or gave it. */
  lemma {:induction false} RunDecides(s: State, actions: seq<Action>, s': State, r: Reader)
    requires Inv(s) && IsRun(s, actions, s')
    ensures HasFailed(s', r) <==> HasFailed(s, r) || Happens(s, actions, r, true)
    ensures HasPage(s', r) <==> HasPage(s, r) || Happens(s, actions, r, false)
    decreases |actions|
  {
    if actions != [] {
      StepKeeps(s, actions[0]);
      StepDecides(s, actions[0], r);
      RunDecides(Apply(s, actions[0]), actions[1..], s', r);
    }
  }

  lemma {:induction false} Prepend(s: State, a: Action, actions: seq<Action>, s': State) returns (all: seq<Action>)
    requires Enabled(s, a) && IsRun(Apply(s, a), actions, s')
    ensures IsRun(s, all, s') && all == [a] + actions
  {
    all := [a] + actions;
    assert all[1..] == actions;
  }

  /**
   * A reader can fail although no fetch does and the queue is never cleared: two readers that waited
   * for a page which is evicted before they go on both fetch it, and the second one to come back finds
   * that its key has left the queue.
   */
  lemma {:induction false} CancelledByAnother(a: PageKey, b: PageKey)
    returns (s: State, actions: seq<Action>, s': State)
    requires a != b
    ensures Init(s) && IsRun(s, actions, s') && HasFailed(s', 2)
    ensures forall x | x in actions :: !x.FetchFails? && x != ClearQueue
  {
    s := State(1, map[], [], map[], map[], map[], map[0 := Start(a), 1 := Start(a), 2 := Start(a), 3 := Start(b)]);
    var s1 := Apply(s, Begin(0));
    var s2 := Apply(s1, Begin(1));
    var s3 := Apply(s2, Begin(2));
    assert s3 == s.(queue := map[a := 0], readers := s3.readers);
    actions, s' := FetchedAndEvicted(s3, a, b);
    actions := Prepend(s2, Begin(2), actions, s');
    actions := Prepend(s1, Begin(1), actions, s');
    actions := Prepend(s, Begin(0), actions, s');
  }

  lemma {:induction false} FetchedAndEvicted(s: State, a: PageKey, b: PageKey)
    returns (actions: seq<Action>, s': State)
    requires a != b && s.max == 1 && s.lru == [] && s.pages == map[] && s.queue == map[a := 0]
    requires s.readers.Keys == {0, 1, 2, 3} && s.readers[0] == Fetching(a)
    requires s.readers[1] == s.readers[2] == Waiting(a, 0) && s.readers[3] == Start(b)
    ensures IsRun(s, actions, s') && HasFailed(s', 2)
    ensures forall x | x in actions :: !x.FetchFails? && x != ClearQueue
  {
    var s1 := Apply(s, FetchReturns(0));
    assert s1.queue == map[] && s1.lru == [a];
    actions, s' := EvictedWhileWaking(s1, a, b);
    actions := Prepend(s, FetchReturns(0), actions, s');
  }

  lemma {:induction false} EvictedWhileWaking(s: State, a: PageKey, b: PageKey)
    returns (actions: seq<Action>, s': State)
    requires a != b && s.max == 1 && s.lru == [a] && s.pages.Keys == {a} && s.queue == map[] && 0 in s.promises
    requires s.promises[0] && s.readers.Keys == {0, 1, 2, 3}
    requires s.readers[1] == s.readers[2] == Waiting(a, 0) && s.readers[3] == Start(b)
    ensures IsRun(s, actions, s') && HasFailed(s', 2)
    ensures forall x | x in actions :: !x.FetchFails? && x != ClearQueue
  {
    var s1 := Apply(s, Begin(3));
    var s2 := Apply(s1, FetchReturns(3));
    assert s2.lru == [b] && a !in s2.pages && s2.queue == map[];
    actions, s' := FetchedTwice(s2, a);
    actions := Prepend(s1, FetchReturns(3), actions, s');
    actions := Prepend(s, Begin(3), actions, s');
  }

  lemma {:induction false} FetchedTwice(s: State, a: PageKey) returns (actions: seq<Action>, s': State)
    requires a !in s.pages && s.queue == map[] && 0 in s.promises && s.promises[0]
    requires 1 in s.readers && 2 in s.readers && s.readers[1] == s.readers[2] == Waiting(a, 0)
    ensures IsRun(s, actions, s') && HasFailed(s', 2)
    ensures forall x | x in actions :: !x.FetchFails? && x != ClearQueue
  {
    var s1 := Apply(s, Wake(1));
    var s2 := Apply(s1, Wake(2));
    assert s2.queue == map[a := 1] && s2.readers[1] == Fetching(a) && s2.readers[2] == Fetching(a);
    var s3 := Apply(s2, FetchReturns(1));
    assert a !in s3.queue;
    s' := Apply(s3, FetchReturns(2));
    actions := Prepend(s3, FetchReturns(2), [], s');
    actions := Prepend(s2, FetchReturns(1), actions, s');
    actions := Prepend(s1, Wake(2), actions, s');
    actions := Prepend(s, Wake(1), actions, s');
  }
}
