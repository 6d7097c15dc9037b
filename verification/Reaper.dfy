/**
 * The descriptors of the page cache (`hint_open`, `hint_close`, `clean_stale_fds` and the
 * descriptor handling of `read_at`, `flush` and `evict` in madbfs/src/cache.cpp). Operations that
 * use a descriptor are tasks: they suspend while it is being opened and while it is in use, and
 * anything may run in between. The reaper runs in three parts, between which it may suspend: the
 * scan of the stale marks, the closing of what it found, and the removal of free entries.
 */
module Reaper {
  import opened Bytes

  type Id = nat
  type Fd = nat
  type Task = nat

  datatype Kind = ReadKind | WriteKind

  datatype Mode = Read | Write | ReadWrite

  predicate Uses(mode: Mode, kind: Kind) { mode == ReadWrite || mode == if kind == ReadKind then Read else Write }

  /** One direction of a lookup entry: who has the file open, the real descriptor, the operations on it. */
  datatype Side = Side(users: nat, fd: Option<Fd>, inflight: int)

  /** `busy` stands for cached pages or a dirty flag: what reads, writes and flushes do to an entry. */
  datatype Entry = Entry(read: Side, write: Side, busy: bool) {
    function Get(kind: Kind): Side { if kind == ReadKind then read else write }

    function Put(kind: Kind,
                 side: Side): Entry { if kind == ReadKind then this.(read := side) else this.(write := side) }

    predicate IsFree() { !busy && read.users == 0 && write.users == 0 && read.inflight == 0 && write.inflight == 0 }
  }

  const EMPTY := Entry(Side(0, None, 0), Side(0, None, 0), false)

  datatype Mark = Mark(id: Id, kind: Kind)

  /** An operation on a file: waiting for its descriptor, or using it. A flush is only counted once it has one. */
  datatype Job = Opening(id: Id, kind: Kind, counted: bool) | Using(id: Id, kind: Kind, fd: Fd) {
    predicate Counts(i: Id, k: Kind) { id == i && kind == k && (Using? || counted) }
  }

  datatype State = State(
    table: map<Id, Entry>,
    stale: seq<Mark>,
    tasks: map<Task, Job>,
    opens: multiset<(Id, Mode)>,  // what the callers have open
    device: set<Fd>,              // descriptors open on the device
    closing: set<Fd>)             // descriptors the reaper has taken and not closed yet

  /** The marks without this one. */
  function Unmarked(stale: seq<Mark>, m: Mark): (r: seq<Mark>)
    ensures forall x :: x in r <==> x in stale && x != m
  {
    if stale == [] then [] else if stale[0] == m then Unmarked(stale[1..], m)
    else [stale[0]] + Unmarked(stale[1..], m)
  }

  function AddUser(side: Side, add: bool): Side { if add then side.(users := side.users + 1) else side }

  function DropUser(side: Side, drop: bool): Side
    requires drop ==> side.users > 0
  {
    if drop then side.(users := side.users - 1) else side
  }

  /** `hint_open`: counts the user and takes back the stale marks of a direction that had none. */
  function HintOpen(s: State, id: Id, mode: Mode): State {
    var e := if id in s.table then s.table[id] else EMPTY;
    var e' := Entry(AddUser(e.read, Uses(mode, ReadKind)), AddUser(e.write, Uses(mode, WriteKind)), e.busy);
    var stale := if e.read.users == 0 && e'.read.users > 0 then Unmarked(s.stale, Mark(id, ReadKind)) else s.stale;
    var stale' := if e.write.users == 0 && e'.write.users > 0 then Unmarked(stale, Mark(id, WriteKind)) else stale;
    s.(table := s.table[id := e'], stale := stale', opens := s.opens + multiset{(id, mode)})
  }

  function MarkIf(stale: seq<Mark>, id: Id, kind: Kind, side: Side): seq<Mark> {
    if side.users == 0 && side.fd.Some? then stale + [Mark(id, kind)] else stale
  }

  predicate CanClose(s: State, id: Id, mode: Mode) {
    && id in s.table
    && (Uses(mode, ReadKind) ==> s.table[id].read.users > 0)
    && (Uses(mode, WriteKind) ==> s.table[id].write.users > 0)
  }

  /** `hint_close`: drops the user, or fails; whatever direction is left without users is marked stale. */
  function HintClose(s: State, id: Id, mode: Mode): State {
    if !CanClose(s, id, mode) then s
    else
      var e := s.table[id];
      var e' := Entry(DropUser(e.read, Uses(mode, ReadKind)), DropUser(e.write, Uses(mode, WriteKind)), e.busy);
      var stale := MarkIf(MarkIf(s.stale, id, ReadKind, e'.read), id, WriteKind, e'.write);
      s.(table := s.table[id := e'], stale := stale, opens := s.opens - multiset{(id, mode)})
  }

  function AddInflight(e: Entry, kind: Kind, n: int): Entry {
    e.Put(kind, e.Get(kind).(inflight := e.Get(kind).inflight + n))
  }

  /** The start of an operation that needs a descriptor. */
  function Begin(s: State, t: Task, id: Id, kind: Kind, flush: bool): State
    requires id in s.table
  {
    var fd := s.table[id].Get(kind).fd;
    var job := if fd.Some? then Using(id, kind, fd.value) else Opening(id, kind, !flush);
    var n := if job.Counts(id, kind) then 1 else 0;
    s.(tasks := s.tasks[t := job], table := s.table[id := AddInflight(s.table[id], kind, n)])
  }

  /** The device has opened the file: the entry gets the descriptor, even if it has one by now. */
  function Opened(s: State, t: Task, fd: Fd): State
    requires t in s.tasks && s.tasks[t].Opening? && s.tasks[t].id in s.table
  {
    var job := s.tasks[t];
    var e := s.table[job.id];
    var e' := AddInflight(e.Put(job.kind, e.Get(job.kind).(fd := Some(fd))), job.kind, if job.counted then 0 else 1);
    s.(tasks := s.tasks[t := Using(job.id, job.kind, fd)], table := s.table[job.id := e'], device := s.device + {fd})
  }

  /** The operation ends, or its descriptor could not be opened. */
  function End(s: State, t: Task): State
    requires t in s.tasks
  {
    var job := s.tasks[t];
    var table := if job.id in s.table && job.Counts(job.id, job.kind)
                 then s.table[job.id := AddInflight(s.table[job.id], job.kind, -1)] else s.table;
    s.(tasks := s.tasks - {t}, table := table)
  }

  /** The descriptor the scan takes for a mark, if any. */
  function Taken(table: map<Id, Entry>, m: Mark): Option<Fd> {
    if m.id in table && table[m.id].Get(m.kind).inflight == 0 then table[m.id].Get(m.kind).fd else None
  }

  predicate DoneWith(table: map<Id, Entry>, m: Mark) { m.id !in table || Taken(table, m).Some? }

  /** The scan of one mark: the entry's descriptor is taken out of it, to be closed later. */
  function ScanMark(s: State, m: Mark): State {
    var fd := Taken(s.table, m);
    if fd.None? then s
    else
      s.(table := s.table[m.id := s.table[m.id].Put(m.kind, s.table[m.id].Get(m.kind).(fd := None))],
          closing := s.closing + {fd.value})
  }

  /** The scan of marks in order, and the marks it keeps. */
  function ScanFrom(s: State, marks: seq<Mark>): State {
    if marks == [] then s else ScanMark(ScanFrom(s, marks[..|marks| - 1]), marks[|marks| - 1])
  }

  function ScanLeft(s: State, marks: seq<Mark>): seq<Mark> {
    if marks == [] then []
    else
      var rest, m := marks[..|marks| - 1], marks[|marks| - 1];
      ScanLeft(s, rest) + if DoneWith(ScanFrom(s, rest).table, m) then [] else [m]
  }

  function Scan(s: State): State { ScanFrom(s, s.stale).(stale := ScanLeft(s, s.stale)) }

  /** Removal of the marks at some positions, the last position first. */
  ghost function Erase(marks: seq<Mark>, at: seq<nat>): (r: seq<Mark>)
    requires Ascending(at, |marks|)
    decreases |at|
  {
    if at == [] then marks
    else var i := at[|at| - 1]; Erase(marks[..i] + marks[i + 1..], at[..|at| - 1])
  }

  ghost predicate Ascending(at: seq<nat>, end: nat) {
    (forall i | 0 <= i < |at| :: at[i] < end) && (forall i, j | 0 <= i < j < |at| :: at[i] < at[j])
  }

  lemma {:induction false} EraseEarly(a: seq<Mark>, b: seq<Mark>, at: seq<nat>)
    requires Ascending(at, |a|)
    ensures Erase(a + b, at) == Erase(a, at) + b
    decreases |at|
  {
    if at != [] {
      var i := at[|at| - 1];
      assert (a + b)[..i] + (a + b)[i + 1..] == (a[..i] + a[i + 1..]) + b;
      EraseEarly(a[..i] + a[i + 1..], b, at[..|at| - 1]);
    }
  }

  function RemoveFree(s: State): State { s.(table := map id | id in s.table && !s.table[id].IsFree() :: s.table[id]) }

  datatype Action =
    | OpenFile(id: Id, mode: Mode)
    | CloseFile(id: Id, mode: Mode)
    | BeginTask(task: Task, id: Id, kind: Kind, flush: bool)
    | OpenReturns(task: Task, fd: Fd)
    | EndTask(task: Task)
    | SetBusy(id: Id, busy: bool)
    | ScanMarks
    | CloseFd(fd: Fd)
    | RemoveEntries

  /**
   * Callers close what they have open; the device hands out descriptors it does not have open; a
   * flush's entry outlives its open.
   */
  predicate Enabled(s: State, a: Action) {
    match a
    case OpenFile(_, _) => true
    case CloseFile(id, mode) => (id, mode) in s.opens
    case BeginTask(t, id, _, _) => t !in s.tasks && id in s.table
    case OpenReturns(t, fd) => t in s.tasks && s.tasks[t].Opening? && s.tasks[t].id in s.table && fd !in s.device
    case EndTask(t) => t in s.tasks
    case SetBusy(id, _) => id in s.table
    case ScanMarks => true
    case CloseFd(fd) => fd in s.closing
    case RemoveEntries => true
  }

  function Apply(s: State, a: Action): State
    requires Enabled(s, a)
  {
    match a
    case OpenFile(id, mode) => HintOpen(s, id, mode)
    case CloseFile(id, mode) => HintClose(s, id, mode)
    case BeginTask(t, id, kind, flush) => Begin(s, t, id, kind, flush)
    case OpenReturns(t, fd) => Opened(s, t, fd)
    case EndTask(t) => End(s, t)
    case SetBusy(id, busy) => s.(table := s.table[id := s.table[id].(busy := busy)])
    case ScanMarks => Scan(s)
    case CloseFd(fd) => s.(closing := s.closing - {fd}, device := s.device - {fd})
    case RemoveEntries => RemoveFree(s)
  }

  /** How many callers have the file open in this direction. */
  function Users(s: State, id: Id, kind: Kind): nat {
    s.opens[(id, if kind == ReadKind then Read else Write)] + s.opens[(id, ReadWrite)]
  }

  function SideUsers(s: State, id: Id, kind: Kind): nat { if id in s.table then s.table[id].Get(kind).users else 0 }

  function Names(table: map<Id, Entry>, id: Id,
                 kind: Kind): Option<Fd> { if id in table then table[id].Get(kind).fd else None }

  function Inflight(s: State, id: Id, kind: Kind): int { if id in s.table then s.table[id].Get(kind).inflight else 0 }

  function Jobs(tasks: map<Task, Job>, id: Id,
                kind: Kind): set<Task> { set t | t in tasks && tasks[t].Counts(id, kind) }

  /** Counts are the outstanding opens: in particular an open file has an entry. */
  ghost predicate CountsOk(s: State) { forall id, kind :: SideUsers(s, id, kind) == Users(s, id, kind) }

  /** A stale mark speaks of a file without an entry or without users in that direction. */
  ghost predicate MarksOk(s: State) { forall m | m in s.stale :: SideUsers(s, m.id, m.kind) == 0 }

  /** The in-flight numbers are the operations. */
  ghost predicate InflightOk(s: State) { forall id, kind :: Inflight(s, id, kind) == |Jobs(s.tasks, id, kind)| }

  /** Every descriptor that is named or in use is open on the device and not about to be closed. */
  ghost predicate FdsOk(s: State) {
    && s.closing <= s.device
    && (forall id, kind | Names(s.table, id, kind).Some? :: Live(s, Names(s.table, id, kind).value))
    && (forall t | t in s.tasks && s.tasks[t].Using? :: Live(s, s.tasks[t].fd))
  }

  predicate Live(s: State, fd: Fd) { fd in s.device && fd !in s.closing }

  /** No two directions name the same descriptor, and a descriptor in use can only be named where it is used. */
  ghost predicate NamesOk(s: State) {
    && (forall id, kind, id', kind' | Names(s.table, id, kind).Some?
         && Names(s.table, id, kind) == Names(s.table, id', kind') ::
          id == id' && kind == kind')
    && (forall t, id, kind | t in s.tasks && s.tasks[t].Using? && Names(s.table, id, kind) == Some(s.tasks[t].fd) ::
          s.tasks[t].id == id && s.tasks[t].kind == kind)
  }

  ghost predicate Inv(s: State) { CountsOk(s) && MarksOk(s) && InflightOk(s) && FdsOk(s) && NamesOk(s) }

  lemma {:induction false} EraseNext(a: seq<Mark>, m: Mark, at: seq<nat>)
    requires Ascending(at, |a|)
    ensures Ascending(at + [|a|], |a| + 1)
    ensures Erase(a + [m], at) == Erase(a, at) + [m]
    ensures Erase(a + [m], at + [|a|]) == Erase(a, at)
  {
    EraseEarly(a, [m], at);
    assert (a + [m])[..|a|] + (a + [m])[|a| + 1..] == a;
    assert (at + [|a|])[..|at|] == at;
  }

  /** The first loop has dealt with these marks. */
  ghost predicate Scanned(s: State, done: seq<Mark>, r: State, remove: seq<nat>) {
    r == ScanFrom(s, done) && Ascending(remove, |done|) && Erase(done, remove) == ScanLeft(s, done)
  }

  lemma {:induction false} ScanNext(s: State, done: seq<Mark>, m: Mark, r: State, remove: seq<nat>)
    requires Scanned(s, done, r, remove)
    ensures Scanned(s, done + [m], ScanMark(r, m), if DoneWith(r.table, m) then remove + [|done|] else remove)
  {
    EraseNext(done, m, remove);
    assert (done + [m])[..|done|] == done;
  }

  /** The reaper's second loop, backwards over the positions found. */
  method EraseLoop(marks: seq<Mark>, at: seq<nat>) returns (r: seq<Mark>)
    requires Ascending(at, |marks|)
    ensures r == Erase(marks, at)
  {
    r := marks;
    var n: nat := |at|;
    assert at[..n] == at;
    while n > 0
      invariant n <= |at|
      invariant Ascending(at[..n], |r|)
      invariant Erase(r, at[..n]) == Erase(marks, at)
    {
      n := n - 1;
      assert at[..n + 1][..n] == at[..n] && at[..n + 1][n] == at[n];
      r := r[..at[n]] + r[at[n] + 1..];
    }
  }

  /** The reaper's first loop, over the marks: what it does is the scan. */
  method ScanMarksLoop(s: State) returns (r: State)
    ensures r == Scan(s)
  {
    r := s;
    var remove: seq<nat> := [];
    var i: nat := 0;
    while i < |s.stale|
      invariant i <= |s.stale| && Scanned(s, s.stale[..i], r, remove)
    {
      var m := s.stale[i];
      assert s.stale[..i + 1] == s.stale[..i] + [m];
      ScanNext(s, s.stale[..i], m, r, remove);
      if DoneWith(r.table, m) {
        remove := remove + [i];
      }
      r := ScanMark(r, m);
      i := i + 1;
    }
    assert s.stale[..i] == s.stale;
    var stale := EraseLoop(s.stale, remove);
    r := r.(stale := stale);
  }

  // What one more or one fewer task does to the in-flight numbers.

  lemma {:induction false} JobsSet(tasks: map<Task, Job>, t: Task, job: Job, id: Id, kind: Kind)
    ensures |Jobs(tasks[t := job], id, kind)| == |Jobs(tasks - {t}, id, kind)| + if job.Counts(id, kind) then 1 else 0
  {
    var rest := Jobs(tasks - {t}, id, kind);
    assert Jobs(tasks[t := job], id, kind) == rest + if job.Counts(id, kind) then {t} else {};
  }

  lemma {:induction false} JobsDrop(tasks: map<Task, Job>, t: Task, id: Id, kind: Kind)
    ensures |Jobs(tasks, id, kind)| == |Jobs(tasks - {t}, id, kind)| + if t in tasks && tasks[t].Counts(id, kind)
              then 1 else 0
  {
    if t in tasks {
      assert tasks[t := tasks[t]] == tasks;
      JobsSet(tasks, t, tasks[t], id, kind);
    } else {
      assert tasks - {t} == tasks;
    }
  }

  lemma {:induction false} OpenKeeps(s: State, id: Id, mode: Mode)
    requires Inv(s)
    ensures Inv(HintOpen(s, id, mode))
  {
    var s' := HintOpen(s, id, mode);
    forall i, k ensures SideUsers(s', i, k) == Users(s', i, k) {
      assert SideUsers(s, i, k) == Users(s, i, k);
      assert Users(s', i, k) == Users(s, i, k) + if i == id && Uses(mode, k) then 1 else 0;
    }
    assert forall i, k :: Names(s'.table, i, k) == Names(s.table, i, k);
    assert forall i, k :: Inflight(s', i, k) == Inflight(s, i, k);
  }

  lemma {:induction false} CloseCounts(s: State, id: Id, mode: Mode)
    requires CountsOk(s) && (id, mode) in s.opens
    ensures CanClose(s, id, mode)
    ensures CountsOk(HintClose(s, id, mode))
  {
    assert SideUsers(s, id, ReadKind) == Users(s, id, ReadKind)
        && SideUsers(s, id, WriteKind) == Users(s, id, WriteKind);
    var s' := HintClose(s, id, mode);
    forall i, k ensures SideUsers(s', i, k) == Users(s', i, k) {
      assert SideUsers(s, i, k) == Users(s, i, k);
      assert Users(s', i, k) == Users(s, i, k) - if i == id && Uses(mode, k) then 1 else 0;
    }
  }

  lemma {:induction false} CloseKeeps(s: State, id: Id, mode: Mode)
    requires Inv(s) && (id, mode) in s.opens
    ensures Inv(HintClose(s, id, mode))
  {
    CloseCounts(s, id, mode);
    var s' := HintClose(s, id, mode);
    assert forall i, k :: Names(s'.table, i, k) == Names(s.table, i, k);
    assert forall i, k :: Inflight(s', i, k) == Inflight(s, i, k);
  }

  lemma {:induction false} BeginKeeps(s: State, t: Task, id: Id, kind: Kind, flush: bool)
    requires Inv(s) && t !in s.tasks && id in s.table
    ensures Inv(Begin(s, t, id, kind, flush))
  {
    var s' := Begin(s, t, id, kind, flush);
    assert s'.tasks[t].Using? ==> Names(s.table, id, kind) == Some(s'.tasks[t].fd);
    assert forall i, k :: Names(s'.table, i, k) == Names(s.table, i, k);
    assert forall i, k :: SideUsers(s', i, k) == SideUsers(s, i, k);
    forall i, k ensures Inflight(s', i, k) == |Jobs(s'.tasks, i, k)| {
      JobsSet(s.tasks, t, s'.tasks[t], i, k);
      assert s.tasks - {t} == s.tasks;
      assert Inflight(s, i, k) == |Jobs(s.tasks, i, k)|;
    }
  }

  lemma {:induction false} OpenedKeeps(s: State, t: Task, fd: Fd)
    requires Inv(s) && t in s.tasks && s.tasks[t].Opening? && s.tasks[t].id in s.table && fd !in s.device
    ensures Inv(Opened(s, t, fd))
  {
    var s' := Opened(s, t, fd);
    var job := s.tasks[t];
    assert forall i, k :: Names(s'.table, i, k) == if i == job.id && k == job.kind then Some(fd)
        else Names(s.table, i, k);
    assert forall i, k :: SideUsers(s', i, k) == SideUsers(s, i, k);
    forall i, k ensures Inflight(s', i, k) == |Jobs(s'.tasks, i, k)| {
      JobsSet(s.tasks, t, s'.tasks[t], i, k);
      JobsDrop(s.tasks, t, i, k);
      assert Inflight(s, i, k) == |Jobs(s.tasks, i, k)|;
    }
  }

  lemma {:induction false} EndKeeps(s: State, t: Task)
    requires Inv(s) && t in s.tasks
    ensures Inv(End(s, t))
  {
    var s' := End(s, t);
    var job := s.tasks[t];
    assert forall i, k :: Names(s'.table, i, k) == Names(s.table, i, k);
    assert forall i, k :: SideUsers(s', i, k) == SideUsers(s, i, k);
    forall i, k ensures Inflight(s', i, k) == |Jobs(s'.tasks, i, k)| {
      JobsDrop(s.tasks, t, i, k);
      assert Inflight(s, i, k) == |Jobs(s.tasks, i, k)|;
    }
  }

  lemma {:induction false} BusyKeeps(s: State, id: Id, busy: bool)
    requires Inv(s) && id in s.table
    ensures Inv(s.(table := s.table[id := s.table[id].(busy := busy)]))
  {
    var s' := s.(table := s.table[id := s.table[id].(busy := busy)]);
    assert forall i, k :: Names(s'.table, i, k) == Names(s.table, i, k);
    assert forall i, k :: SideUsers(s', i, k) == SideUsers(s, i, k);
    assert forall i, k :: Inflight(s', i, k) == Inflight(s, i, k);
  }

  /** Nobody uses a descriptor named by a direction with no operation in flight. */
  lemma {:induction false} IdleFd(s: State, id: Id, kind: Kind, t: Task)
    requires Inv(s) && Names(s.table, id, kind).Some? && Inflight(s, id, kind) == 0 && t in s.tasks && s.tasks[t].Using?
    ensures s.tasks[t].fd != Names(s.table, id, kind).value
  {
    JobsDrop(s.tasks, t, id, kind);
  }

  lemma {:induction false} ScanMarkKeeps(s: State, m: Mark)
    requires Inv(s)
    ensures Inv(ScanMark(s, m)) && ScanMark(s, m).stale == s.stale
    ensures forall id, kind :: SideUsers(ScanMark(s, m), id, kind) == SideUsers(s, id, kind)
  {
    var s' := ScanMark(s, m);
    if s' != s {
      assert Names(s.table, m.id, m.kind) == Taken(s.table, m);
      assert forall i, k :: SideUsers(s', i, k) == SideUsers(s, i, k) && Users(s', i, k) == Users(s, i, k);
      assert forall i, k :: Names(s'.table, i, k) == if i == m.id && k == m.kind then None else Names(s.table, i, k);
      assert forall i, k :: Inflight(s', i, k) == Inflight(s, i, k);
      forall t | t in s'.tasks && s'.tasks[t].Using? ensures Live(s', s'.tasks[t].fd) {
        IdleFd(s, m.id, m.kind, t);
      }
    }
  }

  lemma {:induction false} ScanFromKeeps(s: State, marks: seq<Mark>)
    requires Inv(s)
    ensures Inv(ScanFrom(s, marks)) && ScanFrom(s, marks).stale == s.stale
    ensures forall id, kind :: SideUsers(ScanFrom(s, marks), id, kind) == SideUsers(s, id, kind)
    ensures forall m | m in ScanLeft(s, marks) :: m in marks
  {
    if marks != [] {
      ScanFromKeeps(s, marks[..|marks| - 1]);
      ScanMarkKeeps(ScanFrom(s, marks[..|marks| - 1]), marks[|marks| - 1]);
    }
  }

  lemma {:induction false} ScanKeeps(s: State)
    requires Inv(s)
    ensures Inv(Scan(s))
  {
    ScanFromKeeps(s, s.stale);
    var f := ScanFrom(s, s.stale);
    var s' := Scan(s);
    assert s'.table == f.table;
    assert forall i, k :: SideUsers(s', i, k) == SideUsers(f, i, k) && Users(s', i, k) == Users(f, i, k);
    assert forall i, k :: Inflight(s', i, k) == Inflight(f, i, k);
  }

  lemma {:induction false} CloseFdKeeps(s: State, fd: Fd)
    requires Inv(s) && fd in s.closing
    ensures Inv(s.(closing := s.closing - {fd}, device := s.device - {fd}))
  {
    var s' := s.(closing := s.closing - {fd}, device := s.device - {fd});
    assert forall i, k :: SideUsers(s', i, k) == SideUsers(s, i, k) && Users(s', i, k) == Users(s, i, k);
    assert forall i, k :: Inflight(s', i, k) == Inflight(s, i, k);
  }

  lemma {:induction false} RemoveKeeps(s: State)
    requires Inv(s)
    ensures Inv(RemoveFree(s))
  {
    var s' := RemoveFree(s);
    assert forall i, k :: SideUsers(s', i, k) == SideUsers(s, i, k) && Users(s', i, k) == Users(s, i, k);
    assert forall i, k :: Inflight(s', i, k) == Inflight(s, i, k);
    assert forall i, k | Names(s'.table, i, k).Some? :: Names(s.table, i, k) == Names(s'.table, i, k);
  }

  lemma {:induction false} StepKeeps(s: State, a: Action)
    requires Inv(s) && Enabled(s, a)
    ensures Inv(Apply(s, a))
  {
    match a
    case OpenFile(id, mode) => OpenKeeps(s, id, mode);
    case CloseFile(id, mode) => CloseKeeps(s, id, mode);
    case BeginTask(t, id, kind, flush) => BeginKeeps(s, t, id, kind, flush);
    case OpenReturns(t, fd) => OpenedKeeps(s, t, fd);
    case EndTask(t) => EndKeeps(s, t);
    case SetBusy(id, busy) => BusyKeeps(s, id, busy);
    case ScanMarks => ScanKeeps(s);
    case CloseFd(fd) => CloseFdKeeps(s, fd);
    case RemoveEntries => RemoveKeeps(s);
  }

  const INITIAL := State(map[], [], map[], multiset{}, {}, {})

  /** The i-th action of a run leads from its i-th state to the next. */
  ghost predicate StepAt(states: seq<State>, actions: seq<Action>, i: nat)
    requires i < |states| - 1 && i < |actions|
  {
    Enabled(states[i], actions[i]) && states[i + 1] == Apply(states[i], actions[i])
  }

  /** A run from the empty cache. */
  ghost predicate IsRun(states: seq<State>, actions: seq<Action>) {
    && |states| == |actions| + 1
    && states[0] == INITIAL
    && (forall i: nat | i < |actions| :: StepAt(states, actions, i))
  }

  lemma {:induction false} RunKeeps(states: seq<State>, actions: seq<Action>, n: nat)
    requires IsRun(states, actions) && n < |states|
    ensures Inv(states[n])
  {
    if n == 0 {
      assert forall id, kind :: Jobs(INITIAL.tasks, id, kind) == {};
    } else {
      RunKeeps(states, actions, n - 1);
      assert StepAt(states, actions, n - 1);
      StepKeeps(states[n - 1], actions[n - 1]);
    }
  }

  /** The descriptors one scan takes: each from a direction of a marked file with no user and nothing in flight. */
  lemma {:induction false} ScanTakes(s: State, marks: seq<Mark>, fd: Fd)
    requires Inv(s) && fd in ScanFrom(s, marks).closing && fd !in s.closing
    ensures exists m :: m in marks && Names(s.table, m.id, m.kind) == Some(fd) && Inflight(s, m.id, m.kind) == 0
  {
    var rest, m := marks[..|marks| - 1], marks[|marks| - 1];
    var f := ScanFrom(s, rest);
    if fd in f.closing {
      ScanTakes(s, rest, fd);
    } else {
      ScanOnlyTakes(s, rest, m.id, m.kind);
      assert Names(s.table, m.id, m.kind) == Some(fd);
    }
  }

  /** A scan changes nothing of an entry but the descriptors it takes. */
  lemma {:induction false} ScanOnlyTakes(s: State, marks: seq<Mark>, id: Id, kind: Kind)
    ensures ScanFrom(s, marks).table.Keys == s.table.Keys
    ensures Inflight(ScanFrom(s, marks), id, kind) == Inflight(s, id, kind)
    ensures Names(ScanFrom(s, marks).table, id, kind) in {None, Names(s.table, id, kind)}
  {
    if marks != [] {
      ScanOnlyTakes(s, marks[..|marks| - 1], id, kind);
    }
  }

  /** The mark is of a named direction with nothing in flight. */
  ghost predicate Idle(s: State, m: Mark) {
    Names(s.table, m.id, m.kind).Some? && Inflight(s, m.id, m.kind) == 0
  }

  /** What a scan of some marks takes: the descriptors of the idle ones, and nothing else. */
  lemma {:induction false} ScanFromExact(s: State, marks: seq<Mark>, fd: Fd, m: Mark)
    ensures fd in ScanFrom(s, marks).closing <==>
              fd in s.closing || exists x :: x in marks && Idle(s, x) && Names(s.table, x.id, x.kind) == Some(fd)
    ensures Names(ScanFrom(s, marks).table, m.id, m.kind) ==
              if m in marks && Idle(s, m) then None else Names(s.table, m.id, m.kind)
  {
    if marks != [] {
      var rest, last := marks[..|marks| - 1], marks[|marks| - 1];
      assert marks == rest + [last];
      ScanFromExact(s, rest, fd, m);
      ScanFromExact(s, rest, fd, last);
      ScanOnlyTakes(s, rest, last.id, last.kind);
    }
  }

  /** The marks a scan keeps: of entries with nothing to take, and those that are there twice. */
  lemma {:induction false} ScanLeftExact(s: State, marks: seq<Mark>, m: Mark)
    ensures m in ScanLeft(s, marks) <==> m in marks && m.id in s.table && (!Idle(s, m) || multiset(marks)[m] > 1)
  {
    if marks != [] {
      var rest, last := marks[..|marks| - 1], marks[|marks| - 1];
      assert marks == rest + [last];
      ScanLeftExact(s, rest, m);
      ScanFromExact(s, rest, 0, last);
      ScanOnlyTakes(s, rest, last.id, last.kind);
      assert m in rest <==> multiset(rest)[m] > 0;
    }
  }

  /**
   * One scan of the reaper: it takes the descriptor of every marked direction that has nothing in
   * flight, and of no other; these are named by nothing afterwards, and everything else is as it was.
   */
  lemma {:induction false} ScanExact(s: State, fd: Fd, m: Mark)
    ensures fd in Scan(s).closing <==>
              fd in s.closing || exists x :: x in s.stale && Idle(s, x) && Names(s.table, x.id, x.kind) == Some(fd)
    ensures Names(Scan(s).table, m.id, m.kind) ==
              if m in s.stale && Idle(s, m) then None else Names(s.table, m.id, m.kind)
    ensures m in Scan(s).stale <==> m in s.stale && m.id in s.table && (!Idle(s, m) || multiset(s.stale)[m] > 1)
    ensures SideUsers(Scan(s), m.id, m.kind) == SideUsers(s, m.id, m.kind)
    ensures Inflight(Scan(s), m.id, m.kind) == Inflight(s, m.id, m.kind) && Scan(s).table.Keys == s.table.Keys
    ensures Scan(s).device == s.device && Scan(s).tasks == s.tasks && Scan(s).opens == s.opens
  {
    ScanFromExact(s, s.stale, fd, m);
    ScanLeftExact(s, s.stale, m);
    ScanOrphan(s, s.stale, m.id, m.kind);
    ScanOnlyTakes(s, s.stale, m.id, m.kind);
    ScanLeaked(s, s.stale, fd);
    ScanRest(s, s.stale);
  }

  lemma {:induction false} ScanRest(s: State, marks: seq<Mark>)
    ensures ScanFrom(s, marks).tasks == s.tasks && ScanFrom(s, marks).opens == s.opens
  {
    if marks != [] { ScanRest(s, marks[..|marks| - 1]); }
  }

  /**
   * Reaper safety, in every state of every run: counts are the outstanding opens; a mark speaks of a
   * direction without users; what the reaper is about to close nobody uses and no entry names; the
   * scan takes only descriptors of directions with no user and nothing in flight; and neither the
   * scan nor the removal drops the entry of an open file.
   */
  lemma {:induction false} ReaperSafe(states: seq<State>, actions: seq<Action>, n: nat)
    requires IsRun(states, actions) && n < |states|
    ensures forall id, kind :: SideUsers(states[n], id, kind) == Users(states[n], id, kind)
    ensures forall m | m in states[n].stale :: SideUsers(states[n], m.id, m.kind) == 0
    ensures forall fd, id, kind | fd in states[n].closing :: Names(states[n].table, id, kind) != Some(fd)
    ensures forall fd, t | fd in states[n].closing && t in states[n].tasks ::
              states[n].tasks[t] != Using(states[n].tasks[t].id, states[n].tasks[t].kind, fd)
    ensures forall fd | fd in Scan(states[n]).closing && fd !in states[n].closing ::
              exists id, kind ::
                  Names(states[n].table, id, kind) == Some(fd) && Users(states[n], id, kind) == 0
                      && Inflight(states[n], id, kind) == 0
    ensures forall id, mode | (id, mode) in states[n].opens ::
              id in Scan(states[n]).table && id in RemoveFree(states[n]).table
  {
    var s := states[n];
    RunKeeps(states, actions, n);
    forall fd | fd in Scan(s).closing && fd !in s.closing
      ensures exists id, kind ::
                Names(s.table, id, kind) == Some(fd) && Users(s, id, kind) == 0 && Inflight(s, id, kind) == 0
    {
      ScanTakes(s, s.stale, fd);
    }
    forall id, mode | (id, mode) in s.opens ensures id in Scan(s).table && id in RemoveFree(s).table {
      assert s.opens[(id, mode)] > 0;
      var kind := if mode == Write then WriteKind else ReadKind;
      assert SideUsers(s, id, kind) == Users(s, id, kind) > 0;
      ScanOnlyTakes(s, s.stale, id, ReadKind);
    }
  }

  /**
   * What a close does: one user less in the directions it is for, and a mark for every named direction
   * of the file that has none left.
   */
  lemma {:induction false} CloseExact(s: State, id: Id, mode: Mode, i: Id, kind: Kind)
    requires CountsOk(s) && (id, mode) in s.opens
    ensures var s' := HintClose(s, id, mode);
            && SideUsers(s', i, kind) == SideUsers(s, i, kind) - (if i == id && Uses(mode, kind) then 1 else 0)
            && Names(s'.table, i, kind) == Names(s.table, i, kind) && Inflight(s', i, kind) == Inflight(s, i, kind)
            && (Mark(i, kind) in s'.stale <==>
                  Mark(i, kind) in s.stale || (i == id && SideUsers(s', i, kind) == 0 && Names(s.table, i, kind).Some?))
  {
    CloseCounts(s, id, mode);
  }

  /** What an open does: one user more in the directions it is for, and no mark where it is the first. */
  lemma {:induction false} OpenExact(s: State, id: Id, mode: Mode, i: Id, kind: Kind)
    ensures var s' := HintOpen(s, id, mode);
            && SideUsers(s', i, kind) == SideUsers(s, i, kind) + (if i == id && Uses(mode, kind) then 1 else 0)
            && Names(s'.table, i, kind) == Names(s.table, i, kind) && Inflight(s', i, kind) == Inflight(s, i, kind)
            && (Mark(i, kind) in s'.stale <==>
                  Mark(i, kind) in s.stale && !(i == id && Uses(mode, kind) && SideUsers(s, i, kind) == 0))
  {
  }

  /**
   * What an operation works on: the descriptor its direction has when it begins, else the one that its
   * own open returns, which the direction has from then on.
   */
  lemma {:induction false} TaskExact(s: State, a: Action)
    requires Enabled(s, a) && (a.BeginTask? || a.OpenReturns?)
    ensures a.BeginTask? ==>
              var fd := Names(s.table, a.id, a.kind);
              && Apply(s, a).tasks == s.tasks[a.task := if fd.Some? then Using(a.id, a.kind, fd.value)
                                                  else Opening(a.id, a.kind, !a.flush)]
              && Apply(s, a).device == s.device
    ensures a.OpenReturns? ==>
              var job, s' := s.tasks[a.task], Apply(s, a);
              && s'.tasks == s.tasks[a.task := Using(job.id, job.kind, a.fd)] && s'.device == s.device + {a.fd}
              && Names(s'.table, job.id, job.kind) == Some(a.fd)
    ensures forall i, k | a.BeginTask? || i != s.tasks[a.task].id || k != s.tasks[a.task].kind ::
              Names(Apply(s, a).table, i, k) == Names(s.table, i, k)
  {
    if a.BeginTask? { NamesKept(s, a); }
  }

  /** The removal drops exactly the entries nobody has open, nothing works on and nothing is cached for. */
  lemma {:induction false} RemoveExact(s: State, id: Id)
    requires Inv(s) && id in s.table
    ensures id !in RemoveFree(s).table <==>
              && !s.table[id].busy && Users(s, id, ReadKind) == 0 && Users(s, id, WriteKind) == 0
              && Jobs(s.tasks, id, ReadKind) == {} && Jobs(s.tasks, id, WriteKind) == {}
    ensures id in RemoveFree(s).table ==> RemoveFree(s).table[id] == s.table[id]
  {
    assert SideUsers(s, id, ReadKind) == Users(s, id, ReadKind)
        && SideUsers(s, id, WriteKind) == Users(s, id, WriteKind);
    assert Inflight(s, id, ReadKind) == |Jobs(s.tasks, id, ReadKind)|;
    assert Inflight(s, id, WriteKind) == |Jobs(s.tasks, id, WriteKind)|;
  }

  // Descriptors the reaper never gets to see.

  /** A named descriptor nobody has open and no mark speaks of: the reaper does not find it. */
  ghost predicate Orphan(s: State, id: Id, kind: Kind) {
    Names(s.table, id, kind).Some? && SideUsers(s, id, kind) == 0 && Mark(id, kind) !in s.stale
  }

  /** The step gives a direction of a file its descriptor. */
  predicate GivesFd(s: State, a: Action, id: Id, kind: Kind)
    requires Enabled(s, a)
  {
    a.OpenReturns? && s.tasks[a.task].id == id && s.tasks[a.task].kind == kind
  }

  lemma {:induction false} ScanOrphan(s: State, marks: seq<Mark>, id: Id, kind: Kind)
    ensures SideUsers(ScanFrom(s, marks), id, kind) == SideUsers(s, id, kind)
    ensures Mark(id, kind) !in marks ==> Names(ScanFrom(s, marks).table, id, kind) == Names(s.table, id, kind)
    ensures Mark(id, kind) !in marks ==> Mark(id, kind) !in ScanLeft(s, marks)
    ensures Mark(id, kind) in marks && Mark(id, kind) !in ScanLeft(s, marks) ==>
              Names(ScanFrom(s, marks).table, id, kind).None?
  {
    if marks != [] {
      var rest, m := marks[..|marks| - 1], marks[|marks| - 1];
      assert marks == rest + [m];
      ScanOrphan(s, rest, id, kind);
    }
  }

  /**
   * Exactly when a step leaves such a descriptor: when an operation's open returns after the file's
   * last close and there is no mark yet; or when there was one, and the step is neither a hint on the
   * file that marks it or gives it a user, nor the removal of the entry that names it.
   */
  lemma {:induction false} OrphanExact(s: State, a: Action, id: Id, kind: Kind)
    requires Inv(s) && Enabled(s, a)
    ensures Orphan(Apply(s, a), id, kind) <==>
              if GivesFd(s, a, id, kind) then SideUsers(s, id, kind) == 0 && Mark(id, kind) !in s.stale
              else
                && Orphan(s, id, kind)
                && !(a.OpenFile? && a.id == id && Uses(a.mode, kind))
                && !(a.CloseFile? && a.id == id)
                && !(a.RemoveEntries? && s.table[id].IsFree())
  {
    match a
    case OpenFile(i, mode) =>
      assert SideUsers(s, id, kind) >= 0;
    case CloseFile(i, mode) => CloseExact(s, i, mode, id, kind);
    case ScanMarks => ScanOrphan(s, s.stale, id, kind);
    case _ =>
  }

  /** Open on the device, but named by no entry and not about to be closed. */
  ghost predicate Leaked(s: State, fd: Fd) {
    fd in s.device && fd !in s.closing && forall id, kind :: Names(s.table, id, kind) != Some(fd)
  }

  /**
   * The step forgets a descriptor: an open returns to a direction that has one by now, or the reaper
   * removes an entry that still names it.
   */
  ghost predicate Forgets(s: State, a: Action, fd: Fd) {
    match a
    case OpenReturns(t, _) => t in s.tasks && Names(s.table, s.tasks[t].id, s.tasks[t].kind) == Some(fd)
    case RemoveEntries =>
      exists id, kind :: id in s.table && s.table[id].IsFree() && Names(s.table, id, kind) == Some(fd)
    case _ => false
  }

  /** A descriptor is leaked exactly by the two steps that forget it, and then stays so. */
  lemma {:induction false} LeakedExact(s: State, a: Action, fd: Fd)
    requires Inv(s) && Enabled(s, a)
    ensures Leaked(Apply(s, a), fd) <==> Leaked(s, fd) || Forgets(s, a, fd)
  {
    match a
    case ScanMarks => ScanLeaked(s, s.stale, fd);
    case OpenReturns(t, fd') =>
      var s', job := Apply(s, a), s.tasks[t];
      assert forall i, k :: Names(s'.table, i, k) == if i == job.id && k == job.kind then Some(fd')
          else Names(s.table, i, k);
    case RemoveEntries =>
      assert forall i, k :: Names(RemoveFree(s).table, i, k) == if i in s.table && s.table[i].IsFree() then None
          else Names(s.table, i, k);
    case CloseFd(_) =>
    case _ => NamesKept(s, a);
  }

  /** In every run: a descriptor is leaked if and only if some earlier step has forgotten it. */
  lemma {:induction false} LeakedInRun(states: seq<State>, actions: seq<Action>, n: nat, fd: Fd)
    requires IsRun(states, actions) && n < |states|
    ensures Leaked(states[n], fd) <==> exists k :: 0 <= k < n && Forgets(states[k], actions[k], fd)
  {
    if n > 0 {
      LeakedInRun(states, actions, n - 1, fd);
      RunKeeps(states, actions, n - 1);
      assert StepAt(states, actions, n - 1);
      LeakedExact(states[n - 1], actions[n - 1], fd);
    }
  }

  lemma {:induction false} NamesKept(s: State, a: Action)
    requires Enabled(s, a) && (a.OpenFile? || a.CloseFile? || a.BeginTask? || a.EndTask? || a.SetBusy?)
    ensures Apply(s, a).device == s.device && Apply(s, a).closing == s.closing
    ensures forall id, kind :: Names(Apply(s, a).table, id, kind) == Names(s.table, id, kind)
  {
    match a
    case OpenFile(i, mode) =>
    case CloseFile(i, mode) =>
    case BeginTask(t, i, kind, flush) =>
    case EndTask(t) =>
    case SetBusy(i, busy) =>
  }

  /** A scan leaves every descriptor named, or puts it among those to be closed. */
  lemma {:induction false} ScanLeaked(s: State, marks: seq<Mark>, fd: Fd)
    ensures Leaked(ScanFrom(s, marks), fd) <==> Leaked(s, fd)
    ensures ScanFrom(s, marks).device == s.device
  {
    if marks != [] {
      var f, m := ScanFrom(s, marks[..|marks| - 1]), marks[|marks| - 1];
      ScanLeaked(s, marks[..|marks| - 1], fd);
      assert Taken(f.table, m).Some? ==> Taken(f.table, m) == Names(f.table, m.id, m.kind);
      var table := ScanMark(f, m).table;
      assert forall i, k :: Names(table, i, k) == if Mark(i, k) == m && Taken(f.table, m).Some? then None
          else Names(f.table, i, k);
    }
  }

  /** The state after some actions. */
  ghost predicate Leads(s: State, actions: seq<Action>, s': State)
    decreases |actions|
  {
    if actions == [] then s' == s else Enabled(s, actions[0]) && Leads(Apply(s, actions[0]), actions[1..], s')
  }

  /**
   * A file is closed while a read of it is opening its descriptor: the reaper drops the entry, and the
   * descriptor stays open.
   */
  lemma {:induction false} LeakAfterClose() returns (actions: seq<Action>, s: State)
    ensures Leads(INITIAL, actions, s) && Leaked(s, 5) && s.opens == multiset{} && s.tasks == map[] && s.table == map[]
  {
    var s1 := Apply(INITIAL, OpenFile(0, Read));
    assert s1.table[0] == Entry(Side(1, None, 0), Side(0, None, 0), false);
    var s2 := Apply(s1, BeginTask(0, 0, ReadKind, false));
    assert s2.table[0] == Entry(Side(1, None, 1), Side(0, None, 0), false);
    var s3 := Apply(s2, CloseFile(0, Read));
    assert s3.table[0] == Entry(Side(0, None, 1), Side(0, None, 0), false) && s3.stale == [];
    actions, s := LeakAfterReturn(s3);
    actions := Prepend(s2, CloseFile(0, Read), actions, s);
    actions := Prepend(s1, BeginTask(0, 0, ReadKind, false), actions, s);
    actions := Prepend(INITIAL, OpenFile(0, Read), actions, s);
  }

  lemma {:induction false} Prepend(s: State, a: Action, actions: seq<Action>, s': State) returns (all: seq<Action>)
    requires Enabled(s, a) && Leads(Apply(s, a), actions, s')
    ensures Leads(s, all, s')
  {
    all := [a] + actions;
    assert all[1..] == actions;
  }

  lemma {:induction false} LeakAfterReturn(s0: State) returns (actions: seq<Action>, s: State)
    requires s0.table == map[0 := Entry(Side(0, None, 1), Side(0, None, 0), false)] && s0.stale == []
              && s0.opens == multiset{}
    requires s0.tasks == map[0 := Opening(0, ReadKind, true)] && s0.device == {} && s0.closing == {}
    ensures Leads(s0, actions, s) && Leaked(s, 5) && s.opens == multiset{} && s.tasks == map[] && s.table == map[]
  {
    var s1 := Apply(s0, OpenReturns(0, 5));
    assert s1.table[0] == Entry(Side(0, Some(5), 1), Side(0, None, 0), false);
    var s2 := Apply(s1, EndTask(0));
    assert s2.table[0] == Entry(Side(0, Some(5), 0), Side(0, None, 0), false);
    var s3 := Apply(s2, ScanMarks);
    assert s3 == s2;
    s := Apply(s3, RemoveEntries);
    actions := Prepend(s3, RemoveEntries, [], s);
    actions := Prepend(s2, ScanMarks, actions, s);
    actions := Prepend(s1, EndTask(0), actions, s);
    actions := Prepend(s0, OpenReturns(0, 5), actions, s);
  }

  /**
   * A first read over two pages opens the file twice: the first descriptor to come back is forgotten
   * when the second does.
   */
  lemma {:induction false} LeakByOverwriting() returns (actions: seq<Action>, s: State)
    ensures Leads(INITIAL, actions, s) && Leaked(s, 5) && Names(s.table, 0, ReadKind) == Some(6)
  {
    var s1 := Apply(INITIAL, OpenFile(0, Read));
    assert s1.table[0] == Entry(Side(1, None, 0), Side(0, None, 0), false);
    var s2 := Apply(s1, BeginTask(0, 0, ReadKind, false));
    assert s2.table[0] == Entry(Side(1, None, 1), Side(0, None, 0), false);
    var s3 := Apply(s2, BeginTask(1, 0, ReadKind, false));
    assert s3.table == map[0 := Entry(Side(1, None, 2), Side(0, None, 0), false)];
    actions, s := LeakBySecondReturn(s3);
    actions := Prepend(s2, BeginTask(1, 0, ReadKind, false), actions, s);
    actions := Prepend(s1, BeginTask(0, 0, ReadKind, false), actions, s);
    actions := Prepend(INITIAL, OpenFile(0, Read), actions, s);
  }

  lemma {:induction false} LeakBySecondReturn(s0: State) returns (actions: seq<Action>, s: State)
    requires s0.table == map[0 := Entry(Side(1, None, 2), Side(0, None, 0), false)] && s0.closing == {}
    requires s0.tasks == map[0 := Opening(0, ReadKind, true), 1 := Opening(0, ReadKind, true)] && s0.device == {}
    ensures Leads(s0, actions, s) && Leaked(s, 5) && Names(s.table, 0, ReadKind) == Some(6)
  {
    var s1 := Apply(s0, OpenReturns(0, 5));
    assert s1.table == map[0 := Entry(Side(1, Some(5), 2), Side(0, None, 0), false)];
    s := Apply(s1, OpenReturns(1, 6));
    assert s.table == map[0 := Entry(Side(1, Some(6), 2), Side(0, None, 0), false)];
    actions := Prepend(s1, OpenReturns(1, 6), [], s);
    actions := Prepend(s0, OpenReturns(0, 5), actions, s);
  }
}
