/**
 * The page steps of madbfs/src/cache.cpp (`flush_at`, `evict`, `read_at`, `write_at`) on the cache's
 * fields. The page list holds keys and the pages themselves sit in `table`, under the file and page
 * index their entry maps to them; the other fields of a lookup entry are kept in `entries`, `dirty`,
 * `readFds` and `writeFds`.
 *
 * Every step also carries the `View` it is judged by: the flat file each id stands for, the ids of
 * which it has lost bytes, the history of accesses and invalidations, and the number of device calls
 * that were refused.
 */
module CacheSteps {
  import opened Bytes
  import opened Tiling
  import opened PageModel
  import opened Recency
  import opened CacheModel
  import opened Transfer

  datatype Errc = BadFileDescriptor | DeviceError

  datatype State = State(
    pageSize: nat,
    maxPages: nat,
    lru: seq<PageKey>,
    table: Table,
    entries: set<Id>,
    dirty: set<Id>,
    readFds: map<Id, nat>,
    writeFds: map<Id, nat>,
    device: Files,
    reliable: bool)    // the device refuses no call

  datatype View = View(logical: Files, damaged: set<Id>, history: seq<Event>, faults: nat)

  /** What holds even between the steps of an operation. */
  ghost predicate Sound(s: State, v: View) {
    && 0 < s.pageSize <= 0xFFFF_FFFF
    && 0 < s.maxPages
    && |s.lru| <= s.maxPages
    && s.dirty <= s.entries <= v.logical.Keys && s.table.Keys <= s.entries
    && Inv(s.pageSize, s.lru, s.table, s.dirty, s.device, v.logical)
  }

  /** The accessed pages, latest use first. */
  ghost function Recents(s: State, v: View): seq<PageKey> { RecentOf(v.history, s.maxPages) }

  /** Between operations the list is the `maxPages` most recently used pages, most recent first. */
  ghost predicate Valid(s: State, v: View) { Sound(s, v) && Listed(s.lru, v.history, s.maxPages) }

  /** A reader of the file sees all of it. */
  ghost predicate Whole(s: State, v: View, id: Id) {
    FileOk(s.pageSize, PagesOf(s.table, id), Content(s.device, id), Content(v.logical, id))
  }

  /** A reader of page i of the file finds something at byte o of it. */
  predicate ShownIn(s: State, id: Id, i: nat, o: nat) {
    Shown(s.pageSize, PagesOf(s.table, id), Content(s.device, id), i, o)
  }

  /** These files aside, all are the same as before. */
  ghost predicate SameBut(v: View, v': View, except: set<Id>) {
    && v.logical.Keys <= v'.logical.Keys
    && forall id {:trigger Content(v'.logical, id)} | id !in except :: Content(v'.logical, id) == Content(v.logical, id)
  }

  /** What a reader finds for byte j of a file: the cached byte, else the device's. */
  function SeenIn(s: State, id: Id, j: nat): int
    requires s.pageSize > 0
  {
    Seen(s.pageSize, PagesOf(s.table, id), Content(s.device, id), j)
  }

  /**
   * What a step does to files: those in `but` aside, all stay the same and show all they did, unless
   * they have lost bytes. That happens only when the device refuses a call, which a reliable one does
   * not.
   */
  ghost predicate Quiet(s: State, v: View, s': State, v': View, but: set<Id>) {
    && v.damaged <= v'.damaged && v.faults <= v'.faults && (v'.faults == v.faults ==> v'.damaged == v.damaged)
    && (s.reliable ==> v'.faults == v.faults)
    && SameBut(v, v', v'.damaged + but)
    && AllGrow(s.pageSize, s.table, s.device, s'.table, s'.device, v'.damaged + but)
  }

  lemma {:induction false} QuietOn(s0: State, v0: View, s1: State, v1: View, s2: State, v2: View, but: set<Id>)
    requires Quiet(s0, v0, s1, v1, but) && Quiet(s1, v1, s2, v2, but)
    requires s1.pageSize == s0.pageSize && s1.reliable == s0.reliable
    ensures Quiet(s0, v0, s2, v2, but)
  {
    AllGrowOn(s0.pageSize, s0.table, s0.device, s1.table, s1.device, s2.table, s2.device, v1.damaged + but,
        v2.damaged + but);
  }

  lemma {:induction false} QuietMore(s: State, v: View, s': State, v': View, but: set<Id>, more: set<Id>)
    requires Quiet(s, v, s', v', but) && but <= more
    ensures Quiet(s, v, s', v', more)
  {
    AllGrowMore(s.pageSize, s.table, s.device, s'.table, s'.device, v'.damaged + but, v'.damaged + more);
  }

  /** A file that is the same and shows all it did is still seen as a whole. */
  lemma {:induction false} WholeKept(s: State, v: View, s': State, v': View, id: Id, but: set<Id>)
    requires Quiet(s, v, s', v', but) && Sound(s', v') && s'.pageSize == s.pageSize
    requires Whole(s, v, id) && id !in v'.damaged && id !in but
    ensures Whole(s', v', id)
  {
    assert FileGrows(s.pageSize, s.table, s.device, s'.table, s'.device, id);
    assert FileStands(s.pageSize, s'.table, s'.device, v'.logical, id);
    FileOkKept(s.pageSize, PagesOf(s.table, id), Content(s.device, id), PagesOf(s'.table, id), Content(s'.device, id),
        Content(v.logical, id));
  }

  /** Nothing but the pages, the device and the descriptors has changed. */
  ghost predicate Frame(s: State, s': State) {
    && s'.pageSize == s.pageSize && s'.maxPages == s.maxPages
    && s'.entries == s.entries && s'.dirty == s.dirty && s'.reliable == s.reliable
  }

  /**
   * `flush_at`: pushes the page in as many device writes as the device makes of it, each of any
   * positive size, or stops at a device error. However it is cut up, the pieces amount to one write
   * of the bytes pushed so far.
   */
  method FlushAt(ps: nat, dev: seq<byte>, index: nat, page: PageVal, reliable: bool)
    returns (dev': seq<byte>, ok: bool, ghost pushed: nat)
    ensures pushed <= |page.content| && (ok <==> pushed == |page.content|) && (reliable ==> ok)
    ensures dev' == Pushed(ps, page, dev, index, pushed)
    ensures ok ==> dev' == Pushed(ps, page, dev, index, |page.content|)
  {
    var written, base := 0, index * ps;
    BaseIsProduct(ps, index);
    dev' := dev;
    while written < |page.content|
      invariant written <= |page.content|
      invariant dev' == Splice(dev, base, page.content[..written])
    {
      var refused: bool := *;
      if refused && !reliable {
        return dev', false, written;
      }
      var n: nat :| written < n <= |page.content|;
      SpliceOn(dev, base, page.content, written, n);
      dev' := Splice(dev', base + written, page.content[written..n]);
      written := n;
    }
    return dev', true, written;
  }

  /** Pushes a page that is about to go, opening the write descriptor if there is none. */
  method ForcePush(s: State, ghost v: View, key: PageKey, page: PageVal)
    returns (s': State, ghost v': View, ghost pushed: nat)
    ensures s' == s.(device := s'.device, writeFds := s'.writeFds) && pushed <= |page.content|
    ensures s'.device == s.device[key.id := Pushed(s.pageSize, page, Content(s.device, key.id), key.index, pushed)]
    ensures v' == if pushed == |page.content| then v else v.(damaged := v.damaged + {key.id}, faults := v.faults + 1)
    ensures s.reliable ==> v' == v
  {
    var fd: nat := *;
    var fds := if key.id in s.writeFds then s.writeFds else s.writeFds[key.id := fd];
    var dev, ok, n := FlushAt(s.pageSize, Content(s.device, key.id), key.index, page, s.reliable);
    pushed := n;
    s' := s.(device := s.device[key.id := dev], writeFds := fds);
    v' := if ok then v else v.(damaged := v.damaged + {key.id}, faults := v.faults + 1);
  }

  /** Bytes that were read from a page that is not cached: the device has them still. */
  ghost predicate Fetched(s: State, key: PageKey, content: seq<byte>) {
    key !in s.lru && Begins(content, Content(s.device, key.id), Base(s.pageSize, key.index), s.pageSize)
  }

  /** One round of `evict`: the page at the back is unlinked, pushed if dirty, and forgotten. */
  method EvictLast(s: State, ghost v: View, ghost key: PageKey, ghost content: seq<byte>)
    returns (s': State, ghost v': View)
    requires Sound(s, v) && s.lru != [] && Fetched(s, key, content)
    ensures Sound(s', v') && Frame(s, s') && Quiet(s, v, s', v', {}) && Fetched(s', key, content)
    ensures v'.history == v.history
    ensures s'.lru == s.lru[..|s.lru| - 1]
  {
    var victim := s.lru[|s.lru| - 1];
    assert Cached(s.table, victim) && !Cached(s.table, key);
    var page := s.table[victim.id][victim.index];
    ghost var pushed := 0;
    s', v' := s, v;
    if page.dirty {
      s', v', pushed := ForcePush(s, v, victim, page);
    }
    s' := s'.(lru := s.lru[..|s.lru| - 1], table := s.table[victim.id := s.table[victim.id] - {victim.index}]);
    ghost var logical := EvictedView(s, v, s', v', victim, page, pushed);
    v' := v'.(logical := logical);
    EvictFetched(s, key, content, victim, page, pushed);
  }

  lemma {:induction false} EvictedView(s: State, v: View, s': State, v': View, victim: PageKey, page: PageVal, n: nat)
    returns (logical: Files)
    requires Sound(s, v) && s.lru != [] && victim == s.lru[|s.lru| - 1] && Cached(s.table, victim)
    requires page == s.table[victim.id][victim.index] && n <= |page.content|
    requires s' == s.(device := EvictedDevice(s.pageSize, s.device, victim, page, n), writeFds := s'.writeFds,
              lru := s.lru[..|s.lru| - 1], table := s.table[victim.id := s.table[victim.id] - {victim.index}])
    requires var failed := page.dirty && n < |page.content|;
             v' == (if failed then v.(damaged := v.damaged + {victim.id}, faults := v.faults + 1) else v)
                 && (s.reliable ==> !failed)
    ensures Sound(s', v'.(logical := logical)) && Quiet(s, v, s', v'.(logical := logical), {})
  {
    logical := EvictKeeps(s.pageSize, s.lru, s.table, s.dirty, s.device, v.logical, n);
    AllGrowMore(s.pageSize, s.table, s.device, s'.table, s'.device,
        if page.dirty && n < |page.content| then {victim.id} else {}, v'.damaged + {});
  }

  lemma {:induction false} EvictFetched(s: State, key: PageKey, content: seq<byte>, victim: PageKey, page: PageVal,
                                        n: nat)
    requires Fetched(s, key, content) && victim in s.lru && n <= |page.content| <= s.pageSize
    ensures Begins(content, Content(EvictedDevice(s.pageSize, s.device, victim, page, n), key.id),
                Base(s.pageSize, key.index), s.pageSize)
  {
    if page.dirty && victim.id == key.id {
      PushBegins(s.pageSize, page, Content(s.device, key.id), victim.index, n, key.index, content);
    }
  }

  /** `evict`: drops pages from the back of the list, pushing the dirty ones first. */
  method Evict(s: State, ghost v: View, size: nat, ghost key: PageKey, ghost content: seq<byte>)
    returns (s': State, ghost v': View)
    requires Sound(s, v) && Fetched(s, key, content)
    ensures Sound(s', v') && Frame(s, s') && Quiet(s, v, s', v', {}) && Fetched(s', key, content)
    ensures v'.history == v.history
    ensures s'.lru == s.lru[..Max(0, |s.lru| - size)]
  {
    s', v' := s, v;
    var left := size;
    QuietSelf(s, v, {});
    while left > 0 && s'.lru != []
      invariant 0 <= left <= size && |s'.lru| == |s.lru| - (size - left)
      invariant Sound(s', v') && Frame(s, s') && Quiet(s, v, s', v', {}) && Fetched(s', key, content)
      invariant v'.history == v.history
      invariant s'.lru == s.lru[..|s'.lru|]
    {
      left := left - 1;
      ghost var s1, v1 := s', v';
      s', v' := EvictLast(s', v', key, content);
      QuietOn(s, v, s1, v1, s', v', {});
    }
    assert |s'.lru| == Max(0, |s.lru| - size);
  }

  /** Makes room for one more page. */
  method MakeRoom(s: State, ghost v: View, ghost key: PageKey, ghost content: seq<byte>)
    returns (s': State, ghost v': View)
    requires Sound(s, v) && Fetched(s, key, content)
    ensures Sound(s', v') && Frame(s, s') && Quiet(s, v, s', v', {}) && Fetched(s', key, content)
    ensures v'.history == v.history
    ensures s'.lru == s.lru[..Min(|s.lru|, s.maxPages - 1)]
  {
    s', v' := s, v;
    QuietSelf(s, v, {});
    if |s.lru| + 1 > s.maxPages {
      s', v' := Evict(s, v, |s.lru| + 1 - s.maxPages, key, content);
    }
  }

  lemma {:induction false} QuietSelf(s: State, v: View, but: set<Id>)
    ensures Quiet(s, v, s, v, but)
  {
    forall id: Id ensures FileGrows(s.pageSize, s.table, s.device, s.table, s.device, id) { }
  }

  /** The page becomes the most recently used one. */
  method Put(s: State, ghost v: View, key: PageKey, page: PageVal, ghost file: seq<byte>, ghost list: seq<PageKey>)
    returns (s': State, ghost v': View)
    requires Sound(s, v) && PageFine(s.pageSize, page, key.id in s.dirty) && key.id in s.entries
    requires Listed(list, v.history, s.maxPages) && Trimmed(s.lru, list, key, s.maxPages)
    requires Stands(s.pageSize, PagesOf(s.table, key.id)[key.index := page], Content(s.device, key.id), file)
    ensures Valid(s', v') && Frame(s, s')
    ensures s'.table == s.table[key.id := PagesOf(s.table, key.id)[key.index := page]] && s'.device == s.device
    ensures v' == v.(history := v.history + [Use(key)], logical := v.logical[key.id := file])
  {
    ListedUse(s.lru, list, v.history, s.maxPages, key);
    PutKeeps(s.pageSize, s.lru, s.table, s.dirty, s.device, v.logical, key, page, file);
    s' := s.(lru := Promote(s.lru, key), table := s.table[key.id := PagesOf(s.table, key.id)[key.index := page]]);
    v' := v.(history := v.history + [Use(key)], logical := v.logical[key.id := file]);
  }

  /** The page may be put in: the file is the same with it, and shows all it did. */
  ghost predicate Loaded(s: State, s': State, v': View, key: PageKey, page: PageVal) {
    var id, pages := key.id, PagesOf(s'.table, key.id)[key.index := page];
    && PageFine(s.pageSize, page, id in s.dirty)
    && Stands(s.pageSize, pages, Content(s'.device, id), Content(v'.logical, id))
    && (id !in v'.damaged ==>
          Grows(s.pageSize, PagesOf(s.table, id), Content(s.device, id), pages, Content(s'.device, id)))
  }

  /** Reads an uncached page from the device and makes room for it. */
  method Load(s: State, ghost v: View, key: PageKey) returns (s': State, ghost v': View, page: PageVal)
    requires Sound(s, v) && key !in s.lru
    ensures Sound(s', v') && Frame(s, s') && Quiet(s, v, s', v', {}) && v'.history == v.history
    ensures Trimmed(s'.lru, s.lru, key, s.maxPages) && Loaded(s, s', v', key, page)
    ensures key.index !in PagesOf(s.table, key.id)
  {
    BaseIsProduct(s.pageSize, key.index);
    var content := Window(Content(s.device, key.id), key.index * s.pageSize, s.pageSize);
    page := PageVal(content, false);
    assert !Cached(s.table, key);
    FetchBegins(s.pageSize, Content(s.device, key.id), Base(s.pageSize, key.index));
    s', v' := MakeRoom(s, v, key, content);
    assert !Cached(s'.table, key);
    assert FileStands(s.pageSize, s'.table, s'.device, v'.logical, key.id);
    assert key.id !in v'.damaged ==> FileGrows(s.pageSize, s.table, s.device, s'.table, s'.device, key.id);
    FetchStep(s.pageSize, PagesOf(s.table, key.id), Content(s.device, key.id), PagesOf(s'.table, key.id),
        Content(s'.device, key.id), Content(v'.logical, key.id), key.index, content);
  }

  /** The page is found, or fetched from the device; opening the file or reading it may fail. */
  method Find(s: State, ghost v: View, key: PageKey) returns (s': State, ghost v': View, r: Result<PageVal, Errc>)
    requires Sound(s, v)
    ensures Sound(s', v') && Frame(s, s') && Quiet(s, v, s', v', {}) && v'.history == v.history
    ensures if r.Ok? then Trimmed(s'.lru, s.lru, key, s.maxPages) else s'.lru == s.lru
    ensures key in s.lru || v'.faults == v.faults ==> r.Ok?
    ensures r.Ok? ==> Loaded(s, s', v', key, r.value)
  {
    QuietSelf(s, v, {});
    if key in s.lru {
      assert Cached(s.table, key);
      var page := s.table[key.id][key.index];
      assert PagesOf(s.table, key.id)[key.index := page] == PagesOf(s.table, key.id);
      assert FileStands(s.pageSize, s.table, s.device, v.logical, key.id);
      return s, v, Ok(page);
    }
    s' := s;
    if key.id !in s.readFds {
      var refused: bool := *;
      if refused && !s.reliable {
        return s, v.(faults := v.faults + 1), Err(DeviceError);
      }
      var fd: nat := *;
      s' := s.(readFds := s.readFds[key.id := fd]);
    }
    var refused: bool := *;
    if refused && !s.reliable {
      return s', v.(faults := v.faults + 1), Err(DeviceError);
    }
    var page;
    s', v', page := Load(s', v, key);
    return s', v', Ok(page);
  }

  /**
   * What a reader gets from page i of a file: the beginning of what the file has there, everything he
   * would have seen before, and all of it if all of the file was seen.
   */
  ghost predicate Gets(s: State, v: View, id: Id, i: nat, content: seq<byte>) {
    var file, lo := Content(v.logical, id), Base(s.pageSize, i);
    && Begins(content, file, lo, s.pageSize)
    && (forall o: nat {:trigger ShownIn(s, id, i, o)} | o < s.pageSize && ShownIn(s, id, i, o) :: o < |content|)
    && (Whole(s, v, id) ==> Holds(content, file, lo, s.pageSize))
  }

  /** The first half of `read_at`: the page is found or fetched, and becomes the most recent one. */
  method Access(s: State, ghost v: View, key: PageKey) returns (s': State, ghost v': View, r: Result<PageVal, Errc>)
    requires Valid(s, v) && key.id in s.entries
    ensures Valid(s', v') && Frame(s, s') && Quiet(s, v, s', v', {})
    ensures v'.history == if r.Ok? then v.history + [Use(key)] else v.history
    ensures key in s.lru || v'.faults == v.faults ==> r.Ok?
    ensures r.Ok? ==> |r.value.content| <= s.pageSize
    ensures r.Ok? && key.id !in v'.damaged ==> Gets(s, v, key.id, key.index, r.value.content)
  {
    s', v', r := Find(s, v, key);
    if r.Ok? {
      ghost var file, pages := Content(v'.logical, key.id), PagesOf(s'.table, key.id)[key.index := r.value];
      if key.id !in v'.damaged {
        LoadedGets(s, v, s', v', key, r.value);
      }
      GrowsPut(s.pageSize, s.table, s.device, s'.table, s'.device, key.id, pages, v'.damaged + {});
      ghost var v1 := v';
      s', v' := Put(s', v', key, r.value, file, s.lru);
      assert forall id {:trigger Content(v'.logical, id)} :: Content(v'.logical, id) == Content(v1.logical, id);
    }
  }

  lemma {:induction false} LoadedGets(s: State, v: View, s': State, v': View, key: PageKey, page: PageVal)
    requires Quiet(s, v, s', v', {}) && Loaded(s, s', v', key, page) && key.id !in v'.damaged
    ensures Gets(s, v, key.id, key.index, page.content)
  {
    var id, pages := key.id, PagesOf(s'.table, key.id)[key.index := page];
    var dev', file := Content(s'.device, id), Content(v.logical, id);
    assert PageStands(s.pageSize, pages, dev', file, key.index);
    forall o: nat | o < s.pageSize && ShownIn(s, id, key.index, o) ensures o < |page.content| {
      assert Shown(s.pageSize, pages, dev', key.index, o);
    }
    if Whole(s, v, id) {
      FileOkKept(s.pageSize, PagesOf(s.table, id), Content(s.device, id), pages, dev', file);
      CachedHolds(s.pageSize, pages, dev', file, key.index);
    }
  }
}
