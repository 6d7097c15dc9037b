/**
 * What every operation of the page cache keeps, over all files at once: the page list and the
 * per-file page maps name the same pages, and every file's pages and device copy stand for its flat
 * contents. A file the maps do not mention has no cached pages, and no bytes.
 */
module CacheModel {
  import opened Bytes
  import opened Tiling
  import opened PageModel
  import opened Recency

  type Id = nat

  type Table = map<Id, Pages>

  type Files = map<Id, seq<byte>>

  function PagesOf(table: Table, id: Id): Pages { if id in table then table[id] else map[] }

  function Content(files: Files, id: Id): seq<byte> { if id in files then files[id] else [] }

  predicate Cached(table: Table, k: PageKey) { k.index in PagesOf(table, k.id) }

  /** Pages fit the page size, and a dirty page makes its file's entry dirty. */
  ghost predicate PageFine(ps: nat, page: PageVal, entryDirty: bool) {
    |page.content| <= ps && (page.dirty ==> entryDirty)
  }

  /** The list and the page maps name the same pages, each once. */
  ghost predicate Coherent(ps: nat, lru: seq<PageKey>, table: Table, dirty: set<Id>) {
    && Distinct(lru)
    && (forall k :: k in lru <==> Cached(table, k))
    && (forall k | Cached(table, k) :: PageFine(ps, PagesOf(table, k.id)[k.index], k.id in dirty))
  }

  ghost predicate FileStands(ps: nat, table: Table, device: Files, logical: Files, id: Id) {
    Stands(ps, PagesOf(table, id), Content(device, id), Content(logical, id))
  }

  ghost predicate Refined(ps: nat, table: Table, device: Files, logical: Files) {
    forall id: Id :: FileStands(ps, table, device, logical, id)
  }

  ghost predicate Inv(ps: nat, lru: seq<PageKey>, table: Table, dirty: set<Id>, device: Files, logical: Files) {
    Coherent(ps, lru, table, dirty) && Refined(ps, table, device, logical)
  }

  ghost predicate FileGrows(ps: nat, table: Table, device: Files, table': Table, device': Files, id: Id) {
    Grows(ps, PagesOf(table, id), Content(device, id), PagesOf(table', id), Content(device', id))
  }

  /** Of every file but these, whatever was seen before is seen still. */
  ghost predicate AllGrow(ps: nat, table: Table, device: Files, table': Table, device': Files, lost: set<Id>) {
    forall id: Id {:trigger FileGrows(ps, table, device, table', device', id)} | id !in lost ::
      FileGrows(ps, table, device, table', device', id)
  }

  lemma {:induction false} AllGrowOn(ps: nat, t0: Table, d0: Files, t1: Table, d1: Files, t2: Table, d2: Files,
                                     lost: set<Id>, lost': set<Id>)
    requires AllGrow(ps, t0, d0, t1, d1, lost) && AllGrow(ps, t1, d1, t2, d2, lost') && lost <= lost'
    ensures AllGrow(ps, t0, d0, t2, d2, lost')
  {
    forall id: Id | id !in lost' ensures FileGrows(ps, t0, d0, t2, d2, id) {
      assert FileGrows(ps, t0, d0, t1, d1, id) && FileGrows(ps, t1, d1, t2, d2, id);
      GrowsOn(ps, PagesOf(t0, id), Content(d0, id), PagesOf(t1, id), Content(d1, id), PagesOf(t2, id),
          Content(d2, id));
    }
  }

  lemma {:induction false} AllGrowMore(ps: nat, t0: Table, d0: Files, t1: Table, d1: Files, lost: set<Id>,
                                       lost': set<Id>)
    requires AllGrow(ps, t0, d0, t1, d1, lost) && lost <= lost'
    ensures AllGrow(ps, t0, d0, t1, d1, lost')
  {
  }

  lemma {:induction false} GrowsOn(ps: nat, p0: Pages, d0: seq<byte>, p1: Pages, d1: seq<byte>, p2: Pages,
                                   d2: seq<byte>)
    requires Grows(ps, p0, d0, p1, d1) && Grows(ps, p1, d1, p2, d2)
    ensures Grows(ps, p0, d0, p2, d2)
  {
    forall i: nat, o: nat | o < ps && Shown(ps, p0, d0, i, o) ensures Shown(ps, p2, d2, i, o) {
      assert Shown(ps, p1, d1, i, o);
    }
  }

  /** A step on one file keeps what every other file stands for and shows. */
  lemma {:induction false} RefinedElsewhere(ps: nat, table: Table, device: Files, logical: Files, id: Id,
                                            pages: Pages, dev: seq<byte>, file: seq<byte>)
    requires Refined(ps, table, device, logical) && Stands(ps, pages, dev, file)
    ensures Refined(ps, table[id := pages], device[id := dev], logical[id := file])
  {
    var table', device', logical' := table[id := pages], device[id := dev], logical[id := file];
    forall i: Id ensures FileStands(ps, table', device', logical', i) {
      assert FileStands(ps, table, device, logical, i);
    }
  }

  lemma {:induction false} GrowsElsewhere(ps: nat, table: Table, device: Files, id: Id, pages: Pages, dev: seq<byte>,
                                          lost: set<Id>)
    requires id in lost || Grows(ps, PagesOf(table, id), Content(device, id), pages, dev)
    ensures AllGrow(ps, table, device, table[id := pages], device[id := dev], lost)
  {
    forall i: Id | i !in lost ensures FileGrows(ps, table, device, table[id := pages], device[id := dev], i) {
    }
  }

  /** As far as a step was for one file, it is enough to look at that file. */
  lemma {:induction false} GrowsPut(ps: nat, t0: Table, d0: Files, table: Table, device: Files, id: Id, pages: Pages,
                                    lost: set<Id>)
    requires AllGrow(ps, t0, d0, table, device, lost)
    requires id in lost || Grows(ps, PagesOf(t0, id), Content(d0, id), pages, Content(device, id))
    ensures AllGrow(ps, t0, d0, table[id := pages], device, lost)
  {
    forall i: Id | i !in lost ensures FileGrows(ps, t0, d0, table[id := pages], device, i) {
      assert FileGrows(ps, t0, d0, table, device, i);
    }
  }

  lemma {:induction false} SameGrow(ps: nat, t0: Table, d0: Files, table: Table, device: Files, device': Files,
                                    lost: set<Id>)
    requires AllGrow(ps, t0, d0, table, device, lost) && forall i :: Content(device, i) == Content(device', i)
    ensures AllGrow(ps, t0, d0, table, device', lost)
  {
    forall i: Id | i !in lost ensures FileGrows(ps, t0, d0, table, device', i) {
      assert FileGrows(ps, t0, d0, table, device, i);
    }
  }

  lemma {:induction false} SameFiles(ps: nat, table: Table, device: Files, device': Files, logical: Files,
                                     logical': Files)
    requires Refined(ps, table, device, logical)
    requires forall i :: Content(device, i) == Content(device', i) && Content(logical, i) == Content(logical', i)
    ensures Refined(ps, table, device', logical')
  {
    forall i: Id ensures FileStands(ps, table, device', logical', i) {
      assert FileStands(ps, table, device, logical, i);
    }
  }

  /** The device after the eviction of a page of which n bytes were pushed, if it was dirty. */
  function EvictedDevice(ps: nat, device: Files, k: PageKey, page: PageVal, n: nat): Files
    requires n <= |page.content|
  {
    if page.dirty then device[k.id := Pushed(ps, page, Content(device, k.id), k.index, n)] else device
  }

  /** The file after one of its pages is evicted: another one if the page was not pushed as a whole. */
  lemma {:induction false} EvictedFile(ps: nat, pages: Pages, dev: seq<byte>, file: seq<byte>, index: nat, n: nat)
    returns (file': seq<byte>)
    requires Stands(ps, pages, dev, file) && index in pages && n <= |pages[index].content|
    ensures var page := pages[index];
            var dev' := if page.dirty then Pushed(ps, page, dev, index, n) else dev;
            && Stands(ps, pages - {index}, dev', file')
            && (!page.dirty || n == |page.content| ==> file' == file && Grows(ps, pages, dev, pages - {index}, dev'))
  {
    var page := pages[index];
    file' := file;
    if !page.dirty {
      DropStep(ps, pages, dev, file, index);
    } else if n == |page.content| {
      EvictStep(ps, pages, dev, file, index);
    } else {
      var dev' := Pushed(ps, page, dev, index, n);
      PushStep(ps, pages, dev, file, index, n);
      forall i: nat | i in pages
        ensures |pages[i].content| <= ps && (!pages[i].dirty ==> Begins(pages[i].content, dev', Base(ps, i), ps))
      {
        assert PageStands(ps, pages, dev', file, i);
      }
      file' := SomeFile(ps, pages - {index}, dev');
    }
  }

  /**
   * Evicting the last page of the list: a clean page is dropped, a dirty one is pushed first, as far
   * as the device takes it. If the push failed, the file is another one than before; otherwise every
   * file stands for the same bytes, and shows all it did.
   */
  lemma {:induction false} EvictKeeps(ps: nat, lru: seq<PageKey>, table: Table, dirty: set<Id>, device: Files,
                                      logical: Files, n: nat)
    returns (logical': Files)
    requires Inv(ps, lru, table, dirty, device, logical) && lru != []
    requires var k := lru[|lru| - 1]; Cached(table, k) && n <= |table[k.id][k.index].content|
    ensures var k := lru[|lru| - 1];
            var page, table' := table[k.id][k.index], table[k.id := table[k.id] - {k.index}];
            var device', failed := EvictedDevice(ps, device, k, page, n), page.dirty && n < |page.content|;
            && Inv(ps, lru[..|lru| - 1], table', dirty, device', logical')
            && (if failed then logical' == logical[k.id := Content(logical', k.id)] else logical' == logical)
            && AllGrow(ps, table, device, table', device', if failed then {k.id} else {})
  {
    var k := lru[|lru| - 1];
    var id, pages, dev, file := k.id, table[k.id], Content(device, k.id), Content(logical, k.id);
    var page, failed := pages[k.index], pages[k.index].dirty && n < |pages[k.index].content|;
    var device' := EvictedDevice(ps, device, k, page, n);
    assert FileStands(ps, table, device, logical, id);
    var file' := EvictedFile(ps, pages, dev, file, k.index, n);
    logical' := if failed then logical[id := file'] else logical;
    var table' := table[id := pages - {k.index}];
    RefinedElsewhere(ps, table, device, logical, id, pages - {k.index}, Content(device', id), file');
    SameFiles(ps, table', device[id := Content(device', id)], device', logical[id := file'], logical');
    GrowsElsewhere(ps, table, device, id, pages - {k.index}, Content(device', id), if failed then {id} else {});
    SameGrow(ps, table, device, table', device[id := Content(device', id)], device', if failed then {id} else {});
    CoherentDrop(ps, lru, table, dirty);
  }

  lemma {:induction false} CoherentDrop(ps: nat, lru: seq<PageKey>, table: Table, dirty: set<Id>)
    requires Coherent(ps, lru, table, dirty) && lru != [] && Cached(table, lru[|lru| - 1])
    ensures var k := lru[|lru| - 1]; Coherent(ps, lru[..|lru| - 1], table[k.id := table[k.id] - {k.index}], dirty)
  {
    var k := lru[|lru| - 1];
    var table' := table[k.id := table[k.id] - {k.index}];
    forall x ensures Cached(table', x) <==> Cached(table, x) && x != k { }
    DistinctPrefix(lru, |lru| - 1);
    forall i | 0 <= i < |lru| - 1 ensures lru[i] != k { OnlyAt(lru, i, |lru| - 1); }
    assert lru == lru[..|lru| - 1] + [k];
  }

  /**
   * Storing a page under its key and moving the key to the front, on a hit as on a miss. Only this
   * file's bytes can change.
   */
  lemma {:induction false} PutKeeps(ps: nat, lru: seq<PageKey>, table: Table, dirty: set<Id>, device: Files,
                                    logical: Files, k: PageKey, page: PageVal, file: seq<byte>)
    requires Inv(ps, lru, table, dirty, device, logical) && PageFine(ps, page, k.id in dirty)
    requires Stands(ps, PagesOf(table, k.id)[k.index := page], Content(device, k.id), file)
    ensures Inv(ps, Promote(lru, k), table[k.id := PagesOf(table, k.id)[k.index := page]], dirty, device,
              logical[k.id := file])
  {
    var pages' := PagesOf(table, k.id)[k.index := page];
    var table' := table[k.id := pages'];
    RefinedElsewhere(ps, table, device, logical, k.id, pages', Content(device, k.id), file);
    SameFiles(ps, table', device[k.id := Content(device, k.id)], device, logical[k.id := file], logical[k.id := file]);
    PromoteDistinct(lru, k);
    forall x ensures Cached(table', x) <==> Cached(table, x) || x == k { }
    forall x | Cached(table', x) ensures PageFine(ps, PagesOf(table', x.id)[x.index], x.id in dirty) {
      if x != k { assert Cached(table, x); }
    }
  }

  /** Marking entries dirty is always allowed. */
  lemma {:induction false} DirtyKeeps(ps: nat, lru: seq<PageKey>, table: Table, dirty: set<Id>, dirty': set<Id>,
                                      device: Files, logical: Files)
    requires Inv(ps, lru, table, dirty, device, logical) && dirty <= dirty'
    ensures Inv(ps, lru, table, dirty', device, logical)
  {
    forall k | Cached(table, k) ensures PageFine(ps, PagesOf(table, k.id)[k.index], k.id in dirty') {
      assert PageFine(ps, PagesOf(table, k.id)[k.index], k.id in dirty);
    }
  }

  /**
   * A flush of one dirty page, complete or cut short, changes no file and hides nothing: only when it
   * is complete is the page marked clean.
   */
  lemma {:induction false} FlushKeeps(ps: nat, lru: seq<PageKey>, table: Table, dirty: set<Id>, device: Files,
                                      logical: Files, k: PageKey, ok: bool, n: nat)
    requires Inv(ps, lru, table, dirty, device, logical) && Cached(table, k) && table[k.id][k.index].dirty
    requires n <= |table[k.id][k.index].content| && (ok ==> n == |table[k.id][k.index].content|)
    ensures var page := table[k.id][k.index];
            var table' := if ok then table[k.id := table[k.id][k.index := page.(dirty := false)]] else table;
            var device' := device[k.id := Pushed(ps, page, Content(device, k.id), k.index, n)];
            Inv(ps, lru, table', dirty, device', logical) && AllGrow(ps, table, device, table', device', {})
  {
    var id, pages, page, dev, file := k.id, table[k.id], table[k.id][k.index], Content(device, k.id),
        Content(logical, k.id);
    var dev' := Pushed(ps, page, dev, k.index, n);
    var pages': Pages := if ok then pages[k.index := page.(dirty := false)] else pages;
    assert FileStands(ps, table, device, logical, id);
    if ok {
      CleanStep(ps, pages, dev, file, k.index);
    } else {
      PushStep(ps, pages, dev, file, k.index, n);
    }
    RefinedElsewhere(ps, table, device, logical, id, pages', dev', file);
    SameFiles(ps, table[id := pages'], device[id := dev'], device[id := dev'], logical[id := file], logical);
    GrowsElsewhere(ps, table, device, id, pages', dev', {});
    assert table[id := pages] == table;
    forall i | i in pages' ensures PageFine(ps, pages'[i], id in dirty) { assert Cached(table, PageKey(id, i)); }
    CoherentUpdate(ps, lru, table, dirty, id, pages');
  }

  lemma {:induction false} CoherentUpdate(ps: nat, lru: seq<PageKey>, table: Table, dirty: set<Id>, id: Id,
                                          pages: Pages)
    requires Coherent(ps, lru, table, dirty) && id in table && pages.Keys == table[id].Keys
    requires forall i | i in pages :: PageFine(ps, pages[i], id in dirty)
    ensures Coherent(ps, lru, table[id := pages], dirty)
  {
    forall k ensures Cached(table[id := pages], k) <==> Cached(table, k) { }
    forall k | Cached(table[id := pages], k)
        ensures PageFine(ps, PagesOf(table[id := pages], k.id)[k.index], k.id in dirty) {
      if k.id != id { assert Cached(table, k); }
    }
  }

  /** A file without dirty pages need not be marked dirty. */
  lemma {:induction false} CleanEntryKeeps(ps: nat, lru: seq<PageKey>, table: Table, dirty: set<Id>, device: Files,
                                           logical: Files, id: Id)
    requires Inv(ps, lru, table, dirty, device, logical) && forall i: nat :: Saved(PagesOf(table, id), i)
    ensures Inv(ps, lru, table, dirty - {id}, device, logical)
  {
    forall k | Cached(table, k) ensures PageFine(ps, PagesOf(table, k.id)[k.index], k.id in dirty - {id}) {
      assert PageFine(ps, PagesOf(table, k.id)[k.index], k.id in dirty);
      if k.id == id { assert Saved(PagesOf(table, id), k.index); }
    }
  }

  /** A file whose pages are all saved is on the device as it is. */
  lemma {:induction false} SavedFile(ps: nat, table: Table, device: Files, logical: Files, id: Id)
    requires Refined(ps, table, device, logical) && forall i: nat ::
              Saved(PagesOf(table, id), i)
    ensures Content(device, id) == Content(logical, id)
  {
    assert FileStands(ps, table, device, logical, id);
    AllSaved(ps, PagesOf(table, id), Content(device, id), Content(logical, id));
  }

  /** The entry's flag is right: a file that is not marked dirty has no dirty page. */
  lemma {:induction false} UnmarkedSaved(ps: nat, lru: seq<PageKey>, table: Table, dirty: set<Id>, id: Id)
    requires Coherent(ps, lru, table, dirty) && id !in dirty
    ensures forall i: nat :: Saved(PagesOf(table, id), i)
  {
    forall i: nat ensures Saved(PagesOf(table, id), i) {
      if i in PagesOf(table, id) { assert Cached(table, PageKey(id, i)); }
    }
  }

  /** An empty cache stands for the device's files. */
  lemma {:induction false} EmptyRefined(ps: nat, device: Files)
    requires ps > 0
    ensures Inv(ps, [], map[], {}, device, device)
  {
    forall id: Id ensures FileStands(ps, map[], device, device, id) {
      Uncached(ps, Content(device, id));
    }
  }

  /** Forgetting a file: its keys leave the list, and its bytes are what the device has. */
  lemma {:induction false} ForgetKeeps(ps: nat, lru: seq<PageKey>, lru': seq<PageKey>, table: Table, dirty: set<Id>,
                                       device: Files, logical: Files, id: Id)
    requires Inv(ps, lru, table, dirty, device, logical) && ps > 0
    requires Distinct(lru') && forall k :: k in lru' <==> k in lru && k.id != id
    ensures Inv(ps, lru', table - {id}, dirty - {id}, device, logical[id := Content(device, id)])
  {
    var table', dirty', dev := table - {id}, dirty - {id}, Content(device, id);
    Uncached(ps, dev);
    RefinedElsewhere(ps, table, device, logical, id, map[], dev, dev);
    var logical' := logical[id := dev];
    forall i: Id ensures FileStands(ps, table', device, logical', i) {
      assert FileStands(ps, table[id := map[]], device[id := dev], logical', i);
    }
    forall k ensures Cached(table', k) <==> Cached(table, k) && k.id != id { }
    forall k | Cached(table', k) ensures PageFine(ps, PagesOf(table', k.id)[k.index], k.id in dirty') {
      assert Cached(table, k);
    }
  }
}
