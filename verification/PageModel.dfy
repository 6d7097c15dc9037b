/**
 * What the page cache means for one file: the cached pages and the device's copy together stand for
 * one flat file, which is what the device holds once every page has been pushed. `Stands` is that
 * refinement relation, and every lemma below is one kind of step that madbfs/src/cache.cpp takes on a
 * file. A page may end before the file does: then a reader does not see what lies behind it, although
 * the device has it. `FileOk` says that there is no such page.
 */
module PageModel {
  import opened Bytes
  import opened Tiling

  /** A cached page as a value: its first `m_size` bytes and its dirty flag. */
  datatype PageVal = PageVal(content: seq<byte>, dirty: bool)

  type Pages = map<nat, PageVal>

  /** No unsaved bytes for this page: it is not cached, or cached and clean. */
  predicate Saved(pages: Pages, index: nat) { index !in pages || !pages[index].dirty }

  /** How many bytes of the page only the cache has. */
  function Own(pages: Pages, index: nat): nat { if Saved(pages, index) then 0 else |pages[index].content| }

  /** content is exactly what f has on [lo, lo + n). */
  ghost predicate Holds(content: seq<byte>, f: seq<byte>, lo: nat, n: nat) {
    |content| <= n && forall j | lo <= j < lo + n :: At(content, j - lo) == At(f, j)
  }

  /** content is the beginning of what f has on [lo, lo + n). */
  ghost predicate Begins(content: seq<byte>, f: seq<byte>, lo: nat, n: nat) {
    |content| <= n && forall j | lo <= j < lo + |content| :: At(content, j - lo) == At(f, j)
  }

  /** On [lo, hi) the device has the file's bytes, or ends before the zeros the file has there. */
  ghost predicate Beneath(dev: seq<byte>, file: seq<byte>, lo: nat, hi: nat) {
    forall j | lo <= j < hi :: At(dev, j) == At(file, j) || (|dev| <= j && At(file, j) == 0)
  }

  ghost predicate PageStands(ps: nat, pages: Pages, dev: seq<byte>, file: seq<byte>, i: nat) {
    && Beneath(dev, file, Base(ps, i) + Own(pages, i), Base(ps, i) + ps)
    && (i in pages ==> Begins(pages[i].content, file, Base(ps, i), ps))
    && (i in pages && !pages[i].dirty ==> Begins(pages[i].content, dev, Base(ps, i), ps))
  }

  /** Bytes that only the cache has end at n. */
  ghost predicate EndsAt(ps: nat, pages: Pages, n: nat) {
    exists i: nat :: Own(pages, i) > 0 && Base(ps, i) + Own(pages, i) == n
  }

  ghost predicate Stands(ps: nat, pages: Pages, dev: seq<byte>, file: seq<byte>) {
    && ps > 0
    && |dev| <= |file|
    && (forall i: nat {:trigger PageStands(ps, pages, dev, file, i)} :: PageStands(ps, pages, dev, file, i))
    && (|dev| == |file| || EndsAt(ps, pages, |file|))
  }

  /** A reader of the page finds something at byte o of it: in the cached page, else on the device. */
  predicate Shown(ps: nat, pages: Pages, dev: seq<byte>, i: nat, o: nat) {
    if i in pages then o < |pages[i].content| else Base(ps, i) + o < |dev|
  }

  /** A reader sees all of the file. */
  ghost predicate FileOk(ps: nat, pages: Pages, dev: seq<byte>, file: seq<byte>) {
    && Stands(ps, pages, dev, file)
    && forall i: nat, o: nat {:trigger Shown(ps, pages, dev, i, o)} | o < ps && Base(ps, i) + o < |file| ::
        Shown(ps, pages, dev, i, o)
  }

  /** Whatever was seen before is seen still. */
  ghost predicate Grows(ps: nat, pages: Pages, dev: seq<byte>, pages': Pages, dev': seq<byte>) {
    forall i: nat, o: nat {:trigger Shown(ps, pages', dev', i, o)} | o < ps && Shown(ps, pages, dev, i, o) ::
      Shown(ps, pages', dev', i, o)
  }

  lemma {:induction false} HoldsIsWindow(content: seq<byte>, f: seq<byte>, lo: nat, n: nat)
    ensures Holds(content, f, lo, n) <==> content == Window(f, lo, n)
  {
    var w := Window(f, lo, n);
    forall j | lo <= j < lo + n ensures At(w, j - lo) == At(f, j) {
    }
    if Holds(content, f, lo, n) {
      forall j: nat ensures At(content, j) == At(w, j) {
        if j < n { assert At(content, lo + j - lo) == At(f, lo + j); }
      }
      AgreeEverywhere(content, w);
    }
  }

  /** What a reader of page j / ps finds for byte j: the cached byte, else the device's. */
  function Seen(ps: nat, pages: Pages, dev: seq<byte>, j: nat): int
    requires ps > 0
  {
    if j / ps in pages then At(pages[j / ps].content, j % ps) else At(dev, j)
  }

  /** What is seen is the file's. */
  lemma {:induction false} SeenStands(ps: nat, pages: Pages, dev: seq<byte>, file: seq<byte>, j: nat)
    requires Stands(ps, pages, dev, file)
    ensures Seen(ps, pages, dev, j) >= 0 <==> Shown(ps, pages, dev, j / ps, j % ps)
    ensures Seen(ps, pages, dev, j) >= 0 ==> Seen(ps, pages, dev, j) == At(file, j)
  {
    PageOfByte(ps, j);
    assert PageStands(ps, pages, dev, file, j / ps);
  }

  /** The bytes of page i, by their place in the file. */
  lemma {:induction false} SeenShown(ps: nat, pages: Pages, dev: seq<byte>, i: nat, o: nat)
    requires ps > 0 && o < ps
    ensures Seen(ps, pages, dev, Base(ps, i) + o) >= 0 <==> Shown(ps, pages, dev, i, o)
  {
    BaseIsProduct(ps, i);
    DivModUnique(ps, Base(ps, i) + o, i, o);
  }

  /** With `FileOk` a reader sees the file, and where it ends. */
  lemma {:induction false} SeenIsFile(ps: nat, pages: Pages, dev: seq<byte>, file: seq<byte>, j: nat)
    requires FileOk(ps, pages, dev, file)
    ensures Seen(ps, pages, dev, j) == At(file, j)
  {
    SeenStands(ps, pages, dev, file, j);
    PageOfByte(ps, j);
    if j < |file| { assert Shown(ps, pages, dev, j / ps, j % ps); }
  }

  lemma {:induction false} FileOkKept(ps: nat, pages: Pages, dev: seq<byte>, pages': Pages, dev': seq<byte>,
                                      file: seq<byte>)
    requires FileOk(ps, pages, dev, file) && Stands(ps, pages', dev', file) && Grows(ps, pages, dev, pages', dev')
    ensures FileOk(ps, pages', dev', file)
  {
    forall i: nat, o: nat | o < ps && Base(ps, i) + o < |file| ensures Shown(ps, pages', dev', i, o) {
      assert Shown(ps, pages, dev, i, o);
    }
  }

  /** The byte at j: what only the cache has, else what the device has. */
  lemma {:induction false} StandsAt(ps: nat, pages: Pages, dev: seq<byte>, file: seq<byte>, j: nat)
    requires Stands(ps, pages, dev, file)
    ensures j % ps < Own(pages, j / ps) ==> At(file, j) == pages[j / ps].content[j % ps]
    ensures j % ps >= Own(pages, j / ps) && j < |dev| ==> At(file, j) == dev[j]
    ensures j % ps >= Own(pages, j / ps) && j >= |dev| && j < |file| ==> At(file, j) == 0
  {
    PageOfByte(ps, j);
    assert PageStands(ps, pages, dev, file, j / ps);
  }

  lemma {:induction false} EndsBefore(ps: nat, pages: Pages, dev: seq<byte>, file: seq<byte>, g: seq<byte>)
    requires Stands(ps, pages, dev, file) && Stands(ps, pages, dev, g)
    ensures |g| <= |file|
  {
    if |g| != |dev| {
      var i: nat :| Own(pages, i) > 0 && Base(ps, i) + Own(pages, i) == |g|;
      assert PageStands(ps, pages, dev, file, i);
      assert At(pages[i].content, |g| - 1 - Base(ps, i)) == At(file, |g| - 1);
    }
  }

  /** A cache and a device stand for at most one file. */
  lemma {:induction false} FileUnique(ps: nat, pages: Pages, dev: seq<byte>, f: seq<byte>, g: seq<byte>)
    requires Stands(ps, pages, dev, f) && Stands(ps, pages, dev, g)
    ensures f == g
  {
    EndsBefore(ps, pages, dev, f, g);
    EndsBefore(ps, pages, dev, g, f);
    forall j: nat ensures At(f, j) == At(g, j) {
      StandsAt(ps, pages, dev, f, j);
      StandsAt(ps, pages, dev, g, j);
    }
    AgreeEverywhere(f, g);
  }

  /** Once every page is saved, the device holds the file. */
  lemma {:induction false} AllSaved(ps: nat, pages: Pages, dev: seq<byte>, file: seq<byte>)
    requires Stands(ps, pages, dev, file) && forall i: nat :: Saved(pages, i)
    ensures dev == file
  {
    assert forall i: nat :: Own(pages, i) == 0;
    forall j: nat ensures At(dev, j) == At(file, j) {
      StandsAt(ps, pages, dev, file, j);
    }
    AgreeEverywhere(dev, file);
  }

  lemma {:induction false} CachedHolds(ps: nat, pages: Pages, dev: seq<byte>, file: seq<byte>, index: nat)
    requires FileOk(ps, pages, dev, file) && index in pages
    ensures Holds(pages[index].content, file, Base(ps, index), ps)
  {
    assert PageStands(ps, pages, dev, file, index);
    var content, lo := pages[index].content, Base(ps, index);
    forall j | lo <= j < lo + ps ensures At(content, j - lo) == At(file, j) {
      if j < |file| { assert Shown(ps, pages, dev, index, j - lo); }
      if j - lo < |content| { assert At(content, j - lo) == At(file, j); }
    }
  }

  /** Nothing cached: the device alone is the file. */
  lemma {:induction false} Uncached(ps: nat, dev: seq<byte>)
    requires ps > 0
    ensures FileOk(ps, map[], dev, dev)
  {
    forall i: nat ensures PageStands(ps, map[], dev, dev, i) { }
  }

  /** A page that is put in the cache as it was fetched, maybe before other pages were pushed. */
  lemma {:induction false} FetchStep(ps: nat, pages0: Pages, dev0: seq<byte>, pages: Pages, dev: seq<byte>,
                                     file: seq<byte>, index: nat, content: seq<byte>)
    requires Stands(ps, pages, dev, file) && index !in pages && Begins(content, dev, Base(ps, index), ps)
    requires index !in pages0 && content == Window(dev0, Base(ps, index), ps)
    ensures Stands(ps, pages[index := PageVal(content, false)], dev, file)
    ensures Grows(ps, pages0, dev0, pages, dev) ==>
              Grows(ps, pages0, dev0, pages[index := PageVal(content, false)], dev)
  {
    var pages' := pages[index := PageVal(content, false)];
    FetchStands(ps, pages, dev, file, index, content);
    if Grows(ps, pages0, dev0, pages, dev) {
      forall i: nat, o: nat | o < ps && Shown(ps, pages0, dev0, i, o) ensures Shown(ps, pages', dev, i, o) {
        if i != index { assert Shown(ps, pages, dev, i, o); }
      }
    }
  }

  lemma {:induction false} FetchStands(ps: nat, pages: Pages, dev: seq<byte>, file: seq<byte>, index: nat,
                                       content: seq<byte>)
    requires Stands(ps, pages, dev, file) && index !in pages && Begins(content, dev, Base(ps, index), ps)
    ensures Stands(ps, pages[index := PageVal(content, false)], dev, file)
  {
    var pages' := pages[index := PageVal(content, false)];
    forall i: nat ensures Own(pages', i) == Own(pages, i) { }
    SameEnds(ps, pages, pages', |file|);
    forall i: nat ensures PageStands(ps, pages', dev, file, i) {
      assert PageStands(ps, pages, dev, file, i);
      if i == index { BeginsBeneath(content, dev, file, Base(ps, i), ps); }
    }
  }

  /** What the device has of a page without unsaved bytes is the file's. */
  lemma {:induction false} BeginsBeneath(content: seq<byte>, dev: seq<byte>, file: seq<byte>, lo: nat, ps: nat)
    requires Begins(content, dev, lo, ps) && Beneath(dev, file, lo, lo + ps)
    ensures Begins(content, file, lo, ps)
  {
    forall j | lo <= j < lo + |content| ensures At(content, j - lo) == At(file, j) {
      assert At(content, j - lo) == At(dev, j);
    }
  }

  lemma {:induction false} SameEnds(ps: nat, pages: Pages, pages': Pages, n: nat)
    requires forall i: nat :: Own(pages', i) == Own(pages, i)
    ensures EndsAt(ps, pages', n) <==> EndsAt(ps, pages, n)
  {
    if EndsAt(ps, pages, n) {
      var i: nat :| Own(pages, i) > 0 && Base(ps, i) + Own(pages, i) == n;
      assert Own(pages', i) > 0;
    }
    if EndsAt(ps, pages', n) {
      var i: nat :| Own(pages', i) > 0 && Base(ps, i) + Own(pages', i) == n;
      assert Own(pages, i) > 0;
    }
  }

  lemma {:induction false} FetchBegins(ps: nat, dev: seq<byte>, lo: nat)
    ensures Begins(Window(dev, lo, ps), dev, lo, ps)
  {
  }

  /** Dropping a clean page changes nothing, and hides nothing. */
  lemma {:induction false} DropStep(ps: nat, pages: Pages, dev: seq<byte>, file: seq<byte>, index: nat)
    requires Stands(ps, pages, dev, file) && Saved(pages, index)
    ensures Stands(ps, pages - {index}, dev, file) && Grows(ps, pages, dev, pages - {index}, dev)
  {
    var pages' := pages - {index};
    forall i: nat ensures Own(pages', i) == Own(pages, i) { }
    SameEnds(ps, pages, pages', |file|);
    forall i: nat ensures PageStands(ps, pages', dev, file, i) {
      assert PageStands(ps, pages, dev, file, i);
    }
    forall i: nat, o: nat | o < ps && Shown(ps, pages, dev, i, o) ensures Shown(ps, pages', dev, i, o) {
      assert PageStands(ps, pages, dev, file, i);
      if i == index && i in pages { BeginsInside(pages[i].content, dev, Base(ps, i), ps); }
    }
  }

  lemma {:induction false} BeginsInside(content: seq<byte>, f: seq<byte>, lo: nat, n: nat)
    requires Begins(content, f, lo, n)
    ensures content == [] || lo + |content| <= |f|
  {
    if content != [] { assert At(content, lo + |content| - 1 - lo) == At(f, lo + |content| - 1); }
  }

  /** The device after the first n bytes of a page have been pushed to it. */
  function Pushed(ps: nat, page: PageVal, dev: seq<byte>, index: nat, n: nat): seq<byte>
    requires n <= |page.content|
  {
    Splice(dev, Base(ps, index), page.content[..n])
  }

  /** A push leaves what the device has of other pages, though it may zero-extend the device over them. */
  lemma {:induction false} PushBegins(ps: nat, page: PageVal, dev: seq<byte>, index: nat, n: nat, other: nat,
                                      content: seq<byte>)
    requires n <= |page.content| <= ps && other != index && Begins(content, dev, Base(ps, other), ps)
    ensures Begins(content, Pushed(ps, page, dev, index, n), Base(ps, other), ps)
  {
    var dev', lo := Pushed(ps, page, dev, index, n), Base(ps, other);
    if other < index { BasesApart(ps, other, index); } else { BasesApart(ps, index, other); }
    forall j | lo <= j < lo + |content| ensures At(content, j - lo) == At(dev', j) {
      assert At(content, j - lo) == At(dev, j);
    }
  }

  lemma {:induction false} PushBeneath(dev: seq<byte>, file: seq<byte>, at: nat, data: seq<byte>, lo: nat, hi: nat)
    requires Beneath(dev, file, lo, hi) && (hi <= at || at + |data| <= lo) && (data == [] || at + |data| <= |file|)
    ensures Beneath(Splice(dev, at, data), file, lo, hi)
  {
    var dev' := Splice(dev, at, data);
    forall j | lo <= j < hi ensures At(dev', j) == At(file, j) || (|dev'| <= j && At(file, j) == 0) {
      assert At(dev, j) == At(file, j) || (|dev| <= j && At(file, j) == 0);
    }
  }

  /**
   * A flush that has pushed any part of a dirty page leaves the file the same, even though it may
   * zero-extend the device over pages that come before it.
   */
  lemma {:induction false} PushStep(ps: nat, pages: Pages, dev: seq<byte>, file: seq<byte>, index: nat, n: nat)
    requires Stands(ps, pages, dev, file) && index in pages && pages[index].dirty && n <= |pages[index].content|
    ensures Stands(ps, pages, Pushed(ps, pages[index], dev, index, n), file)
    ensures Grows(ps, pages, dev, pages, Pushed(ps, pages[index], dev, index, n))
  {
    var page, lo := pages[index], Base(ps, index);
    var dev' := Pushed(ps, page, dev, index, n);
    assert PageStands(ps, pages, dev, file, index);
    BeginsInside(page.content, file, lo, ps);
    forall i: nat ensures PageStands(ps, pages, dev', file, i) {
      assert PageStands(ps, pages, dev, file, i);
      if i < index { BasesApart(ps, i, index); } else if index < i { BasesApart(ps, index, i); }
      PushBeneath(dev, file, lo, page.content[..n], Base(ps, i) + Own(pages, i), Base(ps, i) + ps);
      if i in pages && !pages[i].dirty { PushBegins(ps, page, dev, index, n, i, pages[i].content); }
    }
    assert |dev'| >= |dev|;
  }

  /** A dirty page that was pushed as a whole may be marked clean. */
  lemma {:induction false} CleanStep(ps: nat, pages: Pages, dev: seq<byte>, file: seq<byte>, index: nat)
    requires Stands(ps, pages, dev, file) && index in pages && pages[index].dirty
    ensures var dev' := Pushed(ps, pages[index], dev, index, |pages[index].content|);
            var pages' := pages[index := pages[index].(dirty := false)];
            Stands(ps, pages', dev', file) && Grows(ps, pages, dev, pages', dev')
  {
    var pages' := pages[index := pages[index].(dirty := false)];
    var page, lo := pages[index].content, Base(ps, index);
    var dev' := Pushed(ps, pages[index], dev, index, |page|);
    assert page[..|page|] == page;
    PushStep(ps, pages, dev, file, index, |page|);
    assert PageStands(ps, pages, dev', file, index) && PageStands(ps, pages, dev, file, index);
    PushedPage(page, dev, file, lo, ps);
    forall i: nat ensures PageStands(ps, pages', dev', file, i) {
      assert PageStands(ps, pages, dev', file, i);
    }
    CleanEnds(ps, pages, dev', file, index);
    forall i: nat, o: nat | o < ps && Shown(ps, pages, dev, i, o) ensures Shown(ps, pages', dev', i, o) {
      assert Shown(ps, pages, dev', i, o);
    }
  }

  lemma {:induction false} CleanEnds(ps: nat, pages: Pages, dev': seq<byte>, file: seq<byte>, index: nat)
    requires |dev'| <= |file| && (|dev'| == |file| || EndsAt(ps, pages, |file|)) && index in pages
    requires pages[index].content == [] || Base(ps, index) + |pages[index].content| <= |dev'|
    ensures |dev'| == |file| || EndsAt(ps, pages[index := pages[index].(dirty := false)], |file|)
  {
    var pages' := pages[index := pages[index].(dirty := false)];
    if |dev'| != |file| {
      var i: nat :| Own(pages, i) > 0 && Base(ps, i) + Own(pages, i) == |file|;
      assert i != index && Own(pages', i) == Own(pages, i);
    }
  }

  lemma {:induction false} PushedPage(page: seq<byte>, dev: seq<byte>, file: seq<byte>, lo: nat, ps: nat)
    requires Begins(page, file, lo, ps) && |dev| <= |file| && Beneath(dev, file, lo + |page|, lo + ps)
    ensures Beneath(Splice(dev, lo, page), file, lo, lo + ps) && Begins(page, Splice(dev, lo, page), lo, ps)
    ensures page == [] || lo + |page| <= |Splice(dev, lo, page)|
  {
    var dev' := Splice(dev, lo, page);
    forall j | lo <= j < lo + |page| ensures At(dev', j) == At(page, j - lo) == At(file, j) { }
    BeginsInside(page, file, lo, ps);
    PushBeneath(dev, file, lo, page, lo + |page|, lo + ps);
  }

  /** Evicting a dirty page once it has been pushed does not change the file. */
  lemma {:induction false} EvictStep(ps: nat, pages: Pages, dev: seq<byte>, file: seq<byte>, index: nat)
    requires Stands(ps, pages, dev, file) && index in pages && pages[index].dirty
    ensures var dev' := Pushed(ps, pages[index], dev, index, |pages[index].content|);
            Stands(ps, pages - {index}, dev', file) && Grows(ps, pages, dev, pages - {index}, dev')
  {
    CleanStep(ps, pages, dev, file, index);
    var clean := pages[index := pages[index].(dirty := false)];
    var dev' := Pushed(ps, pages[index], dev, index, |pages[index].content|);
    DropStep(ps, clean, dev', file, index);
    assert clean - {index} == pages - {index};
    forall i: nat, o: nat | o < ps && Shown(ps, pages, dev, i, o) ensures Shown(ps, pages - {index}, dev', i, o) {
      assert Shown(ps, clean, dev', i, o);
    }
  }

  /** Where the bytes that only the cache has end. */
  lemma {:induction false} FarEnd(ps: nat, pages: Pages) returns (n: nat)
    ensures n == 0 || EndsAt(ps, pages, n)
    ensures forall i: nat {:trigger Own(pages, i)} :: Own(pages, i) > 0 ==> Base(ps, i) + Own(pages, i) <= n
    decreases |pages.Keys|
  {
    if pages == map[] {
      n := 0;
    } else {
      var k :| k in pages;
      var rest := pages - {k};
      assert rest.Keys == pages.Keys - {k};
      var m := FarEnd(ps, rest);
      assert forall i: nat {:trigger Own(pages, i)} :: i != k ==> Own(pages, i) == Own(rest, i);
      if m > 0 {
        var i: nat :| Own(rest, i) > 0 && Base(ps, i) + Own(rest, i) == m;
        assert Own(pages, i) == Own(rest, i);
      }
      n := if Own(pages, k) > 0 && Base(ps, k) + Own(pages, k) > m then Base(ps, k) + Own(pages, k) else m;
      forall i: nat | Own(pages, i) > 0 ensures Base(ps, i) + Own(pages, i) <= n {
        if i != k { assert Own(rest, i) > 0; }
      }
    }
  }

  /** Whatever is cached and on the device, there is a file they stand for. */
  lemma {:induction false} SomeFile(ps: nat, pages: Pages, dev: seq<byte>) returns (file: seq<byte>)
    requires ps > 0 && forall i | i in pages :: |pages[i].content| <= ps
    requires forall i | i in pages && !pages[i].dirty :: Begins(pages[i].content, dev, Base(ps, i), ps)
    ensures Stands(ps, pages, dev, file)
  {
    var n := FarEnd(ps, pages);
    file := seq(Max(|dev|, n), j requires 0 <= j => if j % ps < Own(pages, j / ps) then pages[j / ps].content[j % ps]
                                                    else if j < |dev| then dev[j] else 0);
    forall i: nat ensures PageStands(ps, pages, dev, file, i) {
      SomePage(ps, pages, dev, file, n, i);
    }
  }

  lemma {:induction false} SomePage(ps: nat, pages: Pages, dev: seq<byte>, file: seq<byte>, n: nat, i: nat)
    requires ps > 0 && i in pages ==> |pages[i].content| <= ps
    requires i in pages && !pages[i].dirty ==> Begins(pages[i].content, dev, Base(ps, i), ps)
    requires ps > 0 && |file| >= |dev| && (Own(pages, i) > 0 ==> Base(ps, i) + Own(pages, i) <= |file|)
    requires forall j | 0 <= j < |file| :: file[j] == if j % ps < Own(pages, j / ps) then pages[j / ps].content[j % ps]
                else if j < |dev| then dev[j] else 0
    ensures PageStands(ps, pages, dev, file, i)
  {
    var lo := Base(ps, i);
    BaseIsProduct(ps, i);
    forall j | lo <= j < lo + ps ensures At(file, j) == if j - lo < Own(pages, i) then At(pages[i].content, j - lo)
                else if j < |dev| then dev[j] else if j < |file| then 0 else -1 {
      DivModUnique(ps, j, i, j - lo);
    }
  }

  /** The bytes `write_at` splices into: the cached page, or a new empty one on a miss. */
  function PageBefore(pages: Pages, index: nat): seq<byte> {
    if index in pages then pages[index].content else []
  }

  function PagesAfterWrite(pages: Pages, index: nat, off: nat, data: seq<byte>): Pages {
    pages[index := PageVal(Splice(PageBefore(pages, index), off, data), true)]
  }

  /** The file with what it has of [lo, lo + n) zeroed. */
  function ZeroRange(file: seq<byte>, lo: nat, n: nat): (r: seq<byte>)
    ensures |r| == |file| && forall j | 0 <= j < |r| :: r[j] == if lo <= j < lo + n then 0 else file[j]
  {
    var a, b := Min(lo, |file|), Min(lo + n, |file|);
    file[..a] + Zeros(b - a) + file[b..]
  }

  /**
   * The file a write at byte `local` of a page starts from: what the page does not have in front of
   * the write is zeroed, be it that the page ends before or that it is not cached at all.
   */
  function WriteBase(have: nat, file: seq<byte>, lo: nat, local: nat): seq<byte> {
    ZeroRange(file, lo + Min(have, local), local - Min(have, local))
  }

  /** The page at lo is cached, or no byte of it lies behind a write that ends at `end`. */
  predicate Kept(ps: nat, cached: bool, file: seq<byte>, lo: nat, end: nat) { cached || Min(|file|, lo + ps) <= end }

  ghost predicate Wrote(ps: nat, page: seq<byte>, page': seq<byte>, file: seq<byte>, file': seq<byte>, lo: nat,
                        off: nat, data: seq<byte>) {
    && data != [] && off + |data| <= ps && |page| <= ps
    && page' == Splice(page, off, data) && file' == Splice(WriteBase(|page|, file, lo, off), lo + off, data)
  }

  lemma {:induction false} WroteAt(ps: nat, page: seq<byte>, page': seq<byte>, file: seq<byte>, file': seq<byte>,
                                   lo: nat, off: nat, data: seq<byte>, j: nat)
    requires Wrote(ps, page, page', file, file', lo, off, data)
    ensures |page'| == Max(|page|, off + |data|) <= ps && |file'| == Max(|file|, lo + off + |data|)
    ensures lo <= j < lo + |page'| && (j < lo + |page| ==> At(file, j) == At(page, j - lo)) ==>
              At(file', j) == At(page', j - lo)
    ensures (j < lo || lo + |page'| <= j) && j < |file| ==> At(file', j) == At(file, j)
    ensures j < lo && |file| <= j ==> At(file', j) == 0
    ensures lo + |page'| <= j && |file| <= j ==> At(file', j) == -1
  {
  }

  /** Splicing into a page is splicing into the file and looking at the page. */
  lemma {:induction false} PageOfSplice(ps: nat, page: seq<byte>, page': seq<byte>, file: seq<byte>, file': seq<byte>,
                                        lo: nat, off: nat, data: seq<byte>)
    requires Wrote(ps, page, page', file, file', lo, off, data) && Begins(page, file, lo, ps)
    ensures Begins(page', file', lo, ps)
  {
    WroteAt(ps, page, page', file, file', lo, off, data, lo);
    forall j | lo <= j < lo + |page'| ensures At(page', j - lo) == At(file', j) {
      if j < lo + |page| { assert At(page, j - lo) == At(file, j); }
      WroteAt(ps, page, page', file, file', lo, off, data, j);
    }
  }

  /** What is beneath the other bytes of the file stays so. */
  lemma {:induction false} BeneathSplice(ps: nat, page: seq<byte>, page': seq<byte>, dev: seq<byte>, file: seq<byte>,
                                         file': seq<byte>, lo: nat, off: nat, data: seq<byte>, a: nat, b: nat)
    requires Wrote(ps, page, page', file, file', lo, off, data) && |dev| <= |file|
    requires Beneath(dev, file, a, b) && (b <= lo || lo + |page'| <= a)
    ensures Beneath(dev, file', a, b)
  {
    forall j | a <= j < b ensures At(dev, j) == At(file', j) || (|dev| <= j && At(file', j) == 0) {
      assert At(dev, j) == At(file, j) || (|dev| <= j && At(file, j) == 0);
      WroteAt(ps, page, page', file, file', lo, off, data, j);
    }
  }

  lemma {:induction false} BeginsSplice(ps: nat, page: seq<byte>, page': seq<byte>, other: seq<byte>, file: seq<byte>,
                                        file': seq<byte>, lo: nat, off: nat, data: seq<byte>, a: nat)
    requires Wrote(ps, page, page', file, file', lo, off, data)
    requires Begins(other, file, a, ps) && (a + ps <= lo || lo + ps <= a)
    ensures Begins(other, file', a, ps)
  {
    forall j | a <= j < a + |other| ensures At(other, j - a) == At(file', j) {
      assert At(other, j - a) == At(file, j);
      WroteAt(ps, page, page', file, file', lo, off, data, j);
    }
  }

  /**
   * `write_at` on one page: the file gets the bytes, whether or not the page was cached and however
   * short it was, and wherever the file ends. What the page does not have in front of them is zeroed.
   */
  lemma {:induction false} WriteStep(ps: nat, pages: Pages, dev: seq<byte>, file: seq<byte>, file': seq<byte>,
                                     index: nat, lo: nat, off: nat, data: seq<byte>)
    requires Stands(ps, pages, dev, file) && lo == Base(ps, index) && data != [] && off + |data| <= ps
    requires file' == Splice(WriteBase(|PageBefore(pages, index)|, file, lo, off), lo + off, data)
    ensures Stands(ps, PagesAfterWrite(pages, index, off, data), dev, file')
  {
    var page, pages' := PageBefore(pages, index), PagesAfterWrite(pages, index, off, data);
    var page' := pages'[index].content;
    assert PageStands(ps, pages, dev, file, index);
    assert Wrote(ps, page, page', file, file', lo, off, data);
    WroteAt(ps, page, page', file, file', lo, off, data, 0);
    PageOfSplice(ps, page, page', file, file', lo, off, data);
    forall i: nat ensures PageStands(ps, pages', dev, file', i) {
      assert PageStands(ps, pages, dev, file, i);
      if i == index {
        assert Own(pages, i) <= |page'| && Own(pages', i) == |page'|;
        BeneathSplice(ps, page, page', dev, file, file', lo, off, data, lo + |page'|, lo + ps);
      } else {
        assert Own(pages', i) == Own(pages, i);
        OtherStands(ps, pages, dev, file, file', index, page', off, data, i);
      }
    }
    WriteEnds(ps, pages, dev, file, file', index, off, data);
  }

  lemma {:induction false} OtherStands(ps: nat, pages: Pages, dev: seq<byte>, file: seq<byte>, file': seq<byte>,
                                       index: nat, page': seq<byte>, off: nat, data: seq<byte>, i: nat)
    requires PageStands(ps, pages, dev, file, i) && |dev| <= |file| && i != index
    requires Wrote(ps, PageBefore(pages, index), page', file, file', Base(ps, index), off, data)
    ensures PageStands(ps, pages, dev, file', i)
  {
    var page, lo := PageBefore(pages, index), Base(ps, index);
    WroteAt(ps, page, page', file, file', lo, off, data, 0);
    if i < index { BasesApart(ps, i, index); } else { BasesApart(ps, index, i); }
    BeneathSplice(ps, page, page', dev, file, file', lo, off, data, Base(ps, i) + Own(pages, i), Base(ps, i) + ps);
    if i in pages {
      BeginsSplice(ps, page, page', pages[i].content, file, file', lo, off, data, Base(ps, i));
    }
  }

  lemma {:induction false} WriteEnds(ps: nat, pages: Pages, dev: seq<byte>, file: seq<byte>, file': seq<byte>,
                                     index: nat, off: nat, data: seq<byte>)
    requires |dev| == |file| || EndsAt(ps, pages, |file|)
    requires data != [] && |file'| == Max(|file|, Base(ps, index) + off + |data|)
    requires index in pages ==> Begins(pages[index].content, file, Base(ps, index), ps)
    ensures |dev| == |file'| || EndsAt(ps, PagesAfterWrite(pages, index, off, data), |file'|)
  {
    var page, pages' := PageBefore(pages, index), PagesAfterWrite(pages, index, off, data);
    BeginsInside(page, file, Base(ps, index), ps);
    assert Own(pages', index) == Max(|page|, off + |data|);
    if |file'| == |file| && |dev| != |file| {
      var i: nat :| Own(pages, i) > 0 && Base(ps, i) + Own(pages, i) == |file|;
      assert Own(pages', i) > 0 && Base(ps, i) + Own(pages', i) == |file'|;
    }
  }

  /**
   * When a reader sees all of a file before a write that does not start behind the page of its end, he
   * does so afterwards if and only if the page was cached or had nothing behind the written bytes.
   */
  lemma {:induction false} WriteSeen(ps: nat, pages: Pages, dev: seq<byte>, file: seq<byte>, file': seq<byte>,
                                     index: nat, lo: nat, off: nat, data: seq<byte>)
    requires FileOk(ps, pages, dev, file) && lo == Base(ps, index) <= |file| && data != [] && off + |data| <= ps
    requires file' == Splice(WriteBase(|PageBefore(pages, index)|, file, lo, off), lo + off, data)
    ensures FileOk(ps, PagesAfterWrite(pages, index, off, data), dev, file') <==>
              Kept(ps, index in pages, file, lo, lo + off + |data|)
  {
    WriteStep(ps, pages, dev, file, file', index, lo, off, data);
    var page, pages' := PageBefore(pages, index), PagesAfterWrite(pages, index, off, data);
    var page' := pages'[index].content;
    if index in pages { CachedHolds(ps, pages, dev, file, index); HoldsIsWindow(page, file, lo, ps); }
    if Kept(ps, index in pages, file, lo, lo + off + |data|) {
      forall i: nat, o: nat | o < ps && Base(ps, i) + o < |file'| ensures Shown(ps, pages', dev, i, o) {
        if i < index { BasesApart(ps, i, index); } else if index < i { BasesApart(ps, index, i); }
        if i != index { assert Shown(ps, pages, dev, i, o); }
      }
    } else {
      assert !Shown(ps, pages', dev, index, off + |data|);
    }
  }

  /** A page of a file that is seen as a whole has everything in front of the write. */
  lemma {:induction false} FullBase(ps: nat, pages: Pages, dev: seq<byte>, file: seq<byte>, index: nat, off: nat)
    requires FileOk(ps, pages, dev, file) && index in pages && off <= ps
    ensures WriteBase(|pages[index].content|, file, Base(ps, index), off) == file
  {
    CachedHolds(ps, pages, dev, file, index);
    HoldsIsWindow(pages[index].content, file, Base(ps, index), ps);
  }

  /** Zeroing the bytes in front of a write is noticed exactly when they were not all zero. */
  lemma {:induction false} GapMatters(file: seq<byte>, lo: nat, n: nat, data: seq<byte>)
    ensures Splice(ZeroRange(file, lo, n), lo + n, data) == Splice(file, lo + n, data) <==>
            forall j | lo <= j < Min(lo + n, |file|) :: file[j] == 0
  {
    var a, b := Splice(ZeroRange(file, lo, n), lo + n, data), Splice(file, lo + n, data);
    forall j | lo <= j < Min(lo + n, |file|) ensures a[j] == 0 && b[j] == file[j] { }
    if forall j | lo <= j < Min(lo + n, |file|) :: file[j] == 0 {
      assert ZeroRange(file, lo, n) == file;
    }
  }
}
