/**
 * The bytes that move between a caller's buffer and the pages: `Page::read`, `Page::write`, and what
 * the page steps of one request add up to.
 */
module Transfer {
  import opened Bytes
  import opened Tiling
  import opened PageModel
  import opened Recency

  /** `usize` arithmetic: a negative difference wraps around. */
  function Wrap(x: int): int { if x < 0 then x + 0x1_0000_0000_0000_0000 else x }

  /** `Page::read`'s byte count: the difference is unsigned, so starting past the end wraps. */
  function ReadCount(size: nat, offset: nat, len: nat): int { Min(Wrap(size - offset), len) }

  /** The bytes `Page::read` copies; the buffer is zero past the page's contents. */
  function PageRead(ps: nat, page: PageVal, offset: nat, len: nat): (bytes: seq<byte>)
    requires |page.content| <= ps <= 0xFFFF_FFFF && offset + len <= ps
    ensures |bytes| == ReadCount(|page.content|, offset, len)
  {
    Window(page.content + Zeros(ps - |page.content|), offset, ReadCount(|page.content|, offset, len))
  }

  /** `Page::write`, with its two guards against writing outside the page, and the byte count. */
  function PageWrite(ps: nat, page: PageVal, input: seq<byte>, offset: nat): (PageVal, nat) {
    if offset >= ps then (page, 0)
    else
      var end := Min(offset + |input|, ps);
      (page.(content := Splice(page.content, offset, input[..end - offset])), end - offset)
  }

  /** How many of the n bytes from lo on the file has. */
  function Avail(file: seq<byte>, lo: nat, n: nat): nat { Min(n, Max(0, |file| - lo)) }

  /** `out` is `before` with n bytes of the file, from lo, copied to `at`. */
  ghost predicate Copied(file: seq<byte>, lo: nat, n: nat, at: nat, before: seq<byte>, out: seq<byte>) {
    && lo + n <= Max(lo, |file|) && at + n <= |out| == |before|
    && forall j | 0 <= j < |out| :: out[j] == if at <= j < at + n then file[lo + (j - at)] else before[j]
  }

  /** What one piece of a read does to the buffer, `lo` being its place in the file. */
  ghost predicate PieceRead(file: seq<byte>, lo: nat, p: Piece, before: seq<byte>, out: seq<byte>, n: nat) {
    if p.local == 0 || lo <= |file| then n == Avail(file, lo, p.size) && Copied(file, lo, n, p.at, before, out)
        else n == p.size
  }

  /** What `Page::read` yields is the file's bytes; a piece that starts past the end wraps. */
  lemma {:induction false} ReadBytes(ps: nat, file: seq<byte>, page: PageVal, base: nat, p: Piece)
    requires 0 < ps <= 0xFFFF_FFFF && p.local + p.size <= ps && Holds(page.content, file, base, ps)
    ensures p.local == 0 || base + p.local <= |file| ==>
              PageRead(ps, page, p.local, p.size) == Window(file, base + p.local, p.size)
    ensures p.local > 0 && base + p.local > |file| ==> |PageRead(ps, page, p.local, p.size)| == p.size
  {
    HoldsIsWindow(page.content, file, base, ps);
    if p.local == 0 || base + p.local <= |file| {
      ReadInside(ps, page, p.local, p.size);
      WindowInside(file, base, ps, p.local, p.size);
    }
  }

  lemma {:induction false} ReadInside(ps: nat, page: PageVal, local: nat, n: nat)
    requires |page.content| <= ps <= 0xFFFF_FFFF && local + n <= ps && local <= |page.content|
    ensures PageRead(ps, page, local, n) == Window(page.content, local, n)
  {
    WindowOfPage(page.content, Zeros(ps - |page.content|), local, n);
  }

  lemma {:induction false} WindowInside(file: seq<byte>, base: nat, ps: nat, local: nat, n: nat)
    requires local + n <= ps && (local == 0 || base + local <= |file|)
    ensures Window(Window(file, base, ps), local, n) == Window(file, base + local, n)
  {
  }

  lemma {:induction false} WindowOfPage(page: seq<byte>, zeros: seq<byte>, local: nat, n: nat)
    requires local <= |page|
    ensures Window(page + zeros, local, Min(|page| - local, n)) == Window(page, local, n)
  {
  }

  lemma {:induction false} ReadPiece(ps: nat, file: seq<byte>, page: PageVal, base: nat, lo: nat, p: Piece,
                                     before: seq<byte>, bytes: seq<byte>, out: seq<byte>)
    requires 0 < ps <= 0xFFFF_FFFF && p.local + p.size <= ps && Holds(page.content, file, base, ps)
              && lo == base + p.local
    requires p.at + p.size <= |before| && bytes == PageRead(ps, page, p.local, p.size)
              && out == Splice(before, p.at, bytes)
    ensures PieceRead(file, lo, p, before, out, |bytes|)
  {
    ReadBytes(ps, file, page, base, p);
  }

  /** What a reader sees of the page goes to its place in the buffer, and nothing goes elsewhere. */
  ghost predicate PieceShown(file: seq<byte>, content: seq<byte>, base: nat, p: Piece, before: seq<byte>,
                             out: seq<byte>) {
    && |out| == |before| && p.at + p.size <= |out|
    && (forall k | 0 <= k < |out| && !(p.at <= k < p.at + p.size) :: out[k] == before[k])
    && (forall k | p.at <= k < p.at + p.size && p.local + (k - p.at) < |content| ::
          out[k] == At(file, base + p.local + (k - p.at)))
  }

  lemma {:induction false} ReadShown(ps: nat, file: seq<byte>, page: PageVal, base: nat, p: Piece, before: seq<byte>,
                                     bytes: seq<byte>, out: seq<byte>)
    requires 0 < ps <= 0xFFFF_FFFF && p.local + p.size <= ps && Begins(page.content, file, base, ps)
    requires p.at + p.size <= |before| && bytes == PageRead(ps, page, p.local, p.size)
              && out == Splice(before, p.at, bytes)
    ensures PieceShown(file, page.content, base, p, before, out)
  {
    forall k | p.at <= k < p.at + p.size && p.local + (k - p.at) < |page.content|
      ensures out[k] == At(file, base + p.local + (k - p.at))
    {
      var o := p.local + (k - p.at);
      assert At(page.content, base + o - base) == At(file, base + o);
      ReadInside(ps, page, p.local, p.size);
    }
  }

  /** A read that has filled the first `at` bytes of the request, in i pieces. */
  ghost predicate ReadSoFar(file: seq<byte>, offset: nat, local: nat, before: seq<byte>, out: seq<byte>, total: nat,
                            at: nat, i: nat) {
    if local == 0 || offset <= |file|
    then total == Avail(file, offset, at) && Copied(file, offset, total, 0, before, out)
    else i > 0 ==> total > 0
  }

  lemma {:induction false} ReadOn(file: seq<byte>, offset: nat, local: nat, before: seq<byte>, was: seq<byte>,
                                  out: seq<byte>, total: nat, n: nat, i: nat, p: Piece)
    requires ReadSoFar(file, offset, local, before, was, total, p.at, i)
    requires PieceRead(file, offset + p.at, p, was, out, n)
    requires p.size > 0 && (if i == 0 then p.local == local && p.at == 0 else p.local == 0)
    ensures ReadSoFar(file, offset, local, before, out, total + n, p.at + p.size, i + 1)
  {
  }

  /** A whole read is exact if it starts inside the file, at its end, or on a page boundary. */
  lemma {:induction false} ReadDone(file: seq<byte>, offset: nat, local: nat, before: seq<byte>, out: seq<byte>,
                                    total: nat, i: nat)
    requires ReadSoFar(file, offset, local, before, out, total, |before|, i) && i > 0
    ensures var wanted := Window(file, offset, |before|);
            if offset <= |file| || local == 0 then total == |wanted| && out == wanted + before[|wanted|..]
                else total > |wanted|
  {
    var wanted := Window(file, offset, |before|);
    if offset <= |file| || local == 0 {
      assert |out| == |before|;
      forall j | 0 <= j < |out| ensures out[j] == (wanted + before[|wanted|..])[j] { }
    }
  }

  lemma {:induction false} PageWriteInside(ps: nat, page: PageVal, data: seq<byte>, offset: nat)
    requires data != [] && offset + |data| <= ps && |page.content| <= ps
    ensures PageWrite(ps, page, data, offset) == (page.(content := Splice(page.content, offset, data)), |data|)
    ensures offset + |data| <= |Splice(page.content, offset, data)| <= ps
  {
    assert data[..|data|] == data;
  }

  /** What was seen of the first `at` bytes from offset on before a read is in the buffer. */
  ghost predicate ReadSeen(ps: nat, pages: Pages, dev: seq<byte>, file: seq<byte>, offset: nat, out: seq<byte>, at: nat)
    requires ps > 0
  {
    at <= |out| && forall j | offset <= j < offset + at && Seen(ps, pages, dev, j) >= 0 ::
        out[j - offset] == At(file, j)
  }

  lemma {:induction false} ReadSeenOn(ps: nat, pages: Pages, dev: seq<byte>, file: seq<byte>, offset: nat, index: nat,
                                      content: seq<byte>, p: Piece, was: seq<byte>, out: seq<byte>)
    requires ps > 0 && ReadSeen(ps, pages, dev, file, offset, was, p.at)
    requires p.local + p.size <= ps && Base(ps, index) + p.local == offset + p.at
    requires PieceShown(file, content, Base(ps, index), p, was, out)
    requires forall o: nat {:trigger Shown(ps, pages, dev, index, o)} | o < ps && Shown(ps, pages, dev, index, o) ::
              o < |content|
    ensures ReadSeen(ps, pages, dev, file, offset, out, p.at + p.size)
  {
    forall j | offset <= j < offset + p.at + p.size && Seen(ps, pages, dev, j) >= 0
      ensures out[j - offset] == At(file, j)
    {
      if offset + p.at <= j {
        SeenShown(ps, pages, dev, index, j - Base(ps, index));
        var k := j - offset;
        assert out[k] == At(file, Base(ps, index) + p.local + (k - p.at));
      }
    }
  }

  /** The file after one piece of a write to a page of which the cache has `have` bytes, if any. */
  function PieceWritten(have: nat, file: seq<byte>, lo: nat, p: Piece, data: seq<byte>): seq<byte> {
    Splice(WriteBase(have, file, lo, p.local), lo + p.local, data)
  }

  lemma {:induction false} PieceStands(ps: nat, pages: Pages, dev: seq<byte>, file: seq<byte>, index: nat, p: Piece,
                                       data: seq<byte>)
    requires Stands(ps, pages, dev, file) && 0 < |data| == p.size && p.local + p.size <= ps
    ensures Stands(ps, PagesAfterWrite(pages, index, p.local, data), dev,
                PieceWritten(|PageBefore(pages, index)|, file, Base(ps, index), p, data))
  {
    var file' := PieceWritten(|PageBefore(pages, index)|, file, Base(ps, index), p, data);
    WriteStep(ps, pages, dev, file, file', index, Base(ps, index), p.local, data);
  }

  /** A write that has stored the first `at` bytes of the input, in i pieces. */
  ghost predicate WriteSoFar(start: seq<byte>, base: seq<byte>, offset: nat, input: seq<byte>, file: seq<byte>,
                             at: nat, i: nat) {
    && at <= |input| && |start| == |base| && (i == 0 <==> at == 0)
    && file == if i == 0 then start else Splice(base, offset, input[..at])
  }

  /** The first piece starts from what its page leaves of the file. */
  lemma {:induction false} WriteFirst(start: seq<byte>, base: seq<byte>, offset: nat, input: seq<byte>, lo: nat,
                                      p: Piece, have: nat)
    requires p.at == 0 && 0 < p.size <= |input| && lo + p.local == offset
    requires base == WriteBase(have, start, lo, p.local)
    ensures WriteSoFar(start, base, offset, input, PieceWritten(have, start, lo, p, input[p.at..p.at + p.size]),
                p.at + p.size, 1)
  {
    assert input[p.at..p.at + p.size] == input[..p.size];
  }

  /** Every later piece continues where its predecessor ended. */
  lemma {:induction false} WriteOn(start: seq<byte>, base: seq<byte>, offset: nat, input: seq<byte>, file: seq<byte>,
                                   i: nat, lo: nat, p: Piece, have: nat)
    requires i > 0 && WriteSoFar(start, base, offset, input, file, p.at, i)
    requires 0 < p.size && p.at + p.size <= |input| && lo == offset + p.at && p.local == 0
    ensures WriteSoFar(start, base, offset, input,
                PieceWritten(have, file, lo, p, input[p.at..p.at + p.size]), p.at + p.size, i + 1)
  {
    NothingZeroed(have, file, lo, p.local);
    SpliceThen(base, offset, input, p.at, p.at + p.size, WriteBase(have, file, lo, p.local), lo + p.local);
  }

  lemma {:induction false} NothingZeroed(have: nat, file: seq<byte>, lo: nat, local: nat)
    requires local == 0
    ensures WriteBase(have, file, lo, local) == file
  {
  }

  lemma {:induction false} SpliceThen(base: seq<byte>, offset: nat, input: seq<byte>, m: nat, n: nat, file: seq<byte>,
                                      at: nat)
    requires m <= n <= |input| && file == Splice(base, offset, input[..m]) && at == offset + m
    ensures Splice(file, at, input[m..n]) == Splice(base, offset, input[..n])
  {
    SpliceOn(base, offset, input, m, n);
  }

  /**
   * One more piece: the file so far is the input so far, spliced into what the first page leaves of
   * the old file. Whether a page that was not cached has bytes behind the piece can be told from the
   * file as it was before the write.
   */
  lemma {:induction false} WriteNextPiece(ps: nat, start: seq<byte>, base: seq<byte>, offset: nat, input: seq<byte>,
                                          file: seq<byte>, i: nat, lo: nat, p: Piece, have: nat, cached: bool)
    requires WriteSoFar(start, base, offset, input, file, p.at, i) && lo + p.local == offset + p.at
    requires 0 < p.size && p.at + p.size <= |input|
    requires if i == 0 then base == WriteBase(have, start, lo, p.local) else p.local == 0
    ensures WriteSoFar(start, base, offset, input,
                PieceWritten(have, file, lo, p, input[p.at..p.at + p.size]), p.at + p.size, i + 1)
    ensures var end := lo + p.local + p.size; Kept(ps, cached, file, lo, end) == Kept(ps, cached, start, lo, end)
  {
    if i == 0 {
      WriteFirst(start, base, offset, input, lo, p, have);
    } else {
      WriteOn(start, base, offset, input, file, i, lo, p, have);
    }
    assert |file| == if i == 0 then |start| else Max(|start|, offset + p.at);
  }

  lemma {:induction false} WriteAll(start: seq<byte>, base: seq<byte>, offset: nat, input: seq<byte>, file: seq<byte>,
                                    i: nat)
    requires WriteSoFar(start, base, offset, input, file, |input|, i) && i > 0
    ensures file == Splice(base, offset, input)
  {
    assert input[..|input|] == input;
  }

  /**
   * What one page step of a write does to its file: the bytes are in it, what other pages showed they
   * show, and whether all of it is seen depends on the page having been cached.
   */
  ghost predicate PieceDone(ps: nat, pages: Pages, dev: seq<byte>, file: seq<byte>, pages': Pages, dev': seq<byte>,
                            file': seq<byte>, index: nat, p: Piece, data: seq<byte>) {
    var lo := Base(ps, index);
    && file' == PieceWritten(|PageBefore(pages, index)|, file, lo, p, data)
    && (forall i: nat, o: nat {:trigger Shown(ps, pages', dev', i, o)} |
          i != index && o < ps && Shown(ps, pages, dev, i, o) :: Shown(ps, pages', dev', i, o))
    && (FileOk(ps, pages, dev, file) && lo <= |file| ==>
          (FileOk(ps, pages', dev', file') <==> Kept(ps, index in pages, file, lo, lo + p.local + p.size)))
  }

  /** A page step that has made room for the page before it writes into it. */
  lemma {:induction false} PieceIsDone(ps: nat, pages0: Pages, dev0: seq<byte>, pages: Pages, dev: seq<byte>,
                                       file: seq<byte>, pages': Pages, file': seq<byte>, index: nat, p: Piece,
                                       data: seq<byte>)
    requires Grows(ps, pages0, dev0, pages, dev) && Stands(ps, pages, dev, file)
    requires index in pages <==> index in pages0
    requires |PageBefore(pages, index)| == |PageBefore(pages0, index)|
    requires 0 < |data| == p.size && p.local + p.size <= ps
    requires pages' == PagesAfterWrite(pages, index, p.local, data)
    requires file' == PieceWritten(|PageBefore(pages0, index)|, file, Base(ps, index), p, data)
    ensures PieceDone(ps, pages0, dev0, file, pages', dev, file', index, p, data)
  {
    OthersShown(ps, pages0, dev0, pages, dev, pages', index);
    if FileOk(ps, pages0, dev0, file) && Base(ps, index) <= |file| {
      PieceSeen(ps, pages0, dev0, pages, dev, file, file', index, p, data);
    }
  }

  lemma {:induction false} PieceStored(pages: Pages, pages': Pages, index: nat, p: Piece, data: seq<byte>)
    requires 0 < |data| == p.size && pages' == PagesAfterWrite(pages, index, p.local, data)
    ensures Stored(pages', index, p, data)
  {
  }

  lemma {:induction false} PieceSeen(ps: nat, pages0: Pages, dev0: seq<byte>, pages: Pages, dev: seq<byte>,
                                     file: seq<byte>, file': seq<byte>, index: nat, p: Piece, data: seq<byte>)
    requires Grows(ps, pages0, dev0, pages, dev) && Stands(ps, pages, dev, file) && FileOk(ps, pages0, dev0, file)
    requires 0 < |data| == p.size && p.local + p.size <= ps && Base(ps, index) <= |file|
    requires file' == PieceWritten(|PageBefore(pages, index)|, file, Base(ps, index), p, data)
    ensures FileOk(ps, PagesAfterWrite(pages, index, p.local, data), dev, file') <==>
              Kept(ps, index in pages, file, Base(ps, index), Base(ps, index) + p.local + p.size)
  {
    FileOkKept(ps, pages0, dev0, pages, dev, file);
    WriteSeen(ps, pages, dev, file, file', index, Base(ps, index), p.local, data);
  }

  lemma {:induction false} OthersShown(ps: nat, pages0: Pages, dev0: seq<byte>, pages: Pages, dev: seq<byte>,
                                       pages': Pages, index: nat)
    requires Grows(ps, pages0, dev0, pages, dev) && pages' - {index} == pages - {index}
    ensures forall i: nat, o: nat {:trigger Shown(ps, pages', dev, i, o)} |
              i != index && o < ps && Shown(ps, pages0, dev0, i, o) :: Shown(ps, pages', dev, i, o)
  {
    forall i: nat, o: nat | i != index && o < ps && Shown(ps, pages0, dev0, i, o) ensures Shown(ps, pages', dev, i, o) {
      assert Shown(ps, pages, dev, i, o);
      assert i in pages - {index} <==> i in pages' - {index};
      assert i in pages ==> (pages - {index})[i] == pages[i] && (pages' - {index})[i] == pages'[i];
    }
  }

  /** The page has these bytes, and they are to be pushed. */
  ghost predicate Stored(pages: Pages, index: nat, p: Piece, data: seq<byte>) {
    && index in pages && pages[index].dirty && p.local + p.size <= |pages[index].content|
    && pages[index].content[p.local..p.local + p.size] == data
  }

  /** From page `first` on, what lies in [lo, hi) of the file is seen. */
  ghost predicate RangeShown(ps: nat, pages: Pages, dev: seq<byte>, first: nat, lo: nat, hi: nat) {
    forall i: nat, o: nat {:trigger Shown(ps, pages, dev, i, o)} | first <= i && o < ps && lo <= Base(ps, i) + o < hi ::
      Shown(ps, pages, dev, i, o)
  }

  lemma {:induction false} RangeNext(ps: nat, pages: Pages, dev: seq<byte>, file: seq<byte>, pages': Pages,
                                     dev': seq<byte>, file': seq<byte>, first: nat, k: nat, index: nat, p: Piece,
                                     data: seq<byte>, offset: nat)
    requires index == first + k && PieceDone(ps, pages, dev, file, pages', dev', file', index, p, data)
    requires Stored(pages', index, p, data) && p.local + p.size <= ps
    requires RangeShown(ps, pages, dev, first, offset, offset + p.at)
    requires Base(ps, index) + p.local == offset + p.at && (if k == 0 then p.at == 0 else p.local == 0)
    ensures RangeShown(ps, pages', dev', first, offset, offset + p.at + p.size)
  {
    forall i: nat, o: nat | first <= i && o < ps && offset <= Base(ps, i) + o < offset + p.at + p.size
      ensures Shown(ps, pages', dev', i, o)
    {
      if i < index {
        BasesApart(ps, i, index);
        assert Shown(ps, pages, dev, i, o);
      } else if index < i {
        BasesApart(ps, index, i);
      }
    }
  }

  /** All that was written is seen. */
  lemma {:induction false} RangeSeen(ps: nat, pages: Pages, dev: seq<byte>, file: seq<byte>, first: nat, offset: nat,
                                     input: seq<byte>, base: seq<byte>, j: nat)
    requires Stands(ps, pages, dev, file) && file == Splice(base, offset, input) && first == FirstPage(ps, offset)
    requires RangeShown(ps, pages, dev, first, offset, offset + |input|) && offset <= j < offset + |input|
    ensures Seen(ps, pages, dev, j) == input[j - offset]
  {
    PageOfByte(ps, j);
    PageOfByte(ps, offset);
    if j / ps < first { BasesApart(ps, j / ps, first); }
    assert Shown(ps, pages, dev, j / ps, j % ps);
    SeenStands(ps, pages, dev, file, j);
  }

  /**
   * Where a write to a file stands after i page steps that have stored the first `at` bytes of the
   * input: they are in the file, and are seen; and if all of the file was seen before, whether all of
   * it is now is `seen`.
   */
  ghost predicate FileWritten(ps: nat, start: seq<byte>, whole: bool, pages: Pages, dev: seq<byte>, file: seq<byte>,
                              input: seq<byte>, offset: nat, first: nat, base: seq<byte>, at: nat, i: nat,
                              seen: bool) {
    && WriteSoFar(start, base, offset, input, file, at, i)
    && RangeShown(ps, pages, dev, first, offset, offset + at)
    && (whole && Base(ps, first) <= |start| ==> (FileOk(ps, pages, dev, file) <==> seen))
  }

  lemma {:induction false} FileWrittenNext(ps: nat, start: seq<byte>, whole: bool, pages: Pages, dev: seq<byte>,
                                           file: seq<byte>, pages': Pages, dev': seq<byte>, file': seq<byte>,
                                           input: seq<byte>, offset: nat, first: nat, base: seq<byte>, p: Piece,
                                           i: nat, index: nat, r: nat, cached: bool)
    requires r == p.at + p.size && index == first + i && cached == (index in pages)
    requires FileWritten(ps, start, whole, pages, dev, file, input, offset, first, base, p.at, i, true)
    requires 0 < p.size && p.local + p.size <= ps && p.at + p.size <= |input|
    requires Base(ps, index) + p.local == offset + p.at
    requires if i == 0 then p.at == 0 && base == WriteBase(|PageBefore(pages, first)|, start, Base(ps, first), p.local)
              else p.local == 0
    requires PieceDone(ps, pages, dev, file, pages', dev', file', index, p, input[p.at..p.at + p.size])
    requires Stored(pages', index, p, input[p.at..p.at + p.size])
    ensures FileWritten(ps, start, whole, pages', dev', file', input, offset, first, base, r, i + 1,
                Kept(ps, cached, start, Base(ps, index), offset + r))
  {
    var lo := Base(ps, index);
    WriteNextPiece(ps, start, base, offset, input, file, i, lo, p, |PageBefore(pages, index)|, index in pages);
    RangeNext(ps, pages, dev, file, pages', dev', file', first, i, index, p, input[p.at..p.at + p.size], offset);
    assert i > 0 ==> lo <= |file|;
  }

  /** The first page is cached, or what it holds in front of the write is zero. */
  ghost predicate GapSafe(cached: bool, file: seq<byte>, lo: nat, local: nat) {
    cached || forall j | lo <= j < Min(lo + local, |file|) :: file[j] == 0
  }

  /**
   * When a write is exact and all of it is seen, told from the recency order and the file alone: its
   * first page is cached, or holds only zeros in front of the write; and its last page is still cached
   * when its turn comes, or holds nothing behind the write.
   */
  ghost predicate WriteSafe(ps: nat, max: nat, recent: seq<PageKey>, file: seq<byte>, id: nat, first: nat, last: nat,
                            offset: nat, len: nat)
    requires first <= last
  {
    && GapSafe(PageKey(id, first) in Take(recent, max), file, Base(ps, first), InPage(ps, first, offset))
    && Kept(ps, PageKey(id, last) in Take(Visit(recent, id, first, last - first), max), file, Base(ps, last),
         offset + len)
  }

  /** What the cache has of the first page, if all of the file is seen before the write. */
  ghost predicate FirstHave(cached: bool, have: nat, file: seq<byte>, lo: nat, local: nat) {
    if cached then WriteBase(have, file, lo, local) == file else have == 0
  }

  /** Zeroing what the first page does not have matters exactly if the page is not safe. */
  lemma {:induction false} WriteBytes(start: seq<byte>, lo: nat, local: nat, input: seq<byte>, cached: bool, have: nat)
    requires FirstHave(cached, have, start, lo, local)
    ensures Splice(WriteBase(have, start, lo, local), lo + local, input) == Splice(start, lo + local, input) <==>
              GapSafe(cached, start, lo, local)
  {
    if !cached { GapMatters(start, lo, local, input); }
  }

  /**
   * A write to a file of which all was seen: unless it starts behind the page of the file's end, the
   * plain spliced file is there to be seen if and only if the write was safe.
   */
  ghost predicate Verdict(ps: nat, max: nat, recent: seq<PageKey>, pages: Pages, dev: seq<byte>, start: seq<byte>,
                          file': seq<byte>, id: nat, first: nat, last: nat, offset: nat, input: seq<byte>)
    requires first <= last
  {
    var safe := WriteSafe(ps, max, recent, start, id, first, last, offset, |input|);
    var after := Splice(start, offset, input);
    (Base(ps, first) <= |start| ==> (FileOk(ps, pages, dev, after) <==> safe)) && (safe ==> file' == after)
  }

  /** What the steps of a write say about its bytes, put together: it is exact if and only if it was safe. */
  lemma {:induction false} WriteVerdict(ps: nat, max: nat, recent: seq<PageKey>, pages: Pages, dev: seq<byte>,
                                        start: seq<byte>, file': seq<byte>, id: nat, first: nat, last: nat,
                                        offset: nat, input: seq<byte>, have: nat, list: seq<PageKey>, kept: bool)
    requires first <= last && Base(ps, first) <= offset && Stands(ps, pages, dev, file')
    requires FirstHave(PageKey(id, first) in Take(recent, max), have, start, Base(ps, first), InPage(ps, first, offset))
    requires file' == Splice(WriteBase(have, start, Base(ps, first), InPage(ps, first, offset)), offset, input)
    requires list == Take(Visit(recent, id, first, last - first), max)
    requires kept == Kept(ps, PageKey(id, last) in list, start, Base(ps, last), offset + |input|)
    requires Base(ps, first) <= |start| ==> (FileOk(ps, pages, dev, file') <==> kept)
    ensures Verdict(ps, max, recent, pages, dev, start, file', id, first, last, offset, input)
  {
    VerdictIs(ps, pages, dev, start, file', Base(ps, first), InPage(ps, first, offset), offset, input,
        PageKey(id, first) in Take(recent, max), have, kept);
  }

  lemma {:induction false} VerdictIs(ps: nat, pages: Pages, dev: seq<byte>, start: seq<byte>, file': seq<byte>,
                                     lo: nat, local: nat, offset: nat, input: seq<byte>, cached: bool, have: nat,
                                     kept: bool)
    requires offset == lo + local && FirstHave(cached, have, start, lo, local) && Stands(ps, pages, dev, file')
    requires file' == Splice(WriteBase(have, start, lo, local), offset, input)
    requires lo <= |start| ==> (FileOk(ps, pages, dev, file') <==> kept)
    ensures var after := Splice(start, offset, input);
            && (lo <= |start| ==> (FileOk(ps, pages, dev, after) <==> GapSafe(cached, start, lo, local) && kept))
            && (GapSafe(cached, start, lo, local) ==> file' == after)
  {
    WriteBytes(start, lo, local, input, cached, have);
    OnlyFileOk(ps, pages, dev, file', Splice(start, offset, input));
  }

  lemma {:induction false} OnlyFileOk(ps: nat, pages: Pages, dev: seq<byte>, file: seq<byte>, other: seq<byte>)
    requires Stands(ps, pages, dev, file)
    ensures FileOk(ps, pages, dev, other) <==> other == file && FileOk(ps, pages, dev, file)
  {
    if FileOk(ps, pages, dev, other) { FileUnique(ps, pages, dev, file, other); }
  }

  /** Starting past the end of a page, off its beginning, `Page::read` returns bytes that do not exist. */
  lemma {:induction false} ReadPastEnd()
    ensures var page := PageVal([7], false);
            Holds(page.content, [7], 0, 4) && PageRead(4, page, 2, 2) == [0, 0] && Window([7], 2, 2) == []
  {
    HoldsIsWindow([7], [7], 0, 4);
  }

  /** A one-byte write into an uncached page is not safe if the page holds anything but zeros in front of it. */
  lemma {:induction false} UnsafeWrite(file: seq<byte>)
    requires file == [1, 2, 3, 4]
    ensures !WriteSafe(4, 8, [], file, 0, 0, 0, 1, 1)
  {
    assert file[0] != 0;
  }

  /**
   * What becomes of that page: the byte in front of the write is zeroed, and those behind it are not
   * seen. The file still has them, so a push of the page leaves them on the device, from where they
   * come back once the page has been evicted.
   */
  lemma {:induction false} UnsafeWritePage(file: seq<byte>, file': seq<byte>, pages: Pages)
    requires file == [1, 2, 3, 4] && file' == [1, 9, 3, 4] && pages == PagesAfterWrite(map[], 0, 1, [9])
    ensures pages[0].content == [0, 9] && !FileOk(4, pages, file, file')
    ensures Stands(4, pages, file, [0, 9, 3, 4]) && Seen(4, pages, file, 2) == -1
    ensures Pushed(4, pages[0], file, 0, 2) == [0, 9, 3, 4]
  {
    Uncached(4, file);
    assert Splice(WriteBase(0, file, 0, 1), 1, [9]) == [0, 9, 3, 4];
    WriteStep(4, map[], file, file, [0, 9, 3, 4], 0, 0, 1, [9]);
    if FileOk(4, pages, file, file') { FileUnique(4, pages, file, file', [0, 9, 3, 4]); }
  }
}
