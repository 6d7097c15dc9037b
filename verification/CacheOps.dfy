/** The operations of madbfs/src/cache.cpp, put together from the page steps. */
module CacheOps {
  import opened Bytes
  import opened Tiling
  import opened PageModel
  import opened Recency
  import opened CacheModel
  import opened Transfer
  import opened CacheSteps

  /** What a read of the file has achieved after i pieces, up to `at`, judged by the cache it began with. */
  ghost predicate ReadState(s0: State, v0: View, id: Id, offset: nat, local: nat, before: seq<byte>, out: seq<byte>,
                            total: nat, at: nat, i: nat)
    requires s0.pageSize > 0
  {
    var file := Content(v0.logical, id);
    && ReadSeen(s0.pageSize, PagesOf(s0.table, id), Content(s0.device, id), file, offset, out, at)
    && (Whole(s0, v0, id) ==> ReadSoFar(file, offset, local, before, out, total, at, i))
  }

  /** What one piece of a read does to the buffer. */
  ghost predicate PieceGot(s: State, v: View, id: Id, index: nat, p: Piece, out: seq<byte>, out': seq<byte>, n: nat,
                           content: seq<byte>) {
    var file, lo := Content(v.logical, id), Base(s.pageSize, index);
    && Gets(s, v, id, index, content) && PieceShown(file, content, lo, p, out, out')
    && (Whole(s, v, id) ==> PieceRead(file, lo + p.local, p, out, out', n))
  }

  /** One page step of a read: nothing is lost or hidden, and it succeeds unless a call is refused. */
  ghost predicate PieceStep(s: State, v: View, s': State, v': View, id: Id, index: nat, p: Piece, out: seq<byte>,
                            out': seq<byte>, r: Result<nat, Errc>, content: seq<byte>) {
    && Valid(s', v') && Frame(s, s') && Quiet(s, v, s', v', {})
    && v'.history == (if r.Ok? then v.history + [Use(PageKey(id, index))] else v.history)
    && (v'.faults == v.faults ==> r.Ok?)
    && |out'| == |out|
    && (r.Ok? && id !in v'.damaged ==> PieceGot(s, v, id, index, p, out, out', r.value, content))
  }

  /** `read_at`: the page's piece of the request goes to its place in the buffer. */
  method ReadAt(s: State, ghost v: View, id: Id, index: nat, p: Piece, out: seq<byte>)
    returns (s': State, ghost v': View, out': seq<byte>, r: Result<nat, Errc>, ghost content: seq<byte>)
    requires Valid(s, v) && id in s.entries
    requires p.local + p.size <= s.pageSize && p.at + p.size <= |out|
    ensures PieceStep(s, v, s', v', id, index, p, out, out', r, content)
  {
    var page;
    s', v', page := Access(s, v, PageKey(id, index));
    if page.Err? {
      return s', v', out, Err(page.error), [];
    }
    content := page.value.content;
    var bytes := PageRead(s.pageSize, page.value, p.local, p.size);
    out' := Splice(out, p.at, bytes);
    if id !in v'.damaged {
      PieceGets(s, v, id, index, p, out, page.value, bytes, out');
    }
    r := Ok(|bytes|);
  }

  lemma {:induction false} PieceGets(s: State, v: View, id: Id, index: nat, p: Piece, out: seq<byte>, page: PageVal,
                                     bytes: seq<byte>, out': seq<byte>)
    requires 0 < s.pageSize <= 0xFFFF_FFFF && |page.content| <= s.pageSize
    requires Gets(s, v, id, index, page.content) && p.local + p.size <= s.pageSize && p.at + p.size <= |out|
    requires bytes == PageRead(s.pageSize, page, p.local, p.size) && out' == Splice(out, p.at, bytes)
    ensures PieceGot(s, v, id, index, p, out, out', |bytes|, page.content)
  {
    var file, lo := Content(v.logical, id), Base(s.pageSize, index);
    ReadShown(s.pageSize, file, page, lo, p, out, bytes, out');
    if Whole(s, v, id) {
      ReadPiece(s.pageSize, file, page, lo, lo + p.local, p, out, bytes, out');
    }
  }

  /** Where a read of n pages stands after i page steps, having filled the buffer up to `at`. */
  ghost predicate ReadUpTo(s0: State, v0: View, s: State, v: View, id: Id, acc: Result<nat, Errc>, offset: nat,
                           first: nat, local: nat, before: seq<byte>, out: seq<byte>, at: nat, i: nat) {
    && Valid(s, v) && Frame(s0, s) && Quiet(s0, v0, s, v, {})
    && |out| == |before|
    && SomeUses(v0.history, v.history, id, first, i)
    && (acc.Ok? ==> v.history == Uses(v0.history, id, first, i))
    && (v.faults == v0.faults ==> acc.Ok?)
    && (acc.Ok? && id !in v.damaged && s0.pageSize > 0 ==>
          ReadState(s0, v0, id, offset, local, before, out, acc.value, at, i))
  }

  /** One more piece of a read that has filled the buffer up to it. */
  lemma {:induction false} ReadMore(s0: State, v0: View, s: State, v: View, id: Id, index: nat, p: Piece, offset: nat,
                                    local: nat, before: seq<byte>, was: seq<byte>, out: seq<byte>, total: nat, n: nat,
                                    i: nat, content: seq<byte>)
    requires 0 < s0.pageSize == s.pageSize && Sound(s, v) && Quiet(s0, v0, s, v, {}) && id !in v.damaged
    requires ReadState(s0, v0, id, offset, local, before, was, total, p.at, i)
    requires PieceGot(s, v, id, index, p, was, out, n, content)
    requires 0 < p.size && p.local + p.size <= s.pageSize && Base(s.pageSize, index) + p.local == offset + p.at
    requires if i == 0 then p.local == local && p.at == 0 else p.local == 0
    ensures ReadState(s0, v0, id, offset, local, before, out, total + n, p.at + p.size, i + 1)
  {
    var ps, pages, dev, file := s.pageSize, PagesOf(s0.table, id), Content(s0.device, id), Content(v0.logical, id);
    assert FileGrows(ps, s0.table, s0.device, s.table, s.device, id);
    forall o: nat | o < ps && Shown(ps, pages, dev, index, o) ensures o < |content| {
      assert ShownIn(s, id, index, o);
    }
    ReadSeenOn(ps, pages, dev, file, offset, index, content, p, was, out);
    if Whole(s0, v0, id) {
      WholeKept(s0, v0, s, v, id, {});
      ReadOn(file, offset, local, before, was, out, total, n, i, p);
    }
  }

  /** The i-th page step of a read; one that fails does not stop the others, and its error stays. */
  method ReadOne(ghost s0: State, ghost v0: View, s: State, ghost v: View, id: Id, acc: Result<nat, Errc>,
                 ghost offset: nat, first: nat, ghost before: seq<byte>, out: seq<byte>, pieces: seq<Piece>, i: nat)
    returns (s': State, ghost v': View, out': seq<byte>, r: Result<nat, Errc>)
    requires Cover(s.pageSize, offset, |before|, first, pieces) && i < |pieces| && id in s.entries
    requires ReadUpTo(s0, v0, s, v, id, acc, offset, first, pieces[0].local, before, out, pieces[i].at, i)
    ensures ReadUpTo(s0, v0, s', v', id, r, offset, first, pieces[0].local, before, out',
                if i + 1 < |pieces| then pieces[i + 1].at else |before|, i + 1)
  {
    CoverAt(s.pageSize, offset, |before|, first, pieces, i);
    var n;
    ghost var content;
    s', v', out', n, content := ReadAt(s, v, id, first + i, pieces[i], out);
    ReadUpToNext(s0, v0, s, v, s', v', id, acc, n, offset, first, pieces[0].local, before, out, out', pieces[i], i,
        content);
    return s', v', out', Plus(acc, n);
  }

  /** The sum of both counts, or the first error. */
  function Plus(a: Result<nat, Errc>, b: Result<nat, Errc>): Result<nat, Errc> {
    if a.Err? then a else if b.Err? then b else Ok(a.value + b.value)
  }

  lemma {:induction false} ReadUpToNext(s0: State, v0: View, s: State, v: View, s': State, v': View, id: Id,
                                        acc: Result<nat, Errc>, n: Result<nat, Errc>, offset: nat, first: nat,
                                        local: nat, before: seq<byte>, out: seq<byte>, out': seq<byte>, p: Piece,
                                        i: nat, content: seq<byte>)
    requires ReadUpTo(s0, v0, s, v, id, acc, offset, first, local, before, out, p.at, i)
    requires PieceStep(s, v, s', v', id, first + i, p, out, out', n, content)
    requires 0 < p.size && p.local + p.size <= s.pageSize && Base(s.pageSize, first + i) + p.local == offset + p.at
    requires if i == 0 then p.local == local && p.at == 0 else p.local == 0
    ensures ReadUpTo(s0, v0, s', v', id, Plus(acc, n), offset, first, local, before, out', p.at + p.size, i + 1)
  {
    UsesNext(v0.history, id, first, i);
    SomeUsesNext(v0.history, v.history, id, first, i);
    QuietOn(s0, v0, s, v, s', v', {});
    if acc.Ok? && n.Ok? && id !in v'.damaged {
      ReadMore(s0, v0, s, v, id, first + i, p, offset, local, before, out, out', acc.value, n.value, i, content);
    }
  }

  lemma {:induction false} ReadStart(s: State, v: View, id: Id, offset: nat, first: nat, pieces: seq<Piece>,
                                     before: seq<byte>)
    requires Valid(s, v) && Cover(s.pageSize, offset, |before|, first, pieces)
    ensures ReadUpTo(s, v, s, v, id, Ok(0), offset, first, pieces[0].local, before, before, pieces[0].at, 0)
  {
    CoverAt(s.pageSize, offset, |before|, first, pieces, 0);
    QuietSelf(s, v, {});
  }

  /** The page steps of `read`. */
  method ReadPieces(s: State, ghost v: View, id: Id, before: seq<byte>, offset: nat, first: nat, pieces: seq<Piece>)
    returns (s': State, ghost v': View, out: seq<byte>, r: Result<nat, Errc>)
    requires Valid(s, v) && id in s.entries && Cover(s.pageSize, offset, |before|, first, pieces)
    ensures |out| == |before| && Frame(s, s')
    ensures ReadUpTo(s, v, s', v', id, r, offset, first, pieces[0].local, before, out, |before|, |pieces|)
  {
    s', v', out, r := s, v, before, Ok(0);
    ReadStart(s, v, id, offset, first, pieces, before);
    for i := 0 to |pieces|
      invariant ReadUpTo(s, v, s', v', id, r, offset, first, pieces[0].local, before, out,
                    if i < |pieces| then pieces[i].at else |before|, i)
    {
      s', v', out, r := ReadOne(s, v, s', v', id, r, offset, first, before, out, pieces, i);
    }
  }

  /**
   * `read`. If it succeeds, the buffer holds whatever was seen of the file from `offset` on. If all of
   * the file was seen, these are exactly its bytes, whatever mix of hits, misses and evictions it took,
   * provided the offset is not past the end of the file or is on a page boundary. Past the end and off
   * a boundary it reports bytes that do not exist.
   */
  method Read(s: State, ghost v: View, id: Id, before: seq<byte>, offset: nat)
    returns (s': State, ghost v': View, out: seq<byte>, r: Result<nat, Errc>)
    requires Valid(s, v) && before != []
    ensures Valid(s', v') && Frame(s, s') && Quiet(s, v, s', v', {})
    ensures id !in s.entries ==> r == Err(BadFileDescriptor)
    ensures |out| == |before|
    ensures id in s.entries ==>
              SomeUses(v.history, v'.history, id, FirstPage(s.pageSize, offset),
                  PageCount(s.pageSize, offset, |before|))
    ensures id !in s.entries ==> s' == s && v' == v
    ensures id in s.entries && v'.faults == v.faults ==> r.Ok?
    ensures r.Ok? ==>
              v'.history == Uses(v.history, id, FirstPage(s.pageSize, offset), PageCount(s.pageSize, offset, |before|))
    ensures r.Ok? && id !in v'.damaged ==>
              forall j | offset <= j < offset + |out| && SeenIn(s, id, j) >= 0 ::
                out[j - offset] == SeenIn(s, id, j) == At(Content(v.logical, id), j)
    ensures r.Ok? && id !in v'.damaged && Whole(s, v, id) ==>
              var file := Content(v.logical, id);
              var wanted := Window(file, offset, |before|);
              if offset <= |file| || offset % s.pageSize == 0
              then r.value == |wanted| && out == wanted + before[|wanted|..]
              else r.value > |wanted|
  {
    if id !in s.entries {
      QuietSelf(s, v, {});
      return s, v, before, Err(BadFileDescriptor);
    }
    var first, pieces := Pieces(s.pageSize, offset, |before|);
    s', v', out, r := ReadPieces(s, v, id, before, offset, first, pieces);
    if r.Ok? && id !in v'.damaged {
      SeenRead(s, v, id, offset, out);
      if Whole(s, v, id) {
        ReadDone(Content(v.logical, id), offset, pieces[0].local, before, out, r.value, |pieces|);
      }
    }
  }

  lemma {:induction false} SeenRead(s: State, v: View, id: Id, offset: nat, out: seq<byte>)
    requires Sound(s, v) && ReadSeen(s.pageSize, PagesOf(s.table, id), Content(s.device, id), Content(v.logical, id),
              offset, out, |out|)
    ensures forall j | offset <= j < offset + |out| && SeenIn(s, id, j) >= 0 ::
              out[j - offset] == SeenIn(s, id, j) == At(Content(v.logical, id), j)
  {
    assert FileStands(s.pageSize, s.table, s.device, v.logical, id);
    forall j | offset <= j < offset + |out| && SeenIn(s, id, j) >= 0
      ensures out[j - offset] == SeenIn(s, id, j) == At(Content(v.logical, id), j)
    {
      SeenStands(s.pageSize, PagesOf(s.table, id), Content(s.device, id), Content(v.logical, id), j);
    }
  }

  /** The page a write goes to: the cached one, or a new empty one, which is not fetched. */
  method FindOrCreate(s: State, ghost v: View, key: PageKey) returns (s': State, ghost v': View, page: PageVal)
    requires Sound(s, v)
    ensures Sound(s', v') && Frame(s, s') && Quiet(s, v, s', v', {}) && v'.history == v.history
    ensures Trimmed(s'.lru, s.lru, key, s.maxPages)
    ensures page.content == PageBefore(PagesOf(s'.table, key.id), key.index) && |page.content| <= s.pageSize
    ensures |page.content| == Had(s, key) && (key.index in PagesOf(s'.table, key.id) <==> key in s.lru)
  {
    assert Cached(s.table, key) <==> key in s.lru;
    if key in s.lru {
      QuietSelf(s, v, {});
      return s, v, s.table[key.id][key.index];
    }
    s', v' := MakeRoom(s, v, key, []);
    assert !Cached(s'.table, key);
    return s', v', PageVal([], false);
  }

  /** How many bytes of a page the cache has. */
  function Had(s: State, key: PageKey): nat { |PageBefore(PagesOf(s.table, key.id), key.index)| }

  /**
   * One page step of a write: the page has the bytes, and unless the file has lost some, they are in
   * the file.
   */
  ghost predicate Wrote(s: State, v: View, s': State, v': View, id: Id, index: nat, p: Piece, data: seq<byte>) {
    && Valid(s', v') && Frame(s, s') && Quiet(s, v, s', v', {id})
    && v'.history == v.history + [Use(PageKey(id, index))]
    && Stored(PagesOf(s'.table, id), index, p, data)
    && (id !in v'.damaged ==>
          PieceDone(s.pageSize, PagesOf(s.table, id), Content(s.device, id), Content(v.logical, id),
              PagesOf(s'.table, id), Content(s'.device, id), Content(v'.logical, id), index, p, data))
  }

  /** `write_at`: one page's piece of the input, written into the page and marked dirty. */
  method WriteAt(s: State, ghost v: View, id: Id, index: nat, p: Piece, data: seq<byte>)
    returns (s': State, ghost v': View, n: nat)
    requires Valid(s, v) && id in s.dirty
    requires 0 < |data| == p.size && p.local + p.size <= s.pageSize
    ensures n == p.size && Wrote(s, v, s', v', id, index, p, data)
  {
    var key := PageKey(id, index);
    var page;
    s', v', page := FindOrCreate(s, v, key);
    PageWriteInside(s.pageSize, page, data, p.local);
    var (page', written) := PageWrite(s.pageSize, page, data, p.local);
    ghost var s1, v1 := s', v';
    ghost var file' := ReadyToWrite(s1, v1, key, p, data);
    s', v' := Put(s', v', key, page'.(dirty := true), file', s.lru);
    PutIsWrite(s, v, s1, v1, s', v', id, index, p, data);
    n := written;
  }

  /** The file with the bytes is what the pages with the bytes will stand for. */
  lemma {:induction false} ReadyToWrite(s: State, v: View, key: PageKey, p: Piece, data: seq<byte>)
    returns (file': seq<byte>)
    requires Sound(s, v) && 0 < |data| == p.size && p.local + p.size <= s.pageSize
    ensures file' == PieceWritten(Had(s, key), Content(v.logical, key.id), Base(s.pageSize, key.index), p, data)
    ensures Stands(s.pageSize, PagesAfterWrite(PagesOf(s.table, key.id), key.index, p.local, data),
                Content(s.device, key.id), file')
  {
    assert FileStands(s.pageSize, s.table, s.device, v.logical, key.id);
    file' := PieceWritten(Had(s, key), Content(v.logical, key.id), Base(s.pageSize, key.index), p, data);
    PieceStands(s.pageSize, PagesOf(s.table, key.id), Content(s.device, key.id), Content(v.logical, key.id),
        key.index, p, data);
  }

  lemma {:induction false} PutIsWrite(s: State, v: View, s1: State, v1: View, s': State, v': View, id: Id, index: nat,
                                      p: Piece, data: seq<byte>)
    requires Sound(s1, v1) && Quiet(s, v, s1, v1, {}) && Frame(s, s1) && v1.history == v.history
    requires Valid(s', v') && Frame(s1, s') && s'.device == s1.device
    requires |PageBefore(PagesOf(s1.table, id), index)| == Had(s, PageKey(id, index))
    requires index in PagesOf(s1.table, id) <==> index in PagesOf(s.table, id)
    requires 0 < |data| == p.size && p.local + p.size <= s.pageSize
    requires s'.table == s1.table[id := PagesAfterWrite(PagesOf(s1.table, id), index, p.local, data)]
    requires v' == v1.(history := v1.history + [Use(PageKey(id, index))],
              logical := v1.logical[id := PieceWritten(Had(s, PageKey(id, index)), Content(v1.logical, id),
                  Base(s.pageSize, index), p, data)])
    ensures Wrote(s, v, s', v', id, index, p, data)
  {
    var pages' := PagesOf(s'.table, id);
    PutQuiet(s, v, s1, v1, s', v', id);
    PieceStored(PagesOf(s1.table, id), pages', index, p, data);
    if id !in v'.damaged {
      PutIsDone(s, v, s1, v1, s', v', id, index, p, data);
    }
  }

  lemma {:induction false} PutIsDone(s: State, v: View, s1: State, v1: View, s': State, v': View, id: Id, index: nat,
                                     p: Piece, data: seq<byte>)
    requires Refined(s.pageSize, s1.table, s1.device, v1.logical) && Quiet(s, v, s1, v1, {}) && id !in v1.damaged
    requires |PageBefore(PagesOf(s1.table, id), index)| == Had(s, PageKey(id, index))
    requires index in PagesOf(s1.table, id) <==> index in PagesOf(s.table, id)
    requires 0 < |data| == p.size && p.local + p.size <= s.pageSize
    requires PagesOf(s'.table, id) == PagesAfterWrite(PagesOf(s1.table, id), index, p.local, data)
    requires Content(s'.device, id) == Content(s1.device, id)
    requires Content(v'.logical, id) == PieceWritten(Had(s, PageKey(id, index)), Content(v1.logical, id),
                  Base(s.pageSize, index), p, data)
    ensures PieceDone(s.pageSize, PagesOf(s.table, id), Content(s.device, id), Content(v.logical, id),
                PagesOf(s'.table, id), Content(s'.device, id), Content(v'.logical, id), index, p, data)
  {
    assert FileGrows(s.pageSize, s.table, s.device, s1.table, s1.device, id);
    assert FileStands(s.pageSize, s1.table, s1.device, v1.logical, id);
    PieceIsDone(s.pageSize, PagesOf(s.table, id), Content(s.device, id), PagesOf(s1.table, id), Content(s1.device, id),
        Content(v.logical, id), PagesOf(s'.table, id), Content(v'.logical, id), index, p, data);
  }

  lemma {:induction false} PutQuiet(s: State, v: View, s1: State, v1: View, s': State, v': View, id: Id)
    requires Quiet(s, v, s1, v1, {}) && Frame(s, s1) && s'.device == s1.device
    requires s'.table == s1.table[id := PagesOf(s'.table, id)]
    requires v' == v1.(history := v'.history, logical := v1.logical[id := Content(v'.logical, id)])
    ensures Quiet(s, v, s', v', {id})
  {
    AllGrowMore(s.pageSize, s.table, s.device, s1.table, s1.device, v1.damaged + {}, v1.damaged + {id});
    GrowsPut(s.pageSize, s.table, s.device, s1.table, s1.device, id, PagesOf(s'.table, id), v1.damaged + {id});
    assert forall i {:trigger Content(v'.logical, i)} | i != id :: Content(v'.logical, i) == Content(v1.logical, i);
  }

  /** Where a write stands after i page steps that have stored the first `at` bytes of the input. */
  ghost predicate Written(s0: State, v0: View, s: State, v: View, id: Id, input: seq<byte>, offset: nat, first: nat,
                          base: seq<byte>, at: nat, i: nat, seen: bool) {
    && Valid(s, v) && Frame(s0, s) && Quiet(s0, v0, s, v, {id})
    && v.history == Uses(v0.history, id, first, i)
    && (id !in v.damaged ==>
         FileSoFar(s0.pageSize, Content(v0.logical, id), Whole(s0, v0, id), s, v, id, input, offset, first,
            base, at, i, seen))
  }

  ghost predicate FileSoFar(ps: nat, start: seq<byte>, whole: bool, s: State, v: View, id: Id, input: seq<byte>,
                            offset: nat, first: nat, base: seq<byte>, at: nat, i: nat, seen: bool) {
    FileWritten(ps, start, whole, PagesOf(s.table, id), Content(s.device, id), Content(v.logical, id), input, offset,
        first, base, at, i, seen)
  }

  /** What a write keeps of the file for its first page step. */
  ghost function FirstBase(s: State, v: View, id: Id, first: nat, local: nat): seq<byte> {
    WriteBase(Had(s, PageKey(id, first)), Content(v.logical, id), Base(s.pageSize, first), local)
  }

  /** No byte is hidden by a write to the page that ends at `end`, as the list and the old file are. */
  ghost predicate LastKept(s: State, v: View, list: seq<PageKey>, id: Id, index: nat, end: nat) {
    Kept(s.pageSize, PageKey(id, index) in list, Content(v.logical, id), Base(s.pageSize, index), end)
  }

  /** One page step of a write. */
  method WriteOne(ghost s0: State, ghost v0: View, s: State, ghost v: View, id: Id, input: seq<byte>, offset: nat,
                  first: nat, p: Piece, total: nat, ghost base: seq<byte>, i: nat, index: nat)
    returns (s': State, ghost v': View, r: nat)
    requires id in s.dirty && Written(s0, v0, s, v, id, input, offset, first, base, total, i, true) && total == p.at
    requires 0 < p.size && p.local + p.size <= s.pageSize && p.at + p.size <= |input|
    requires index == first + i && Base(s.pageSize, index) + p.local == offset + p.at
    requires if i == 0 then p.at == 0 && s == s0 && v == v0 && base == FirstBase(s, v, id, first, p.local)
              else p.local == 0
    ensures r == p.at + p.size
    ensures Written(s0, v0, s', v', id, input, offset, first, base, r, i + 1,
                LastKept(s0, v0, s.lru, id, index, offset + r))
  {
    var n;
    s', v', n := WriteAt(s, v, id, index, p, input[p.at..p.at + p.size]);
    r := total + n;
    WrittenNext(s0, v0, s, v, s', v', id, input, offset, first, base, p, i, index, r);
  }

  lemma {:induction false} WrittenNext(s0: State, v0: View, s: State, v: View, s': State, v': View, id: Id,
                                       input: seq<byte>, offset: nat, first: nat, base: seq<byte>, p: Piece, i: nat,
                                       index: nat, r: nat)
    requires Written(s0, v0, s, v, id, input, offset, first, base, p.at, i, true) && r == p.at + p.size
    requires 0 < p.size && p.local + p.size <= s.pageSize && p.at + p.size <= |input|
    requires index == first + i && Base(s.pageSize, index) + p.local == offset + p.at
    requires if i == 0 then p.at == 0 && s == s0 && v == v0 && base == FirstBase(s, v, id, first, p.local)
              else p.local == 0
    requires Wrote(s, v, s', v', id, index, p, input[p.at..p.at + p.size])
    ensures Written(s0, v0, s', v', id, input, offset, first, base, r, i + 1,
                LastKept(s0, v0, s.lru, id, index, offset + r))
  {
    UsesNext(v0.history, id, first, i);
    QuietOn(s0, v0, s, v, s', v', {id});
    if id !in v'.damaged {
      assert Cached(s.table, PageKey(id, index)) <==> PageKey(id, index) in s.lru;
      FileNext(s0.pageSize, Content(v0.logical, id), Whole(s0, v0, id), s, v, s', v', id, input, offset, first, base, p,
          i, index, r, index in PagesOf(s.table, id));
    }
  }

  lemma {:induction false} FileNext(ps: nat, start: seq<byte>, whole: bool, s: State, v: View, s': State, v': View,
                                    id: Id, input: seq<byte>, offset: nat, first: nat, base: seq<byte>, p: Piece,
                                    i: nat, index: nat, r: nat, cached: bool)
    requires FileSoFar(ps, start, whole, s, v, id, input, offset, first, base, p.at, i, true) && r == p.at + p.size
    requires s.pageSize == ps && index == first + i && cached == (index in PagesOf(s.table, id))
    requires 0 < p.size && p.local + p.size <= ps && p.at + p.size <= |input|
    requires Base(ps, index) + p.local == offset + p.at
    requires if i == 0 then p.at == 0 && start == Content(v.logical, id) && base == FirstBase(s, v, id, first, p.local)
              else p.local == 0
    requires Stored(PagesOf(s'.table, id), index, p, input[p.at..p.at + p.size])
    requires PieceDone(ps, PagesOf(s.table, id), Content(s.device, id), Content(v.logical, id),
              PagesOf(s'.table, id), Content(s'.device, id), Content(v'.logical, id), index, p,
              input[p.at..p.at + p.size])
    ensures FileSoFar(ps, start, whole, s', v', id, input, offset, first, base, r, i + 1,
                Kept(ps, cached, start, Base(ps, index), offset + r))
  {
    FileWrittenNext(ps, start, whole, PagesOf(s.table, id), Content(s.device, id), Content(v.logical, id),
        PagesOf(s'.table, id), Content(s'.device, id), Content(v'.logical, id), input, offset, first, base, p, i,
        index, r, cached);
  }

  lemma {:induction false} WrittenStart(s: State, v: View, id: Id, input: seq<byte>, offset: nat, first: nat,
                                        base: seq<byte>)
    requires Valid(s, v) && |base| == |Content(v.logical, id)|
    ensures Written(s, v, s, v, id, input, offset, first, base, 0, 0, true)
  {
    QuietSelf(s, v, {id});
  }

  /** A page step that is not the last: it fills its page to the end. */
  method WriteFull(ghost s0: State, ghost v0: View, s: State, ghost v: View, id: Id, input: seq<byte>, offset: nat,
                   first: nat, pieces: seq<Piece>, total: nat, ghost base: seq<byte>, i: nat)
    returns (s': State, ghost v': View, r: nat)
    requires id in s.dirty && Cover(s.pageSize, offset, |input|, first, pieces) && i < |pieces| - 1
    requires Written(s0, v0, s, v, id, input, offset, first, base, total, i, true) && total == pieces[i].at
    requires i == 0 ==> s == s0 && v == v0 && base == FirstBase(s, v, id, first, pieces[0].local)
    ensures Written(s0, v0, s', v', id, input, offset, first, base, r, i + 1, true) && r == pieces[i + 1].at
  {
    CoverAt(s.pageSize, offset, |input|, first, pieces, i);
    s', v', r := WriteOne(s0, v0, s, v, id, input, offset, first, pieces[i], total, base, i, first + i);
    assert LastKept(s0, v0, s.lru, id, first + i, offset + r);
  }

  /** The page steps of `write` but the last. */
  method WriteFulls(s: State, ghost v: View, id: Id, input: seq<byte>, offset: nat, first: nat, pieces: seq<Piece>,
                    k: nat, ghost base: seq<byte>)
    returns (s': State, ghost v': View, total: nat)
    requires Valid(s, v) && id in s.dirty && Cover(s.pageSize, offset, |input|, first, pieces)
    requires k == |pieces| - 1 && base == FirstBase(s, v, id, first, pieces[0].local)
    ensures Written(s, v, s', v', id, input, offset, first, base, total, k, true) && total == pieces[k].at
    ensures k == 0 ==> s' == s && v' == v
  {
    s', v', total := s, v, 0;
    CoverAt(s.pageSize, offset, |input|, first, pieces, 0);
    WrittenStart(s, v, id, input, offset, first, base);
    for i := 0 to k
      invariant Written(s, v, s', v', id, input, offset, first, base, total, i, true) && total == pieces[i].at
      invariant i == 0 ==> s' == s && v' == v
    {
      s', v', total := WriteFull(s, v, s', v', id, input, offset, first, pieces, total, base, i);
    }
  }

  /** The page steps of `write`. */
  method WritePieces(s: State, ghost v: View, id: Id, input: seq<byte>, offset: nat, first: nat, pieces: seq<Piece>,
                     last: nat, k: nat, ghost base: seq<byte>)
    returns (s': State, ghost v': View, total: nat, ghost list: seq<PageKey>)
    requires Valid(s, v) && id in s.dirty && Cover(s.pageSize, offset, |input|, first, pieces)
    requires k == |pieces| - 1 && last == first + k && base == FirstBase(s, v, id, first, pieces[0].local)
    ensures total == |input|
    ensures Listed(list, Uses(v.history, id, first, k), s.maxPages)
    ensures Written(s, v, s', v', id, input, offset, first, base, |input|, k + 1,
                LastKept(s, v, list, id, last, offset + |input|))
  {
    s', v', total := WriteFulls(s, v, id, input, offset, first, pieces, k, base);
    list := s'.lru;
    CoverAt(s.pageSize, offset, |input|, first, pieces, k);
    s', v', total := WriteOne(s, v, s', v', id, input, offset, first, pieces[k], total, base, k, last);
  }

  /**
   * `write`. Whatever is evicted on the way, afterwards the cache and the device stand for the flat
   * file with the input written at `offset`, wherever that is, after zeroing what the cache did not
   * have of the first page in front of it; and all of the input is seen. If all of the file was seen,
   * it is so for the plain flat file's write if and only if the write was safe: its first page was
   * cached, or held only zeros in front of it; and its last page was still cached when its turn came,
   * or held nothing behind it.
   */
  method Write(s: State, ghost v: View, id: Id, input: seq<byte>, offset: nat)
    returns (s': State, ghost v': View, r: Result<nat, Errc>)
    requires Valid(s, v) && input != []
    ensures Valid(s', v') && Quiet(s, v, s', v', {id})
    ensures if id in s.entries then r == Ok(|input|) else r == Err(BadFileDescriptor) && s' == s && v' == v
    ensures id in s.entries ==> Frame(s.(dirty := s.dirty + {id}), s')
    ensures id in s.entries ==>
              v'.history == Uses(v.history, id, FirstPage(s.pageSize, offset), PageCount(s.pageSize, offset, |input|))
    ensures FirstPage(s.pageSize, offset) <= LastPage(s.pageSize, offset, |input|)
    ensures id in s.entries && id !in v'.damaged ==>
              WriteOutcome(s, v, s', v', id, input, offset, FirstPage(s.pageSize, offset),
                  LastPage(s.pageSize, offset, |input|))
  {
    QuietSelf(s, v, {id});
    FirstBeforeLast(s.pageSize, offset, |input|);
    if id !in s.entries {
      return s, v, Err(BadFileDescriptor);
    }
    var first, pieces := Pieces(s.pageSize, offset, |input|);
    var last, n := LastPage(s.pageSize, offset, |input|), 0;
    assert last + 1 == first + |pieces|;
    DirtyKeeps(s.pageSize, s.lru, s.table, s.dirty, s.dirty + {id}, s.device, v.logical);
    var s0 := s.(dirty := s.dirty + {id});
    s', v', n := WriteTo(s0, v, id, input, offset, first, last, pieces);
    SameOutcome(s, s0, v, s', v', id, input, offset, first, last);
    r := Ok(n);
  }

  /** `write`, once the entry is marked and the request is cut up. */
  method WriteTo(s: State, ghost v: View, id: Id, input: seq<byte>, offset: nat, first: nat, last: nat,
                 pieces: seq<Piece>)
    returns (s': State, ghost v': View, n: nat)
    requires Valid(s, v) && id in s.dirty && Cover(s.pageSize, offset, |input|, first, pieces)
    requires first == FirstPage(s.pageSize, offset) && last + 1 == first + |pieces|
    ensures Valid(s', v') && Quiet(s, v, s', v', {id}) && Frame(s, s') && n == |input|
    ensures v'.history == Uses(v.history, id, first, |pieces|)
    ensures id !in v'.damaged ==> WriteOutcome(s, v, s', v', id, input, offset, first, last)
  {
    CoverAt(s.pageSize, offset, |input|, first, pieces, 0);
    assert pieces[0].local == InPage(s.pageSize, first, offset);
    ghost var base := FirstBase(s, v, id, first, InPage(s.pageSize, first, offset));
    ghost var list;
    s', v', n, list := WritePieces(s, v, id, input, offset, first, pieces, last, |pieces| - 1, base);
    WriteDone(s, v, s', v', id, input, offset, first, last, |pieces| - 1, base, list);
  }

  lemma {:induction false} SameOutcome(s: State, s0: State, v: View, s': State, v': View, id: Id, input: seq<byte>,
                                       offset: nat, first: nat, last: nat)
    requires s0 == s.(dirty := s0.dirty) && s.pageSize > 0 && s'.pageSize > 0 && first <= last
    ensures WriteOutcome(s0, v, s', v', id, input, offset, first, last) <==>
              WriteOutcome(s, v, s', v', id, input, offset, first, last)
  {
  }

  lemma {:induction false} WriteDone(s: State, v: View, s': State, v': View, id: Id, input: seq<byte>, offset: nat,
                                     first: nat, last: nat, k: nat, base: seq<byte>, list: seq<PageKey>)
    requires Valid(s, v) && first == FirstPage(s.pageSize, offset) && first + k == last
    requires Base(s.pageSize, first) <= offset < Base(s.pageSize, first) + s.pageSize
    requires base == FirstBase(s, v, id, first, InPage(s.pageSize, first, offset))
    requires Listed(list, Uses(v.history, id, first, k), s.maxPages)
    requires Written(s, v, s', v', id, input, offset, first, base, |input|, k + 1,
              LastKept(s, v, list, id, last, offset + |input|))
    ensures s'.pageSize > 0 && (id !in v'.damaged ==> WriteOutcome(s, v, s', v', id, input, offset, first, last))
  {
    if id !in v'.damaged {
      WriteComesTo(s, v, s', v', id, input, offset, first, last, k, base, list);
    }
  }

  /** What a write to the pages from first to last makes of its file, and what is seen of it. */
  ghost predicate WriteOutcome(s: State, v: View, s': State, v': View, id: Id, input: seq<byte>, offset: nat,
                               first: nat, last: nat)
    requires s.pageSize > 0 && s'.pageSize > 0 && first <= last
  {
    && Content(v'.logical, id) == Splice(FirstBase(s, v, id, first, InPage(s.pageSize, first, offset)), offset, input)
    && (forall j | offset <= j < offset + |input| :: SeenIn(s', id, j) == input[j - offset])
    && (Whole(s, v, id) ==>
          Verdict(s.pageSize, s.maxPages, Recents(s, v), PagesOf(s'.table, id), Content(s'.device, id),
              Content(v.logical, id), Content(v'.logical, id), id, first, last, offset, input))
  }

  lemma {:induction false} WriteComesTo(s: State, v: View, s': State, v': View, id: Id, input: seq<byte>, offset: nat,
                                        first: nat, last: nat, k: nat, base: seq<byte>, list: seq<PageKey>)
    requires Valid(s, v) && first == FirstPage(s.pageSize, offset) && first + k == last
    requires s'.pageSize == s.pageSize && Refined(s'.pageSize, s'.table, s'.device, v'.logical)
    requires Base(s.pageSize, first) <= offset < Base(s.pageSize, first) + s.pageSize
    requires base == FirstBase(s, v, id, first, InPage(s.pageSize, first, offset))
    requires Listed(list, Uses(v.history, id, first, k), s.maxPages)
    requires FileSoFar(s.pageSize, Content(v.logical, id), Whole(s, v, id), s', v', id, input, offset, first, base,
              |input|, k + 1, LastKept(s, v, list, id, last, offset + |input|))
    ensures WriteOutcome(s, v, s', v', id, input, offset, first, last)
  {
    assert FileStands(s'.pageSize, s'.table, s'.device, v'.logical, id);
    WrittenSeen(s.pageSize, Content(v.logical, id), Whole(s, v, id), s', v', id, input, offset, first, base, k + 1,
        LastKept(s, v, list, id, last, offset + |input|));
    if Whole(s, v, id) {
      WriteJudged(s, v, PagesOf(s'.table, id), Content(s'.device, id), Content(v'.logical, id), id, input, offset,
          first,
          last, k, list, LastKept(s, v, list, id, last, offset + |input|));
    }
  }

  lemma {:induction false} WriteJudged(s: State, v: View, pages: Pages, dev: seq<byte>, file: seq<byte>, id: Id,
                                       input: seq<byte>, offset: nat, first: nat, last: nat, k: nat,
                                       list: seq<PageKey>, kept: bool)
    requires Valid(s, v) && Whole(s, v, id) && Stands(s.pageSize, pages, dev, file) && first + k == last
    requires Base(s.pageSize, first) <= offset < Base(s.pageSize, first) + s.pageSize
    requires file == Splice(FirstBase(s, v, id, first, InPage(s.pageSize, first, offset)), offset, input)
    requires Listed(list, Uses(v.history, id, first, k), s.maxPages)
    requires kept == LastKept(s, v, list, id, last, offset + |input|)
    requires Base(s.pageSize, first) <= |Content(v.logical, id)| ==> (FileOk(s.pageSize, pages, dev, file) <==> kept)
    ensures Verdict(s.pageSize, s.maxPages, Recents(s, v), pages, dev, Content(v.logical, id), file, id, first, last,
                offset, input)
  {
    FirstAndLast(s, v, id, first, InPage(s.pageSize, first, offset), k, list);
    assert k == last - first;
    WriteVerdict(s.pageSize, s.maxPages, Recents(s, v), pages, dev, Content(v.logical, id), file, id, first, last,
        offset, input, Had(s, PageKey(id, first)), list, kept);
  }

  lemma {:induction false} WrittenSeen(ps: nat, start: seq<byte>, whole: bool, s: State, v: View, id: Id,
                                       input: seq<byte>, offset: nat, first: nat, base: seq<byte>, n: nat, kept: bool)
    requires ps == s.pageSize && FileStands(ps, s.table, s.device, v.logical, id) && first == FirstPage(ps, offset)
    requires FileSoFar(ps, start, whole, s, v, id, input, offset, first, base, |input|, n, kept) && n > 0
    ensures Content(v.logical, id) == Splice(base, offset, input)
    ensures forall j | offset <= j < offset + |input| :: SeenIn(s, id, j) == input[j - offset]
  {
    var file := Content(v.logical, id);
    WriteAll(start, base, offset, input, file, n);
    InputSeen(ps, PagesOf(s.table, id), Content(s.device, id), file, first, offset, input, base);
  }

  lemma {:induction false} InputSeen(ps: nat, pages: Pages, dev: seq<byte>, file: seq<byte>, first: nat, offset: nat,
                                     input: seq<byte>, base: seq<byte>)
    requires Stands(ps, pages, dev, file) && file == Splice(base, offset, input) && first == FirstPage(ps, offset)
    requires RangeShown(ps, pages, dev, first, offset, offset + |input|)
    ensures forall j | offset <= j < offset + |input| :: Seen(ps, pages, dev, j) == input[j - offset]
  {
    forall j | offset <= j < offset + |input| ensures Seen(ps, pages, dev, j) == input[j - offset] {
      RangeSeen(ps, pages, dev, file, first, offset, input, base, j);
    }
  }

  /** What the first and the last page step of a write find, told from the recency order before it. */
  lemma {:induction false} FirstAndLast(s: State, v: View, id: Id, first: nat, local: nat, last: nat,
                                        list: seq<PageKey>)
    requires Valid(s, v) && Whole(s, v, id) && local < s.pageSize
    requires Listed(list, Uses(v.history, id, first, last), s.maxPages)
    ensures FirstHave(PageKey(id, first) in Take(Recents(s, v), s.maxPages), Had(s, PageKey(id, first)),
                Content(v.logical, id), Base(s.pageSize, first), local)
    ensures list == Take(Visit(Recents(s, v), id, first, last), s.maxPages)
  {
    ListedIs(s.lru, v.history, s.maxPages);
    ListedVisit(list, v.history, s.maxPages, id, first, last);
    WholeFirst(s, v, id, first, local);
  }

  lemma {:induction false} WholeFirst(s: State, v: View, id: Id, first: nat, local: nat)
    requires Sound(s, v) && Whole(s, v, id) && local < s.pageSize
    ensures FirstHave(PageKey(id, first) in s.lru, Had(s, PageKey(id, first)), Content(v.logical, id),
                Base(s.pageSize, first), local)
  {
    assert Cached(s.table, PageKey(id, first)) <==> PageKey(id, first) in s.lru;
    if first in PagesOf(s.table, id) {
      FullBase(s.pageSize, PagesOf(s.table, id), Content(s.device, id), Content(v.logical, id), first, local);
    }
  }

  /** No other file changed on the device. */
  ghost predicate DeviceBut(s: State, s': State, id: Id) {
    forall i | i != id :: Content(s'.device, i) == Content(s.device, i)
  }

  /** One page of `flush`: pushed if it is dirty, and marked clean when it was pushed as a whole. */
  method FlushOne(s: State, ghost v: View, key: PageKey) returns (s': State, ghost v': View, ok: bool)
    requires Valid(s, v) && Cached(s.table, key)
    ensures Valid(s', v') && Frame(s, s') && s'.lru == s.lru && DeviceBut(s, s', key.id)
    ensures v' == v.(faults := v'.faults) && v'.faults == v.faults + (if ok then 0 else 1) && (s.reliable ==> ok)
    ensures Quiet(s, v, s', v', {})
    ensures PagesOf(s'.table, key.id).Keys == PagesOf(s.table, key.id).Keys
    ensures ok ==> Saved(PagesOf(s'.table, key.id), key.index)
    ensures forall i: nat | i != key.index && Saved(PagesOf(s.table, key.id), i) :: Saved(PagesOf(s'.table, key.id), i)
  {
    if !s.table[key.id][key.index].dirty {
      QuietSelf(s, v, {});
      return s, v, true;
    }
    s', v', ok := FlushDirty(s, v, key);
  }

  method FlushDirty(s: State, ghost v: View, key: PageKey) returns (s': State, ghost v': View, ok: bool)
    requires Valid(s, v) && Cached(s.table, key) && s.table[key.id][key.index].dirty
    ensures Valid(s', v') && Frame(s, s') && s'.lru == s.lru && Quiet(s, v, s', v', {})
    ensures s'.device == s.device[key.id := Content(s'.device, key.id)]
    ensures v' == v.(faults := v'.faults) && v'.faults == v.faults + (if ok then 0 else 1) && (s.reliable ==> ok)
    ensures var pages := s.table[key.id];
            s'.table == if ok then s.table[key.id := pages[key.index := pages[key.index].(dirty := false)]] else s.table
  {
    var page := s.table[key.id][key.index];
    var dev, done, pushed := FlushAt(s.pageSize, Content(s.device, key.id), key.index, page, s.reliable);
    ok := done;
    var pages: Pages := s.table[key.id][key.index := page.(dirty := false)];
    var table := if ok then s.table[key.id := pages] else s.table;
    s' := s.(device := s.device[key.id := dev], table := table);
    v' := if ok then v else v.(faults := v.faults + 1);
    FlushKeeps(s.pageSize, s.lru, s.table, s.dirty, s.device, v.logical, key, ok, pushed);
    AllGrowMore(s.pageSize, s.table, s.device, s'.table, s'.device, {}, v.damaged + {});
  }

  /** The pages of `flush` are pushed one by one, in any order; the clean ones are skipped. */
  method FlushPages(s: State, ghost v: View, id: Id) returns (s': State, ghost v': View, ok: bool)
    requires Valid(s, v)
    ensures Valid(s', v') && Frame(s, s') && s'.lru == s.lru && DeviceBut(s, s', id)
    ensures v' == v.(faults := v'.faults) && v'.faults == v.faults + (if ok then 0 else 1) && (s.reliable ==> ok)
    ensures Quiet(s, v, s', v', {})
    ensures ok ==> forall i: nat :: Saved(PagesOf(s'.table, id), i)
  {
    s', v' := s, v;
    var todo := PagesOf(s.table, id).Keys;
    QuietSelf(s, v, {});
    while todo != {}
      invariant Valid(s', v') && Frame(s, s') && s'.lru == s.lru && DeviceBut(s, s', id) && v' == v
      invariant Quiet(s, v, s', v', {})
      invariant todo <= PagesOf(s'.table, id).Keys
      invariant forall i: nat :: i in todo || Saved(PagesOf(s'.table, id), i)
    {
      var i :| i in todo;
      todo := todo - {i};
      ghost var s1, v1 := s', v';
      s', v', ok := FlushOne(s', v', PageKey(id, i));
      QuietOn(s, v, s1, v1, s', v', {});
      if !ok {
        return;
      }
    }
    ok := true;
  }

  /**
   * `flush`. If it succeeds, every page of the file is clean and the device holds the file, seen or
   * not; whether or not it does, no file changes, nothing is hidden and the page list keeps its order.
   */
  method Flush(s: State, ghost v: View, id: Id) returns (s': State, ghost v': View, r: Result<(), Errc>)
    requires Valid(s, v)
    ensures Valid(s', v') && s'.lru == s.lru && DeviceBut(s, s', id)
    ensures s'.dirty == if r.Ok? then s.dirty - {id} else s.dirty
    ensures Frame(s.(dirty := s'.dirty), s')
    ensures v' == v.(faults := v'.faults) && v'.faults == v.faults + (if r.Ok? then 0 else 1) && (s.reliable ==> r.Ok?)
    ensures Quiet(s, v, s', v', {})
    ensures r.Ok? ==> forall i: nat :: Saved(PagesOf(s'.table, id), i)
    ensures r.Ok? ==> Content(s'.device, id) == Content(v.logical, id)
  {
    s', v' := s, v;
    QuietSelf(s, v, {});
    if id !in s.entries || id !in s.dirty {
      UnmarkedSaved(s.pageSize, s.lru, s.table, s.dirty, id);
      r := Ok(());
    } else {
      if id !in s.writeFds {
        var refused: bool := *;
        if refused && !s.reliable {
          return s, v.(faults := v.faults + 1), Err(DeviceError);
        }
        var fd: nat := *;
        s' := s.(writeFds := s.writeFds[id := fd]);
      }
      var ok;
      s', v', ok := FlushPages(s', v', id);
      if !ok {
        return s', v', Err(DeviceError);
      }
      CleanEntryKeeps(s.pageSize, s'.lru, s'.table, s'.dirty, s'.device, v'.logical, id);
      s' := s'.(dirty := s'.dirty - {id});
      r := Ok(());
    }
    SavedFile(s.pageSize, s'.table, s'.device, v'.logical, id);
  }

  /** The flushes of `shutdown`, in any order; errors are only reported. */
  method FlushAll(s: State, ghost v: View) returns (s': State, ghost v': View, failed: set<Id>)
    requires Valid(s, v)
    ensures Valid(s', v') && s'.lru == s.lru
    ensures s'.pageSize == s.pageSize && s'.maxPages == s.maxPages && s'.entries == s.entries
    ensures v' == v.(faults := v'.faults) && s'.reliable == s.reliable
    ensures failed <= s.entries && v'.faults == v.faults + |failed| && (s.reliable ==> failed == {})
    ensures forall id | id !in failed :: Content(s'.device, id) == Content(v.logical, id)
  {
    s', v', failed := s, v, {};
    forall id | id !in s.entries ensures Content(s.device, id) == Content(v.logical, id) {
      UnmarkedSaved(s.pageSize, s.lru, s.table, s.dirty, id);
      SavedFile(s.pageSize, s.table, s.device, v.logical, id);
    }
    var todo := s.entries;
    while todo != {}
      invariant Valid(s', v') && s'.lru == s.lru
      invariant s'.pageSize == s.pageSize && s'.maxPages == s.maxPages && s'.entries == s.entries
      invariant v' == v.(faults := v.faults + |failed|) && s'.reliable == s.reliable
      invariant todo <= s.entries && failed <= s.entries - todo
      invariant s.reliable ==> failed == {}
      invariant forall id | id !in todo && id !in failed :: Content(s'.device, id) == Content(v.logical, id)
    {
      var id :| id in todo;
      todo := todo - {id};
      var r;
      s', v', r := Flush(s', v', id);
      if r.Err? {
        failed := failed + {id};
      }
    }
  }

  /**
   * `shutdown`: everything is flushed and then dropped. Each file whose flush did not fail is on the
   * device exactly as it was; the bytes of the others are whatever the device has.
   */
  method Shutdown(s: State, ghost v: View) returns (s': State, ghost v': View, failed: set<Id>)
    requires Valid(s, v)
    ensures Valid(s', v') && s'.lru == [] && s'.table == map[] && s'.entries == {} && s'.pageSize == s.pageSize
              && s'.maxPages == s.maxPages
    ensures failed <= s.entries && v'.faults == v.faults + |failed| && (s.reliable ==> failed == {})
    ensures s'.reliable == s.reliable
    ensures v'.logical == s'.device && v'.damaged == v.damaged && v'.history == v.history + [Clear]
    ensures forall id | id !in failed :: Content(s'.device, id) == Content(v.logical, id)
  {
    s', v', failed := FlushAll(s, v);
    s' := s'.(lru := [], table := map[], entries := {}, dirty := {}, readFds := map[], writeFds := map[]);
    v' := v'.(logical := s'.device, history := v.history + [Clear]);
    ListedClear(v.history, s.maxPages);
    EmptyRefined(s.pageSize, s'.device);
  }

  /** `invalidate_one`: the file is flushed if asked for, and forgotten. */
  method InvalidateOne(s: State, ghost v: View, id: Id, shouldFlush: bool)
    returns (s': State, ghost v': View, r: Result<(), Errc>)
    requires Valid(s, v)
    ensures Valid(s', v') && s'.pageSize == s.pageSize && s'.maxPages == s.maxPages && DeviceBut(s, s', id)
    ensures s'.entries == s.entries - {id} && PagesOf(s'.table, id) == map[]
    ensures v'.history == v.history + [Forget(id)] && s'.lru == Others(s.lru, id)
    ensures v'.faults == v.faults + (if r.Ok? then 0 else 1) && s'.reliable == s.reliable && (s.reliable ==> r.Ok?)
    ensures forall i | i != id :: Content(v'.logical, i) == Content(v.logical, i)
    ensures Quiet(s, v, s', v', {id})
    ensures Content(v'.logical, id) == Content(s'.device, id) && v'.damaged == v.damaged
    ensures shouldFlush && r.Ok? ==> Content(s'.device, id) == Content(v.logical, id)
    ensures !shouldFlush ==> r.Ok? && Content(s'.device, id) == Content(s.device, id)
  {
    s', v', r := s, v, Ok(());
    QuietSelf(s, v, {});
    if shouldFlush {
      s', v', r := Flush(s, v, id);
    }
    ghost var s1, v1 := s', v';
    QuietMore(s, v, s1, v1, {}, {id});
    s', v' := Drop(s', v', id);
    QuietOn(s, v, s1, v1, s', v', {id});
  }

  /** A file's entry and its pages go, whatever is in them. */
  method Drop(s: State, ghost v: View, id: Id) returns (s': State, ghost v': View)
    requires Valid(s, v)
    ensures Valid(s', v') && s'.pageSize == s.pageSize && s'.maxPages == s.maxPages && s'.device == s.device
    ensures s'.reliable == s.reliable && Quiet(s, v, s', v', {id})
    ensures s'.entries == s.entries - {id} && PagesOf(s'.table, id) == map[] && s'.lru == Others(s.lru, id)
    ensures v' == v.(logical := v.logical[id := Content(s.device, id)], history := v.history + [Forget(id)])
  {
    var lru := Others(s.lru, id);
    ListedForget(s.lru, v.history, s.maxPages, id);
    ForgetKeeps(s.pageSize, s.lru, lru, s.table, s.dirty, s.device, v.logical, id);
    s' := s.(lru := lru, table := s.table - {id}, entries := s.entries - {id}, dirty := s.dirty - {id},
             readFds := s.readFds - {id}, writeFds := s.writeFds - {id});
    v' := v.(logical := v.logical[id := Content(s.device, id)], history := v.history + [Forget(id)]);
    forall i: Id | i != id ensures FileGrows(s.pageSize, s.table, s.device, s'.table, s'.device, i) { }
  }
}
