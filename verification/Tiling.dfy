/**
 * How a byte range is cut into per-page pieces (the arithmetic of `read`/`write` and
 * `read_at`/`write_at` in madbfs/src/cache.cpp).
 */
module Tiling {
  function FirstPage(ps: nat, offset: nat): nat
    requires ps > 0
  {
    offset / ps
  }

  function LastPage(ps: nat, offset: nat, len: nat): nat
    requires ps > 0 && len > 0
  {
    (offset + len - 1) / ps
  }

  function PageCount(ps: nat, offset: nat, len: nat): (n: nat)
    requires ps > 0 && len > 0
    ensures n > 0
  {
    FirstBeforeLast(ps, offset, len);
    LastPage(ps, offset, len) + 1 - FirstPage(ps, offset)
  }

  function LocalOffset(ps: nat, offset: nat, index: nat): nat
    requires ps > 0
  {
    if index == FirstPage(ps, offset) then offset % ps else 0
  }

  /** The size of the piece, with the source's own case order: the last page overrides the first. */
  function LocalSize(ps: nat, offset: nat, len: nat, index: nat): int
    requires ps > 0 && len > 0
  {
    var localOffset := LocalOffset(ps, offset, index);
    if index == LastPage(ps, offset, len) then (len + offset % ps - 1) % ps + 1 - localOffset
    else if index == FirstPage(ps, offset) then ps - localOffset
    else ps
  }

  /** Where the piece starts in the caller's buffer. */
  function BufferOffset(ps: nat, offset: nat, index: nat): int
    requires ps > 0
  {
    if index >= FirstPage(ps, offset) + 1 then (index - FirstPage(ps, offset)) * ps - offset % ps else 0
  }

  /** One page's share of a request: `size` bytes at `local` in the page and at `at` in the buffer. */
  datatype Piece = Piece(local: nat, size: nat, at: nat)

  ghost predicate IsPiece(ps: nat, offset: nat, len: nat, index: nat, p: Piece)
    requires ps > 0 && len > 0
  {
    && p.local == LocalOffset(ps, offset, index)
    && p.size == LocalSize(ps, offset, len, index)
    && p.at == BufferOffset(ps, offset, index)
  }

  lemma {:induction false} DivMod(ps: nat, x: nat)
    requires ps > 0
    ensures x == x / ps * ps + x % ps && 0 <= x % ps < ps
  {
  }

  /** index * ps, defined by addition so that proofs about pages stay linear. */
  function Base(ps: nat, index: nat): (b: nat)
  {
    if index == 0 then 0 else Base(ps, index - 1) + ps
  }

  /** How far into a page byte j of the file lies, if it does not lie before it. */
  function InPage(ps: nat, index: nat, j: nat): nat { if j >= Base(ps, index) then j - Base(ps, index) else 0 }

  lemma {:induction false} BaseIsProduct(ps: nat, index: nat)
    ensures Base(ps, index) == index * ps
  {
    if index > 0 {
      BaseIsProduct(ps, index - 1);
      assert (index - 1) * ps == index * ps - ps;
    }
  }

  /** Page ranges do not overlap. */
  lemma {:induction false} BasesApart(ps: nat, i: nat, j: nat)
    requires i < j
    ensures Base(ps, i) + ps <= Base(ps, j)
  {
    if i + 1 < j { BasesApart(ps, i, j - 1); }
  }

  lemma {:induction false} PageOfByte(ps: nat, j: nat)
    requires ps > 0
    ensures j == Base(ps, j / ps) + j % ps && 0 <= j % ps < ps
  {
    BaseIsProduct(ps, j / ps);
    DivMod(ps, j);
  }

  lemma {:induction false} AtLeastOne(d: nat, ps: nat)
    requires d > 0
    ensures d * ps >= ps
  {
  }

  lemma {:induction false} PagesApart(ps: nat, i: nat, j: nat)
    requires i < j
    ensures i * ps + ps <= j * ps
  {
    var d := j - i;
    AtLeastOne(d, ps);
    assert (i + d) * ps == i * ps + d * ps;
  }

  lemma {:induction false} DivModUnique(ps: nat, x: nat, q: nat, r: nat)
    requires ps > 0 && r < ps && x == q * ps + r
    ensures x / ps == q && x % ps == r
  {
    DivMod(ps, x);
    if q < x / ps { PagesApart(ps, q, x / ps); } else if x / ps < q { PagesApart(ps, x / ps, q); }
  }

  lemma {:induction false} FirstBeforeLast(ps: nat, offset: nat, len: nat)
    requires ps > 0 && len > 0
    ensures FirstPage(ps, offset) <= LastPage(ps, offset, len)
  {
    DivMod(ps, offset);
    DivMod(ps, offset + len - 1);
    var a, b := offset / ps, (offset + len - 1) / ps;
    if b < a { PagesApart(ps, b, a); }
  }

  /** The last page's size formula, which works from the length alone, ends exactly at the request's end. */
  lemma {:induction false} LastPieceEnd(ps: nat, offset: nat, len: nat)
    requires ps > 0 && len > 0
    ensures LastPage(ps, offset, len) * ps + (len + offset % ps - 1) % ps + 1 == offset + len
  {
    var e := offset + len - 1;
    DivMod(ps, offset);
    DivMod(ps, e);
    FirstBeforeLast(ps, offset, len);
    var q := e / ps - offset / ps;
    assert len + offset % ps - 1 == q * ps + e % ps by {
      assert q * ps == e / ps * ps - offset / ps * ps;
    }
    DivModUnique(ps, len + offset % ps - 1, q, e % ps);
  }

  /**
   * The pieces tile the request: piece `index` lies inside its page, it is the part of the request
   * that page covers, it starts where its predecessor ended, and the last one ends at the request's
   * end.
   */
  lemma {:induction false} PieceTiles(ps: nat, offset: nat, len: nat, index: nat)
    requires ps > 0 && len > 0
    requires FirstPage(ps, offset) <= index <= LastPage(ps, offset, len)
    ensures 0 < LocalSize(ps, offset, len, index)
    ensures LocalOffset(ps, offset, index) + LocalSize(ps, offset, len, index) <= ps
    ensures 0 <= BufferOffset(ps, offset, index)
    ensures Base(ps, index) + LocalOffset(ps, offset, index) == offset + BufferOffset(ps, offset, index)
    ensures index == FirstPage(ps, offset) ==> BufferOffset(ps, offset, index) == 0
    ensures index < LastPage(ps, offset, len) ==>
              && BufferOffset(ps, offset, index) + LocalSize(ps, offset, len, index)
                   == BufferOffset(ps, offset, index + 1)
              && LocalOffset(ps, offset, index) + LocalSize(ps, offset, len, index) == ps
    ensures index == LastPage(ps, offset, len) ==>
              BufferOffset(ps, offset, index) + LocalSize(ps, offset, len, index) == len
  {
    var first := FirstPage(ps, offset);
    BaseIsProduct(ps, index);
    DivMod(ps, offset);
    DivMod(ps, offset + len - 1);
    assert (index - first) * ps == index * ps - first * ps;
    assert (index + 1 - first) * ps == (index - first) * ps + ps;
    if first < index { PagesApart(ps, first, index); }
    LastPieceEnd(ps, offset, len);
    if index == LastPage(ps, offset, len) {
      DivMod(ps, len + offset % ps - 1);
    }
  }

  /** The request's pages and pieces, computed as `read` and `read_at` compute them. */
  method Pieces(ps: nat, offset: nat, len: nat) returns (first: nat, pieces: seq<Piece>)
    requires ps > 0 && len > 0
    ensures Cover(ps, offset, len, first, pieces)
    ensures first == FirstPage(ps, offset) && |pieces| == PageCount(ps, offset, len)
    ensures pieces[0].local == offset % ps
  {
    first := offset / ps;
    var last := (offset + len - 1) / ps;
    FirstBeforeLast(ps, offset, len);
    pieces := [];
    for index := first to last + 1
      invariant |pieces| == index - first
      invariant forall i | 0 <= i < |pieces| :: IsPiece(ps, offset, len, first + i, pieces[i])
    {
      PieceTiles(ps, offset, len, index);
      pieces := pieces + [Piece(LocalOffset(ps, offset, index), LocalSize(ps, offset, len, index),
          BufferOffset(ps, offset, index))];
    }
    CoverOfPieces(ps, offset, len, first, pieces);
    assert IsPiece(ps, offset, len, first + 0, pieces[0]);
  }

  /** The pieces of consecutive pages cut [offset, offset + len) without gap or overlap. */
  ghost predicate Cover(ps: nat, offset: nat, len: nat, first: nat, pieces: seq<Piece>) {
    && pieces != []
    && (forall i | 0 <= i < |pieces| ::
          && 0 < pieces[i].size && pieces[i].local + pieces[i].size <= ps
          && Base(ps, first + i) + pieces[i].local == offset + pieces[i].at
          && pieces[i].at + pieces[i].size == End(len, pieces, i) <= len
          && (i > 0 ==> pieces[i].local == 0)
          && (i < |pieces| - 1 ==> pieces[i].local + pieces[i].size == ps))
    && pieces[0].at == 0
  }

  /** Where piece i ends in the buffer: where the next one starts, or at the end. */
  ghost function End(len: nat, pieces: seq<Piece>, i: nat): nat
    requires i < |pieces|
  {
    if i + 1 < |pieces| then pieces[i + 1].at else len
  }

  lemma {:induction false} CoverAt(ps: nat, offset: nat, len: nat, first: nat, pieces: seq<Piece>, i: nat)
    requires Cover(ps, offset, len, first, pieces) && i < |pieces|
    ensures 0 < pieces[i].size && pieces[i].local + pieces[i].size <= ps && pieces[i].at + pieces[i].size <= len
    ensures Base(ps, first + i) + pieces[i].local == offset + pieces[i].at
    ensures if i == 0 then pieces[i].at == 0 else pieces[i].local == 0
    ensures i == |pieces| - 1 ==> pieces[i].at + pieces[i].size == len
    ensures i < |pieces| - 1 ==>
              pieces[i].local + pieces[i].size == ps && pieces[i].at + pieces[i].size == pieces[i + 1].at
  {
  }

  lemma {:induction false} CoverOfPieces(ps: nat, offset: nat, len: nat, first: nat, pieces: seq<Piece>)
    requires ps > 0 && len > 0 && first == FirstPage(ps, offset)
    requires |pieces| == LastPage(ps, offset, len) + 1 - first > 0
    requires forall i | 0 <= i < |pieces| :: IsPiece(ps, offset, len, first + i, pieces[i])
    ensures Cover(ps, offset, len, first, pieces)
  {
    forall i | 0 <= i < |pieces|
      ensures 0 < pieces[i].size && pieces[i].local + pieces[i].size <= ps
      ensures Base(ps, first + i) + pieces[i].local == offset + pieces[i].at
      ensures pieces[i].at + pieces[i].size == End(len, pieces, i) <= len
      ensures i > 0 ==> pieces[i].local == 0
      ensures i < |pieces| - 1 ==> pieces[i].local + pieces[i].size == ps
    {
      PieceTiles(ps, offset, len, first + i);
      assert IsPiece(ps, offset, len, first + i, pieces[i]);
      if i + 1 < |pieces| {
        assert IsPiece(ps, offset, len, first + (i + 1), pieces[i + 1]);
        PieceTiles(ps, offset, len, LastPage(ps, offset, len));
        BasesApart(ps, first + i, LastPage(ps, offset, len));
      }
    }
    PieceTiles(ps, offset, len, first);
    assert IsPiece(ps, offset, len, first + 0, pieces[0]);
  }
}
