/**
 * The builder that appends to a buffer and patches the size into its header, the reader that moves
 * an index over a buffer, and the loops of a listing (madbfs-common/src/rpc.cpp).
 */
module RpcBuffers {
  import opened Bytes
  import opened Wire
  import opened Rpc
  import opened Framing

  class Builder {
    var buffer: seq<byte>

    constructor ()
      ensures buffer == []
    {
      buffer := [];
    }

    method WriteInt(i: Int, n: int)
      modifies this
      ensures buffer == old(buffer) + EncodeInt(i, n)
    {
      buffer := buffer + EncodeInt(i, n);
    }

    method WriteBytes(d: seq<byte>)
      modifies this
      ensures buffer == old(buffer) + EncodeField(Blob(d))
    {
      WriteInt(U64, |d|);
      buffer := buffer + d;
    }

    method WritePath(d: Name)
      modifies this
      ensures buffer == old(buffer) + EncodeField(Text(d))
    {
      WriteInt(U64, |d| + 1);
      buffer := buffer + d;
      buffer := buffer + [0];
    }

    /** The chained writes of one message. */
    method WriteAll(fs: List<Field>)
      modifies this
      ensures buffer == old(buffer) + Encode(fs)
    {
      var rest := fs;
      while rest.Cons?
        invariant buffer + Encode(rest) == old(buffer) + Encode(fs)
        decreases rest
      {
        ghost var was := buffer;
        match rest.head {
          case Number(i, n) => WriteInt(i, n);
          case Blob(d) => WriteBytes(d);
          case Text(d) => WritePath(d);
        }
        Assoc(was, EncodeField(rest.head), Encode(rest.tail));
        rest := rest.tail;
      }
    }

    /** A listing is written entry by entry. */
    method WriteEntries(es: seq<Entry>)
      modifies this
      ensures buffer == old(buffer) + EncodeEntries(es)
    {
      var i: nat := 0;
      while i < |es|
        invariant i <= |es|
        invariant buffer == old(buffer) + EncodeEntries(es[..i])
      {
        WriteAll(EntryFields(es[i]));
        EntriesNext(es, i);
        Assoc(old(buffer), EncodeEntries(es[..i]), Encode(EntryFields(es[i])));
        i := i + 1;
      }
      assert es[..i] == es;
    }

    /** The size of what follows the header replaces the last eight bytes of the header. */
    method Build(headerSize: nat)
      requires 8 <= headerSize <= |buffer|
      modifies this
      ensures buffer == Patched(old(buffer), headerSize)
    {
      var size := EncodeInt(U64, |buffer| - headerSize);
      buffer := buffer[..headerSize - 8] + size + buffer[headerSize..];
    }
  }

  lemma {:induction false} EntriesNext(es: seq<Entry>, i: nat)
    requires i < |es|
    ensures EncodeEntries(es[..i + 1]) == EncodeEntries(es[..i]) + Encode(EntryFields(es[i]))
  {
    assert es[..i + 1][..i] == es[..i];
  }

  lemma {:induction false} RequestHeadBytes(id: Id, p: Proc, size: nat)
    ensures Encode(RequestHead(id, p, size)) == EncodeInt(U32, id) + EncodeInt(U8, Code(p)) + EncodeInt(U64, size)
    ensures |Encode(RequestHead(id, p, size))| == 13
  {
    var c, d := Number(U8, Code(p)), U(size);
    assert Encode(Cons(d, Nil)) == EncodeField(d);
    assert Encode(Cons(c, Cons(d, Nil))) == EncodeField(c) + Encode(Cons(d, Nil));
  }

  lemma {:induction false} ResponseHeadBytes(id: Id, p: Proc, status: int, size: nat)
    ensures Encode(ResponseHead(id, p, status, size)) ==
            EncodeInt(U32, id) + EncodeInt(U8, Code(p)) + EncodeInt(I32, status) + EncodeInt(U64, size)
    ensures |Encode(ResponseHead(id, p, status, size))| == 17
  {
    var c, s, d := Number(U8, Code(p)), Number(I32, status), U(size);
    assert Encode(Cons(d, Nil)) == EncodeField(d);
    assert Encode(Cons(s, Cons(d, Nil))) == EncodeField(s) + Encode(Cons(d, Nil));
    assert Encode(Cons(c, Cons(s, Cons(d, Nil)))) == EncodeField(c) + Encode(Cons(s, Cons(d, Nil)));
  }

  /** What the patch does to a buffer whose header ends in a size of 0. */
  function Patched(b: seq<byte>, headerSize: nat): seq<byte>
    requires 8 <= headerSize <= |b|
  {
    b[..headerSize - 8] + EncodeInt(U64, |b| - headerSize) + b[headerSize..]
  }

  lemma {:induction false} PatchedHead(front: seq<byte>, payload: seq<byte>)
    ensures Patched(front + EncodeInt(U64, 0) + payload, |front| + 8) == front + EncodeInt(U64, |payload|) + payload
  {
  }

  /** Building with a size of 0 and patching it later gives the header with the size of the payload. */
  lemma {:induction false} PatchedRequest(id: Id, p: Proc, payload: seq<byte>)
    ensures |Encode(RequestHead(id, p, 0))| == 13
    ensures Patched(Encode(RequestHead(id, p, 0)) + payload, 13) == Encode(RequestHead(id, p, |payload|)) + payload
  {
    RequestHeadBytes(id, p, 0);
    RequestHeadBytes(id, p, |payload|);
    PatchedHead(EncodeInt(U32, id) + EncodeInt(U8, Code(p)), payload);
  }

  lemma {:induction false} PatchedResponse(id: Id, p: Proc, status: int, payload: seq<byte>)
    ensures |Encode(ResponseHead(id, p, status, 0))| == 17
    ensures Patched(Encode(ResponseHead(id, p, status, 0)) + payload, 17)
              == Encode(ResponseHead(id, p, status, |payload|)) + payload
  {
    ResponseHeadBytes(id, p, status, 0);
    ResponseHeadBytes(id, p, status, |payload|);
    PatchedHead(EncodeInt(U32, id) + EncodeInt(U8, Code(p)) + EncodeInt(I32, status), payload);
  }

  method BuildRequest(id: Id, r: Request) returns (buf: seq<byte>)
    ensures buf == EncodeRequest(id, r)
  {
    var b := new Builder();
    b.WriteAll(RequestHead(id, RequestProc(r), 0));
    b.WriteAll(RequestFields(r));
    Prepend([], Encode(RequestHead(id, RequestProc(r), 0)));
    PatchedRequest(id, RequestProc(r), RequestPayload(r));
    b.Build(13);
    buf := b.buffer;
  }

  method WriteReply(b: Builder, r: Reply)
    modifies b
    ensures b.buffer == old(b.buffer) + ReplyPayload(r)
  {
    if r.Failure? {
      return;
    } else if r.response.Listdir? {
      b.WriteInt(U64, |r.response.entries|);
      b.WriteEntries(r.response.entries);
    } else {
      b.WriteAll(ResponseFields(r.response));
    }
  }

  method BuildReply(id: Id, r: Reply) returns (buf: seq<byte>)
    ensures buf == EncodeReply(id, r)
  {
    var b := new Builder();
    b.WriteAll(ResponseHead(id, ReplyProc(r), ReplyStatus(r), 0));
    WriteReply(b, r);
    Prepend([], Encode(ResponseHead(id, ReplyProc(r), ReplyStatus(r), 0)));
    PatchedResponse(id, ReplyProc(r), ReplyStatus(r), ReplyPayload(r));
    b.Build(17);
    buf := b.buffer;
  }

  lemma {:induction false} Part(b: seq<byte>, i: nat, n: nat)
    requires i + n <= |b|
    ensures b[i..][..n] == b[i..i + n] && b[i..][n..] == b[i + n..]
  {
  }

  class Reader {
    const buffer: seq<byte>
    var index: nat

    ghost predicate Valid() reads this { index <= |buffer| }

    ghost function Left(): seq<byte>
      requires Valid()
      reads this
    {
      buffer[index..]
    }

    constructor (b: seq<byte>)
      ensures buffer == b && Valid() && Left() == b
    {
      buffer := b;
      index := 0;
    }

    method ReadInt(i: Int) returns (r: Option<int>)
      requires Valid()
      modifies this`index
      ensures Valid()
      ensures match Wire.ReadInt(i, old(Left())) { case None => r == None && Left() == old(Left())
                case Some((n, rest)) => r == Some(n) && Left() == rest }
    {
      if index + Width(i) - 1 >= |buffer| {
        return None;
      }
      var bytes := buffer[index..index + Width(i)];
      Part(buffer, index, Width(i));
      Limits(i);
      index := index + Width(i);
      return Some(Signed(i, FromNet(bytes)));
    }

    method ReadBytes() returns (r: Option<seq<byte>>)
      requires Valid()
      modifies this`index
      ensures Valid()
      ensures match Wire.ReadBytes(old(Left())) { case None => r == None
                case Some((d, rest)) => r == Some(d) && Left() == rest }
    {
      var size := ReadInt(U64);
      if size.None? || index + size.value - 1 >= |buffer| {
        return None;
      }
      var d := buffer[index..index + size.value];
      Part(buffer, index, size.value);
      index := index + size.value;
      return Some(d);
    }

    method ReadPath() returns (r: Option<Name>)
      requires Valid()
      modifies this`index
      ensures Valid()
      ensures match Wire.ReadPath(old(Left())) { case None => r == None
                case Some((d, rest)) => r == Some(d) && Left() == rest }
    {
      var size := ReadInt(U64);
      if size.None? || index + size.value - 1 >= |buffer| {
        return None;
      }
      if size.value == 0 {
        return Some(buffer[index..]);
      }
      var d := buffer[index..index + size.value - 1];
      Part(buffer, index, size.value - 1);
      Part(buffer, index, size.value);
      index := index + size.value;
      return Some(d);
    }
  }

  // Parsing.

  lemma {:induction false} NoMoreEntries(i: nat, n: nat, buf: seq<byte>)
    requires i <= n && DecodeEntries(i, buf).None?
    ensures DecodeEntries(n, buf).None?
  {
    if i < n {
      NoMoreEntries(i, n - 1, buf);
    }
  }

  /** The names go one after the other into the request's buffer, each followed by a zero; a slice says where. */
  ghost predicate SliceIs(names: seq<byte>, s: Slice, name: Name) {
    s.offset + s.size <= |names| && names[s.offset..s.offset + s.size] == name
  }

  lemma {:induction false} SliceKept(names: seq<byte>, more: seq<byte>, s: Slice, name: Name)
    requires SliceIs(names, s, name)
    ensures SliceIs(names + more, s, name)
  {
    assert (names + more)[s.offset..s.offset + s.size] == names[s.offset..s.offset + s.size];
  }

  lemma {:induction false} SliceNew(names: seq<byte>, name: Name)
    ensures SliceIs(names + (name + [0]), Slice(|names|, |name|), name)
  {
    assert (names + (name + [0]))[|names|..|names| + |name|] == name;
  }

  /** The slices stand for the entries read so far. */
  ghost predicate Collected(names: seq<byte>, slices: seq<(Slice, FileStat)>, es: seq<Entry>) {
    |slices| == |es| && forall j | 0 <= j < |es| :: slices[j].1 == es[j].stat && SliceIs(names, slices[j].0, es[j].name)
  }

  lemma {:induction false} CollectNext(names: seq<byte>, slices: seq<(Slice, FileStat)>, es: seq<Entry>, e: Entry)
    requires Collected(names, slices, es)
    ensures Collected(names + (e.name + [0]), slices + [(Slice(|names|, |e.name|), e.stat)], es + [e])
  {
    SliceNew(names, e.name);
    forall j | 0 <= j < |es| ensures SliceIs(names + (e.name + [0]), slices[j].0, es[j].name) {
      SliceKept(names, e.name + [0], slices[j].0, es[j].name);
    }
  }

  method CollectEntries(n: nat, rest: seq<byte>) returns (ok: bool, names: seq<byte>, slices: seq<(Slice, FileStat)>)
    ensures ok == DecodeEntries(n, rest).Some?
    ensures ok ==> Collected(names, slices, DecodeEntries(n, rest).value.0)
  {
    ok, names, slices := true, [], [];
    var left := rest;
    ghost var es: seq<Entry> := [];
    var i: nat := 0;
    while i < n
      invariant i <= n && ok
      invariant DecodeEntries(i, rest) == Some((es, left)) && Collected(names, slices, es)
    {
      var e := DecodeEntry(left);
      if e.None? {
        NoMoreEntries(i + 1, n, rest);
        ok := false;
        return;
      }
      DecodeEntriesNext(i, rest, es, left, e.value.0, e.value.1);
      CollectNext(names, slices, es, e.value.0);
      slices := slices + [(Slice(|names|, |e.value.0.name|), e.value.0.stat)];
      names := names + (e.value.0.name + [0]);
      es := es + [e.value.0];
      left := e.value.1;
      i := i + 1;
    }
  }

  /** The listing is read back from the slices of the name buffer. */
  method ParseListdir(payload: seq<byte>) returns (r: Option<Response>)
    ensures r == ParseListing(payload)
  {
    var size := ReadInt(U64, payload);
    if size.None? {
      return None;
    }
    var ok, names, slices := CollectEntries(size.value.0, size.value.1);
    if !ok {
      return None;
    }
    ghost var es := DecodeEntries(size.value.0, size.value.1).value.0;
    var entries: seq<Entry> := [];
    var j: nat := 0;
    while j < |slices|
      invariant j <= |slices| == |es| && entries == es[..j]
    {
      var (s, stat) := slices[j];
      assert SliceIs(names, s, es[j].name);
      entries := entries + [Entry(names[s.offset..s.offset + s.size], stat)];
      j := j + 1;
    }
    assert entries == es;
    return Some(Response.Listdir(entries));
  }
}
