/**
 * The fields of the RPC wire format: integers in network order, byte strings and paths with a
 * length in front (`to_net_bytes`, `PayloadBuilder` and `PayloadReader` in madbfs-common/src/rpc.cpp).
 */
module Wire {
  import opened Bytes

  // Integers. On the little-endian hosts the program runs on, a number is stored with its lowest
  // byte first, and the network order is the reverse of it.

  function Pow256(w: nat): (p: nat)
    ensures p > 0
  {
    if w == 0 then 1 else 256 * Pow256(w - 1)
  }

  function HostBytes(w: nat, n: nat): (b: seq<byte>)
    ensures |b| == w
  {
    if w == 0 then [] else [n % 256] + HostBytes(w - 1, n / 256)
  }

  function HostValue(b: seq<byte>): (n: nat)
    ensures n < Pow256(|b|)
  {
    if b == [] then 0 else b[0] + 256 * HostValue(b[1..])
  }

  function ToNet(w: nat, n: nat): (b: seq<byte>)
    ensures |b| == w
  {
    Reversed(HostBytes(w, n))
  }

  function FromNet(b: seq<byte>): (n: nat)
    ensures n < Pow256(|b|)
  {
    HostValue(Reversed(b))
  }

  lemma {:induction false} HostRoundTrip(w: nat, n: nat)
    ensures HostValue(HostBytes(w, n)) == n % Pow256(w)
  {
    if w > 0 {
      HostRoundTrip(w - 1, n / 256);
      var b := HostBytes(w, n);
      assert b[1..] == HostBytes(w - 1, n / 256);
      ModStep(n, Pow256(w - 1));
    } else {
      assert n % 1 == 0;
    }
  }

  lemma {:induction false} ModStep(n: nat, p: nat)
    requires p > 0
    ensures n % (256 * p) == n % 256 + 256 * (n / 256 % p)
  {
    var q, r := n / 256 / p, n / 256 % p;
    assert n / 256 == q * p + r;
    assert n == 256 * (q * p + r) + n % 256;
    DivisionUnique(n, 256 * p, q, n % 256 + 256 * r) by {
      assert 256 * (q * p) == q * (256 * p);
    }
  }

  lemma {:induction false} DivisionUnique(n: nat, d: nat, q: nat, r: nat)
    requires n == q * d + r && r < d
    ensures n / d == q && n % d == r
  {
    var e := q - n / d;
    assert e * d == n % d - r;
    assert e > 0 ==> e * d >= d;
    assert e < 0 ==> e * d <= -(d as int);
  }

  /** Reading in network order undoes writing; only what does not fit the width is lost. */
  lemma {:induction false} NetRoundTrip(w: nat, n: nat)
    ensures FromNet(ToNet(w, n)) == n % Pow256(w)
  {
    assert Reversed(Reversed(HostBytes(w, n))) == HostBytes(w, n);
    HostRoundTrip(w, n);
  }

  /** The network order is big-endian: byte i has weight 256 ^ (w - 1 - i). */
  lemma {:induction false} NetDigit(w: nat, n: nat, i: nat)
    requires i < w
    ensures ToNet(w, n)[i] == n / Pow256(w - 1 - i) % 256
  {
    HostDigit(w, n, w - 1 - i);
  }

  lemma {:induction false} HostDigit(w: nat, n: nat, i: nat)
    requires i < w
    ensures HostBytes(w, n)[i] == n / Pow256(i) % 256
  {
    if i == 0 {
      assert n / 1 == n;
    } else {
      HostDigit(w - 1, n / 256, i - 1);
      DivDiv(n, Pow256(i - 1));
    }
  }

  lemma {:induction false} DivDiv(n: nat, p: nat)
    requires p > 0
    ensures n / 256 / p == n / (256 * p)
  {
    var q, r := n / 256 / p, n / 256 % p;
    assert n == q * (256 * p) + (256 * r + n % 256) by {
      assert n / 256 == q * p + r;
      assert 256 * (q * p) == q * (256 * p);
    }
    DivisionUnique(n, 256 * p, q, 256 * r + n % 256);
  }

  // Fields.

  datatype Int = U8 | U32 | U64 | I32 | I64

  datatype Kind = Integer(size: Int) | Bytes | Path

  datatype Field = Number(size: Int, n: int) | Blob(data: seq<byte>) | Text(data: seq<byte>)

  function KindOf(f: Field): Kind { match f case Number(i, _) => Integer(i) case Blob(_) => Bytes case Text(_) => Path }

  function Width(i: Int): nat { match i case U8 => 1 case U32 => 4 case I32 => 4 case U64 => 8 case I64 => 8 }

  function Limit(i: Int): (l: nat)
    ensures l > 0
  {
    match i case U8 => 256 case U32 => LIMIT32 case I32 => LIMIT32 case U64 => LIMIT64 case I64 => LIMIT64
  }

  const LIMIT32: nat := 0x1_0000_0000
  const LIMIT64: nat := 0x1_0000_0000_0000_0000

  predicate InRange(i: Int, n: int) {
    if i == I32 || i == I64 then -(Limit(i) / 2) <= n < Limit(i) / 2 else 0 <= n < Limit(i)
  }

  /** The values of a field's C++ type; the length of a string, with its terminator, is a `u64`. */
  predicate Fits(f: Field) {
    match f case Number(i, n) => InRange(i, n) case Blob(d) => |d| < LIMIT64 case Text(d) => |d| + 1 < LIMIT64
  }

  lemma {:induction false} Limits(i: Int)
    ensures Limit(i) == Pow256(Width(i))
  {
    assert Pow256(1) == 256;
    assert Pow256(2) == 256 * Pow256(1);
    assert Pow256(3) == 256 * Pow256(2);
    assert Pow256(4) == 256 * Pow256(3);
    assert Pow256(5) == 256 * Pow256(4);
    assert Pow256(6) == 256 * Pow256(5);
    assert Pow256(7) == 256 * Pow256(6);
    assert Pow256(8) == 256 * Pow256(7);
  }

  /** Two's complement. */
  function Unsigned(i: Int, n: int): (u: nat) { n % Limit(i) }

  function Signed(i: Int, u: nat): (n: int)
    requires u < Limit(i)
    ensures InRange(i, n) && Unsigned(i, n) == u
  {
    if (i == I32 || i == I64) && u >= Limit(i) / 2 then u - Limit(i) else u
  }

  function EncodeInt(i: Int, n: int): seq<byte> { ToNet(Width(i), Unsigned(i, n)) }

  function EncodeField(f: Field): seq<byte> {
    match f
    case Number(i, n) => EncodeInt(i, n)
    case Blob(d) => EncodeInt(U64, |d|) + d
    case Text(d) => EncodeInt(U64, |d| + 1) + d + [0]
  }

  // Reading: from the bytes the reader has left, a value and the bytes left after it, or nothing when
  // there are too few.

  function ReadInt(i: Int, buf: seq<byte>): (r: Option<(int, seq<byte>)>)
    ensures r.Some? ==> InRange(i, r.value.0)
  {
    if |buf| < Width(i) then None
    else
      Limits(i);
      Some((Signed(i, FromNet(buf[..Width(i)])), buf[Width(i)..]))
  }

  function ReadBytes(buf: seq<byte>): Option<(seq<byte>, seq<byte>)> {
    match ReadInt(U64, buf)
    case None => None
    case Some((size, rest)) => if size > |rest| then None else Some((rest[..size], rest[size..]))
  }

  /**
   * The terminator is not part of the path; a size of 0 stands for the rest of the buffer, and leaves
   * the index where it is.
   */
  function ReadPath(buf: seq<byte>): Option<(seq<byte>, seq<byte>)> {
    match ReadInt(U64, buf)
    case None => None
    case Some((size, rest)) =>
      if size > |rest| then None else if size == 0 then Some((rest, rest)) else Some((rest[..size - 1], rest[size..]))
  }

  function DecodeField(k: Kind, buf: seq<byte>): (r: Option<(Field, seq<byte>)>) {
    match k
    case Integer(i) => (match ReadInt(i, buf) case None => None case Some((n, rest)) => Some((Number(i, n), rest)))
    case Bytes => (match ReadBytes(buf) case None => None case Some((d, rest)) => Some((Blob(d), rest)))
    case Path => (match ReadPath(buf) case None => None case Some((d, rest)) => Some((Text(d), rest)))
  }

  lemma {:induction false} IntRoundTrip(i: Int, n: int, tail: seq<byte>)
    requires InRange(i, n)
    ensures ReadInt(i, EncodeInt(i, n) + tail) == Some((n, tail))
  {
    var w, u := Width(i), Unsigned(i, n);
    NetRoundTrip(w, u);
    Limits(i);
    SmallMod(u, Pow256(w));
    assert (EncodeInt(i, n) + tail)[..w] == ToNet(w, u);
    SignedUnique(i, n, Signed(i, u));
  }

  lemma {:induction false} SmallMod(n: nat, d: nat)
    requires n < d
    ensures n % d == n
  {
  }

  lemma {:induction false} SignedUnique(i: Int, m: int, n: int)
    requires InRange(i, m) && InRange(i, n) && Unsigned(i, m) == Unsigned(i, n)
    ensures m == n
  {
  }

  lemma {:induction false} FieldRoundTrip(f: Field, tail: seq<byte>)
    requires Fits(f)
    ensures DecodeField(KindOf(f), EncodeField(f) + tail) == Some((f, tail))
  {
    match f
    case Number(i, n) => IntRoundTrip(i, n, tail);
    case Blob(d) =>
      IntRoundTrip(U64, |d|, d + tail);
      assert EncodeField(f) + tail == EncodeInt(U64, |d|) + (d + tail);
    case Text(d) =>
      IntRoundTrip(U64, |d| + 1, d + [0] + tail);
      assert EncodeField(f) + tail == EncodeInt(U64, |d| + 1) + (d + [0] + tail);
      assert (d + [0] + tail)[..|d|] == d;
  }

  // Lists of fields.

  datatype List<+T> = Nil | Cons(head: T, tail: List<T>)

  predicate AllFit(fs: List<Field>) { fs.Cons? ==> Fits(fs.head) && AllFit(fs.tail) }

  function Encode(fs: List<Field>): seq<byte> { if fs.Nil? then [] else EncodeField(fs.head) + Encode(fs.tail) }

  function Kinds(fs: List<Field>): List<Kind> { if fs.Nil? then Nil else Cons(KindOf(fs.head), Kinds(fs.tail)) }

  /** Reads one field of each kind in turn, giving up at the first failure. */
  function Decode(ks: List<Kind>, buf: seq<byte>): (r: Option<(List<Field>, seq<byte>)>) {
    if ks.Nil? then Some((Nil, buf))
    else
      match DecodeField(ks.head, buf)
      case None => None
      case Some((f, rest)) => (match Decode(ks.tail, rest) case None => None
          case Some((fs, end)) => Some((Cons(f, fs), end)))
  }

  lemma {:induction false} DecodeNext(k: Kind, ks: List<Kind>, buf: seq<byte>, f: Field, rest: seq<byte>,
                                      fs: List<Field>, end: seq<byte>)
    requires DecodeField(k, buf) == Some((f, rest)) && Decode(ks, rest) == Some((fs, end))
    ensures Decode(Cons(k, ks), buf) == Some((Cons(f, fs), end))
  {
  }

  lemma {:induction false} Assoc(a: seq<byte>, b: seq<byte>, c: seq<byte>)
    ensures a + b + c == a + (b + c)
  {
  }

  /** Reading a list of fields undoes writing it, and reads nothing else. */
  lemma {:induction false} RoundTrip(fs: List<Field>, tail: seq<byte>)
    requires AllFit(fs)
    ensures Decode(Kinds(fs), Encode(fs) + tail) == Some((fs, tail))
  {
    if fs.Cons? {
      var e, rest := EncodeField(fs.head), Encode(fs.tail);
      Assoc(e, rest, tail);
      FieldRoundTrip(fs.head, rest + tail);
      RoundTrip(fs.tail, tail);
      DecodeNext(KindOf(fs.head), Kinds(fs.tail), e + (rest + tail), fs.head, rest + tail, fs.tail, tail);
    } else {
      assert Encode(fs) + tail == tail;
    }
  }
}
