/** Byte strings and file contents, shared by the cache, the codec and the copy loop. */
module Bytes {
  type byte = x: int | 0 <= x < 256

  datatype Option<+T> = None | Some(value: T)

  datatype Result<+T, +E> = Ok(value: T) | Err(error: E)

  /** A part of a buffer that other parts may be appended to. */
  datatype Slice = Slice(offset: nat, size: nat)

  function Min(a: int, b: int): int { if a <= b then a else b }

  function Max(a: int, b: int): int { if a <= b then b else a }

  function Reversed<T>(s: seq<T>): (r: seq<T>)
    ensures |r| == |s| && forall i | 0 <= i < |s| :: r[i] == s[|s| - 1 - i]
  {
    seq(|s|, i requires 0 <= i < |s| => s[|s| - 1 - i])
  }

  function Zeros(n: nat): (z: seq<byte>)
    ensures |z| == n && forall j | 0 <= j < n :: z[j] == 0
  {
    seq(n, _ => 0)
  }

  /** The byte at position j, or -1 past the end: two files are equal when they agree everywhere. */
  function At(f: seq<byte>, j: nat): int { if j < |f| then f[j] else -1 }

  /** `pwrite`: the file after storing `data` at `off`, zero-extending if `off` is past the end. */
  function Splice(f: seq<byte>, off: nat, data: seq<byte>): (r: seq<byte>)
    ensures |r| == if data == [] then |f| else Max(|f|, off + |data|)
    ensures forall j | 0 <= j < |r| ::
              r[j] == if off <= j < off + |data| then data[j - off] else if j < |f| then f[j] else 0
  {
    if data == [] then f else
    var base := if |f| < off then f + Zeros(off - |f|) else f;
    base[..off] + data + base[Min(off + |data|, |base|)..]
  }

  /** `pread`: the at most n bytes of f that start at lo. */
  function Window(f: seq<byte>, lo: nat, n: nat): (w: seq<byte>)
    ensures |w| == Min(n, Max(0, |f| - lo))
    ensures forall o | 0 <= o < |w| :: w[o] == f[lo + o]
  {
    f[Min(lo, |f|)..Min(lo + n, |f|)]
  }

  lemma {:induction false} AgreeEverywhere(f: seq<byte>, g: seq<byte>)
    requires forall j: nat :: At(f, j) == At(g, j)
    ensures f == g
  {
    assert At(f, |f|) == At(g, |f|) && At(f, |g|) == At(g, |g|);
    forall j | 0 <= j < |f| ensures f[j] == g[j] {
      assert At(f, j) == At(g, j);
    }
  }

  /** Writing the next part of some data after the first is writing that much of it at once. */
  lemma {:induction false} SpliceOn(f: seq<byte>, off: nat, data: seq<byte>, m: nat, n: nat)
    requires m <= n <= |data|
    ensures Splice(Splice(f, off, data[..m]), off + m, data[m..n]) == Splice(f, off, data[..n])
  {
    var a, b := data[..m], data[m..n];
    assert a + b == data[..n];
    SpliceSplice(f, off, a, b);
  }

  /** Two adjacent writes are one write of the concatenation. */
  lemma {:induction false} SpliceSplice(f: seq<byte>, off: nat, a: seq<byte>, b: seq<byte>)
    ensures Splice(Splice(f, off, a), off + |a|, b) == Splice(f, off, a + b)
  {
    if b == [] {
      assert a + b == a;
    } else if a == [] {
      assert a + b == b;
    } else {
      var l, r := Splice(Splice(f, off, a), off + |a|, b), Splice(f, off, a + b);
      forall j | 0 <= j < |r| ensures l[j] == r[j] {
      }
      assert |l| == |r|;
    }
  }
}
