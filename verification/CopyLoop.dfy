/**
 * The fallback copy loop of the server (`handle_req(CopyFileRange)` in
 * madbfs-server/src/request_handler.cpp) between two different files, under short reads, short
 * writes and errors at any call.
 */
module CopyLoop {
  import opened Bytes

  const BUFFER: nat := 64 * 1024

  /**
   * What the system answers to each call, counting them from zero: an error, if negative, and
   * otherwise how many bytes it takes, as far as the call allows that many.
   */
  type Script = nat -> int

  /** None of the first so many calls has failed. */
  ghost predicate Answered(script: Script, calls: nat) {
    forall c: nat | c < calls :: script(c) >= 0
  }

  /** `read`: an error, or some bytes at the position; none only at the end of the file. */
  method OsRead(script: Script, calls: nat, file: seq<byte>, pos: nat, want: nat) returns (n: int, data: seq<byte>)
    ensures n <= want && (n < 0 <==> script(calls) < 0)
    ensures n >= 0 ==> data == Window(file, pos, n) && |data| == n
    ensures n == 0 ==> want == 0 || pos >= |file|
  {
    n := script(calls);
    var limit := |Window(file, pos, want)|;
    n := if n < 0 then -1 else if n == 0 && limit > 0 then 1 else Min(n, limit);
    data := if n < 0 then [] else Window(file, pos, n);
  }

  /** `write`: an error, or at least one of the bytes written at the position. */
  method OsWrite(script: Script, calls: nat, file: seq<byte>, pos: nat, data: seq<byte>)
    returns (n: int, file': seq<byte>)
    requires data != []
    ensures (n < 0 <==> script(calls) < 0) && (n < 0 || 0 < n <= |data|)
    ensures file' == if n < 0 then file else Splice(file, pos, data[..n])
  {
    n := script(calls);
    n := if n < 0 then -1 else Max(1, Min(n, |data|));
    file' := if n < 0 then file else Splice(file, pos, data[..n]);
  }

  /** This many bytes of the input range stand at their place in the output, and nothing else of it has changed. */
  ghost predicate CopiedRange(input: seq<byte>, inOff: nat, output: seq<byte>, outOff: nat, n: nat, now: seq<byte>) {
    && |Window(input, inOff, n)| == n
    && now == Splice(output, outOff, Window(input, inOff, n))
  }

  /** The next bytes of the input, written behind the copied ones. */
  lemma {:induction false} CopiedRangeOn(input: seq<byte>, inOff: nat, output: seq<byte>, outOff: nat, k: nat,
                                         data: seq<byte>, n: nat, was: seq<byte>)
    requires CopiedRange(input, inOff, output, outOff, k, was)
    requires n <= |data| && data == Window(input, inOff + k, |data|)
    ensures CopiedRange(input, inOff, output, outOff, k + n, Splice(was, outOff + k, data[..n]))
  {
    assert Window(input, inOff, k + n) == Window(input, inOff, k) + data[..n];
    SpliceSplice(output, outOff, Window(input, inOff, k), data[..n]);
  }

  lemma {:induction false} WindowTail(f: seq<byte>, lo: nat, w: seq<byte>, begin: nat, at: nat)
    requires w == Window(f, lo, |w|) && begin <= |w| && at == lo + begin
    ensures w[begin..] == Window(f, at, |w[begin..]|)
  {
  }

  /** One call of `write`, with what it means for the copy. */
  method WritePart(script: Script, calls: nat, ghost input: seq<byte>, ghost inOff: nat, ghost output: seq<byte>,
                   outOff: nat, copied: nat, data: seq<byte>, was: seq<byte>)
    returns (n: int, now: seq<byte>)
    requires CopiedRange(input, inOff, output, outOff, copied, was)
    requires data != [] && data == Window(input, inOff + copied, |data|)
    ensures (n < 0 <==> script(calls) < 0) && (n < 0 || 0 < n <= |data|)
    ensures n < 0 ==> now == was
    ensures n >= 0 ==> CopiedRange(input, inOff, output, outOff, copied + n, now)
  {
    n, now := OsWrite(script, calls, was, outOff + copied, data);
    if n >= 0 {
      CopiedRangeOn(input, inOff, output, outOff, copied, data, n, was);
    }
  }

  /** The inner loop: writes the buffer out, until it is empty or a write fails. */
  method WriteOut(script: Script, calls: nat, ghost input: seq<byte>, ghost inOff: nat, ghost output: seq<byte>,
                  outOff: nat, buffer: seq<byte>, copied: nat, now: seq<byte>)
    returns (lastWrite: int, copied': nat, now': seq<byte>, calls': nat)
    requires Answered(script, calls) && CopiedRange(input, inOff, output, outOff, copied, now)
    requires buffer != [] && buffer == Window(input, inOff + copied, |buffer|)
    ensures CopiedRange(input, inOff, output, outOff, copied', now')
    ensures copied <= copied' <= copied + |buffer|
    ensures lastWrite >= 0 ==> copied' == copied + |buffer| && Answered(script, calls')
    ensures lastWrite < 0 ==> calls' > 0 && Answered(script, calls' - 1) && script(calls' - 1) < 0
  {
    var begin: nat, remaining: nat := 0, |buffer|;
    lastWrite, copied', now', calls' := 0, copied, now, calls;
    while remaining > 0
      invariant begin + remaining == |buffer| && copied' == copied + begin && lastWrite >= 0
      invariant Answered(script, calls') && CopiedRange(input, inOff, output, outOff, copied', now')
    {
      WindowTail(input, inOff + copied, buffer, begin, inOff + copied');
      lastWrite, now' := WritePart(script, calls', input, inOff, output, outOff, copied', buffer[begin..], now');
      calls' := calls' + 1;
      if lastWrite < 0 {
        return;
      }
      begin := begin + lastWrite;
      remaining := remaining - lastWrite;
      copied' := copied' + lastWrite;
    }
  }

  /**
   * The copy succeeds exactly when none of its calls failed, and has then copied the whole range as
   * far as the input reaches; the first failure ends it and leaves a prefix of the range copied. The
   * rest of the output is as it was.
   */
  method CopyFileRange(script: Script, input: seq<byte>, inOff: nat, output: seq<byte>, outOff: nat, size: nat)
    returns (ok: bool, copied: nat, now: seq<byte>, calls: nat)
    ensures CopiedRange(input, inOff, output, outOff, copied, now)
    ensures copied <= |Window(input, inOff, size)|
    ensures ok <==> Answered(script, calls)
    ensures ok ==> copied == |Window(input, inOff, size)|
    ensures !ok ==> calls > 0 && Answered(script, calls - 1) && script(calls - 1) < 0
  {
    copied, now, calls := 0, output, 0;
    var lastRead, lastWrite := 0, 0;
    while copied < size && lastWrite >= 0
      invariant CopiedRange(input, inOff, output, outOff, copied, now)
      invariant copied <= size && lastRead >= 0
      invariant lastWrite >= 0 ==> Answered(script, calls)
      invariant lastWrite < 0 ==> calls > 0 && Answered(script, calls - 1) && script(calls - 1) < 0
      decreases size - copied, if lastWrite >= 0 then 1 else 0
    {
      var toRead := Min(BUFFER, size - copied);
      var buffer;
      lastRead, buffer := OsRead(script, calls, input, inOff + copied, toRead);
      calls := calls + 1;
      if lastRead <= 0 {
        break;
      }
      lastWrite, copied, now, calls := WriteOut(script, calls, input, inOff, output, outOff, buffer, copied, now);
    }
    ok := lastRead >= 0 && lastWrite >= 0;
  }

  /** What the copy means for every byte of the output. */
  lemma {:induction false} CopiedBytes(input: seq<byte>, inOff: nat, output: seq<byte>, outOff: nat, n: nat,
                                       now: seq<byte>)
    requires CopiedRange(input, inOff, output, outOff, n, now)
    ensures forall j: nat :: At(now, j) ==
              if outOff <= j < outOff + n then At(input, inOff + (j - outOff))
              else if j < |output| || j >= outOff || n == 0 then At(output, j) else 0
  {
  }
}
