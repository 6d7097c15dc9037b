/**
 * Paths as strings and as lists of names (madbfs/src/path.cpp, madbfs-common util/split.hpp). The
 * names of a string are its maximal runs of characters other than '/'; two tokenizers must agree on them.
 */
module Paths {
  import opened Bytes

  /** Where the run that contains position i ends. */
  function RunEnd(s: string, i: nat): (e: nat)
    requires i <= |s|
    ensures i <= e <= |s|
    ensures forall j | i <= j < e :: s[j] != '/'
    ensures e < |s| ==> s[e] == '/'
    decreases |s| - i
  {
    if i < |s| && s[i] != '/' then RunEnd(s, i + 1) else i
  }

  /** The runs of s from position i on. */
  function Runs(s: string, i: nat): (r: seq<Slice>)
    requires i <= |s|
    ensures forall c | c in r :: i <= c.offset && 0 < c.size && c.offset + c.size <= |s|
    decreases |s| - i
  {
    if i == |s| then []
    else if s[i] == '/' then Runs(s, i + 1)
    else [Slice(i, RunEnd(s, i) - i)] + Runs(s, RunEnd(s, i))
  }

  /** The names of s. */
  function Tokens(s: string): (r: seq<string>)
    ensures forall t | t in r :: t != "" && '/' !in t
    decreases |s|
  {
    if s == "" then []
    else if s[0] == '/' then Tokens(s[1..])
    else [s[..RunEnd(s, 0)]] + Tokens(s[RunEnd(s, 0)..])
  }

  function Named(s: string,
                 c: Slice): string { if c.offset + c.size <= |s| then s[c.offset..c.offset + c.size] else "" }

  function Names(s: string, cs: seq<Slice>): (r: seq<string>)
    ensures |r| == |cs|
  {
    if cs == [] then [] else [Named(s, cs[0])] + Names(s, cs[1..])
  }

  lemma {:induction false} NamesConcat(s: string, a: seq<Slice>, b: seq<Slice>)
    ensures Names(s, a + b) == Names(s, a) + Names(s, b)
  {
    if a == [] {
      assert a + b == b;
    } else {
      assert (a + b)[1..] == a[1..] + b;
      NamesConcat(s, a[1..], b);
    }
  }

  predicate InSlice(c: Slice, j: nat) { c.offset <= j < c.offset + c.size }

  function End(c: Slice): nat { c.offset + c.size }

  /** A run of s: a stretch without slashes, between two slashes or the ends of the string. */
  ghost predicate IsRun(s: string, c: Slice) {
    && 0 < c.size && End(c) <= |s|
    && (forall j: nat | InSlice(c, j) :: s[j] != '/')
    && (0 < c.offset ==> s[c.offset - 1] == '/')
    && (End(c) < |s| ==> s[End(c)] == '/')
  }

  lemma {:induction false} RunAt(s: string, i: nat, k: nat)
    requires i <= |s| && k < |Runs(s, i)| && (0 < i < |s| ==> s[i] == '/' || s[i - 1] == '/')
    ensures IsRun(s, Runs(s, i)[k]) && i <= Runs(s, i)[k].offset
    ensures k + 1 < |Runs(s, i)| ==> End(Runs(s, i)[k]) < Runs(s, i)[k + 1].offset
    ensures k == 0 && i < |s| && s[i] == '/' ==> i < Runs(s, i)[0].offset
    decreases |s| - i
  {
    if i < |s| && s[i] == '/' {
      RunAt(s, i + 1, k);
    } else if i < |s| {
      var e := RunEnd(s, i);
      assert Runs(s, i) == [Slice(i, e - i)] + Runs(s, e);
      if k > 0 {
        RunAt(s, e, k - 1);
      } else if |Runs(s, e)| > 0 {
        RunAt(s, e, 0);
      }
    }
  }

  lemma {:induction false} RunsInOrder(s: string, k: nat, l: nat)
    requires k < l < |Runs(s, 0)|
    ensures End(Runs(s, 0)[k]) < Runs(s, 0)[l].offset
    decreases l
  {
    RunAt(s, 0, l - 1);
    if k < l - 1 {
      RunsInOrder(s, k, l - 1);
    }
  }

  /** Runs leave out nothing but slashes. */
  lemma {:induction false} RunsCover(s: string, i: nat, j: nat)
    requires i <= j < |s|
    ensures s[j] != '/' <==> exists c :: c in Runs(s, i) && InSlice(c, j)
    decreases |s| - i
  {
    if s[i] == '/' {
      if i < j { RunsCover(s, i + 1, j); }
    } else {
      var e := RunEnd(s, i);
      if j >= e {
        RunsCover(s, e, j);
      } else {
        assert InSlice(Slice(i, e - i), j);
        assert Slice(i, e - i) in Runs(s, i);
      }
    }
  }

  lemma {:induction false} TokensStep(s: string, i: nat)
    requires i < |s| && s[i] != '/'
    ensures Tokens(s[i..]) == [s[i..RunEnd(s, i)]] + Tokens(s[RunEnd(s, i)..])
  {
    RunEndShift(s, i, 0);
    Sliced(s, i, RunEnd(s, i));
  }

  lemma {:induction false} RunsStep(s: string, i: nat)
    requires i < |s| && s[i] != '/'
    ensures Names(s, Runs(s, i)) == [s[i..RunEnd(s, i)]] + Names(s, Runs(s, RunEnd(s, i)))
  {
    var e := RunEnd(s, i);
    NamesCons(s, Slice(i, e - i), Runs(s, e));
  }

  /** Both ways of cutting a string up give the same names. */
  lemma {:induction false} RunsAreTokens(s: string, i: nat)
    requires i <= |s|
    ensures Names(s, Runs(s, i)) == Tokens(s[i..])
    decreases |s| - i
  {
    if i < |s| {
      if s[i] == '/' {
        RunsAreTokens(s, i + 1);
        assert s[i..][1..] == s[i + 1..];
      } else {
        TokensStep(s, i);
        RunsStep(s, i);
        RunsAreTokens(s, RunEnd(s, i));
      }
    }
  }

  lemma {:induction false} Sliced(s: string, i: nat, e: nat)
    requires i <= e <= |s|
    ensures s[i..][..e - i] == s[i..e] && s[i..][e - i..] == s[e..]
  {
  }

  lemma {:induction false} NamesCons(s: string, c: Slice, cs: seq<Slice>)
    ensures Names(s, [c] + cs) == [Named(s, c)] + Names(s, cs)
  {
    assert ([c] + cs)[1..] == cs;
  }

  lemma {:induction false} RunEndShift(s: string, i: nat, j: nat)
    requires i + j <= |s|
    ensures RunEnd(s[i..], j) == RunEnd(s, i + j) - i
    decreases |s| - i - j
  {
    if i + j < |s| && s[i + j] != '/' {
      RunEndShift(s, i, j + 1);
    }
  }

  // What appending does.

  lemma {:induction false} RunEndAppend(s: string, t: string, i: nat)
    requires i <= |s| && (t == "" || t[0] == '/')
    ensures RunEnd(s + t, i) == RunEnd(s, i)
    decreases |s| - i
  {
    if i < |s| && s[i] != '/' {
      RunEndAppend(s, t, i + 1);
    }
  }

  lemma {:induction false} Grouped(a: seq<Slice>, b: seq<Slice>, c: seq<Slice>)
    ensures a + (b + c) == a + b + c
  {
  }

  /** What follows a slash does not change the runs before it. */
  lemma {:induction false} RunsAppend(s: string, t: string, i: nat)
    requires i <= |s| && (t == "" || t[0] == '/')
    ensures Runs(s + t, i) == Runs(s, i) + Runs(s + t, |s|)
    decreases |s| - i
  {
    if i < |s| {
      if s[i] == '/' {
        RunsAppend(s, t, i + 1);
      } else {
        RunsAppend(s, t, RunEnd(s, i));
        RunAppend(s, t, i, s + t, RunEnd(s, i));
      }
    }
  }

  lemma {:induction false} RunAppend(s: string, t: string, i: nat, all: string, e: nat)
    requires i < |s| && s[i] != '/' && (t == "" || t[0] == '/') && all == s + t && e == RunEnd(s, i)
    requires Runs(all, e) == Runs(s, e) + Runs(all, |s|)
    ensures Runs(all, i) == Runs(s, i) + Runs(all, |s|)
  {
    RunEndAppend(s, t, i);
    RunFirst(s, i);
    RunFirst(all, i);
    Grouped([Slice(i, e - i)], Runs(s, e), Runs(all, |s|));
  }

  lemma {:induction false} RunFirst(s: string, i: nat)
    requires i < |s| && s[i] != '/'
    ensures Runs(s, i) == [Slice(i, RunEnd(s, i) - i)] + Runs(s, RunEnd(s, i))
  {
  }

  lemma {:induction false} TokensAppend(s: string, t: string)
    requires t == "" || t[0] == '/'
    ensures Tokens(s + t) == Tokens(s) + Tokens(t)
    decreases |s|
  {
    if s == "" {
      assert s + t == t;
    } else if s[0] == '/' {
      assert (s + t)[1..] == s[1..] + t;
      TokensAppend(s[1..], t);
    } else {
      var e := RunEnd(s, 0);
      RunEndAppend(s, t, 0);
      assert (s + t)[..e] == s[..e] && (s + t)[e..] == s[e..] + t;
      TokensAppend(s[e..], t);
    }
  }

  predicate Plain(n: string) { n != "" && '/' !in n }

  ghost predicate AllPlain(ns: seq<string>) { forall n | n in ns :: Plain(n) }

  lemma {:induction false} RunEndPlain(s: string, i: nat)
    requires i <= |s| && forall j | i <= j < |s| :: s[j] != '/'
    ensures RunEnd(s, i) == |s|
    decreases |s| - i
  {
    if i < |s| {
      RunEndPlain(s, i + 1);
    }
  }

  /** A slash and a name add one run. */
  lemma {:induction false} RunsExtend(s: string, n: string)
    requires Plain(n)
    ensures Runs(s + "/" + n, 0) == Runs(s, 0) + [Slice(|s| + 1, |n|)]
  {
    var t := "/" + n;
    assert s + "/" + n == s + t;
    RunsAppend(s, t, 0);
    forall j | |s| + 1 <= j < |s + t| ensures (s + t)[j] != '/' {
      assert (s + t)[j] == n[j - |s| - 1];
      assert n[j - |s| - 1] in n;
    }
    RunEndPlain(s + t, |s| + 1);
    assert Runs(s + t, |s|) == Runs(s + t, |s| + 1);
    assert Runs(s + t, |s + t|) == [];
  }

  /** The first k runs of s, when it is cut off between them and the others. */
  lemma {:induction false} PrefixRuns(s: string, e: nat, k: nat)
    requires e <= |s| && (e < |s| ==> s[e] == '/') && k <= |Runs(s, 0)|
    requires k > 0 ==> End(Runs(s, 0)[k - 1]) <= e
    requires k < |Runs(s, 0)| ==> e <= Runs(s, 0)[k].offset
    ensures Runs(s[..e], 0) == Runs(s, 0)[..k]
  {
    var r, a, b := Runs(s, 0), Runs(s[..e], 0), Runs(s, e);
    if |a| < k - 1 {
      RunsInOrder(s, |a|, k - 1);
    }
    assert s[..e] + s[e..] == s;
    RunsAppend(s[..e], s[e..], 0);
    assert r == a + b;
    assert |a| == k;
  }

  // Paths.

  datatype Path = Path(str: string, comps: seq<Slice>) {
    predicate IsRoot() { comps == [] }
  }

  /** One slash in front, none at the end. */
  predicate Clean(s: string) { s != "" && s[0] == '/' && (|s| > 1 ==> s[1] != '/' && s[|s| - 1] != '/') }

  /** A path's slices are the runs of its string. */
  ghost predicate Valid(p: Path) { Clean(p.str) && p.comps == Runs(p.str, 0) }

  ghost function NamesOf(p: Path): seq<string> { Names(p.str, p.comps) }

  function Last(p: Path): Slice
    requires !p.IsRoot()
  {
    p.comps[|p.comps| - 1]
  }

  /** The last slice ends the string, and only the root has none. */
  lemma {:induction false} ValidLast(p: Path)
    requires Valid(p)
    ensures p.IsRoot() <==> p.str == "/"
    ensures !p.IsRoot() ==> End(Last(p)) == |p.str|
  {
    if |p.str| > 1 {
      RunsCover(p.str, 0, |p.str| - 1);
      var c :| c in p.comps && InSlice(c, |p.str| - 1);
      var k :| 0 <= k < |p.comps| && p.comps[k] == c;
      if k < |p.comps| - 1 {
        RunsInOrder(p.str, k, |p.comps| - 1);
      }
    } else {
      assert Runs("/", 0) == Runs("/", 1) == [];
    }
  }

  /** What validity means: the slices are runs and in order, and their names are those of the string. */
  lemma {:induction false} ValidShape(p: Path)
    requires Valid(p)
    ensures forall k | 0 <= k < |p.comps| :: IsRun(p.str, p.comps[k]) && 0 < p.comps[k].offset
    ensures forall k, l | 0 <= k < l < |p.comps| :: End(p.comps[k]) < p.comps[l].offset
    ensures NamesOf(p) == Tokens(p.str)
  {
    forall k | 0 <= k < |p.comps| ensures IsRun(p.str, p.comps[k]) && 0 < p.comps[k].offset {
      RunAt(p.str, 0, k);
      assert !InSlice(p.comps[k], 0);
    }
    forall k, l | 0 <= k < l < |p.comps| ensures End(p.comps[k]) < p.comps[l].offset {
      RunsInOrder(p.str, k, l);
    }
    RunsAreTokens(p.str, 0);
    assert p.str[0..] == p.str;
  }

  function Parent(p: Path): string {
    var n := |p.comps|;
    if n <= 1 then "/" else p.str[..Min(|p.str|, End(p.comps[n - 2]))]
  }

  function ParentPath(p: Path): Path { if p.IsRoot() then p else Path(Parent(p), p.comps[..|p.comps| - 1]) }

  /** Names do not change where the strings agree. */
  lemma {:induction false} SameNames(s: string, t: string, cs: seq<Slice>)
    requires forall k | 0 <= k < |cs| :: Named(s, cs[k]) == Named(t, cs[k])
    ensures Names(s, cs) == Names(t, cs)
  {
    if cs != [] {
      SameNames(s, t, cs[1..]);
    }
  }

  lemma {:induction false} NamedAgree(s: string, t: string, e: nat, c: Slice)
    requires End(c) <= e <= |s| && e <= |t| && s[..e] == t[..e]
    ensures Named(s, c) == Named(t, c)
  {
    assert Named(s, c) == s[..e][c.offset..End(c)];
    assert Named(t, c) == t[..e][c.offset..End(c)];
  }

  lemma {:induction false} PrefixNames(s: string, t: string, m: nat, e: nat)
    requires m <= |Runs(s, 0)| && e <= |s| && e <= |t| && s[..e] == t[..e]
    requires m > 0 ==> End(Runs(s, 0)[m - 1]) <= e
    ensures Names(t, Runs(s, 0)[..m]) == Names(s, Runs(s, 0))[..m]
  {
    var r := Runs(s, 0);
    var cs := r[..m];
    forall k | 0 <= k < |cs| ensures Named(s, cs[k]) == Named(t, cs[k]) {
      if k < m - 1 { RunsInOrder(s, k, m - 1); }
      NamedAgree(s, t, e, cs[k]);
    }
    SameNames(s, t, cs);
    assert r == cs + r[m..];
    NamesConcat(s, cs, r[m..]);
  }

  /** The parent's string ends with the slice before the last one. */
  lemma {:induction false} ParentEnd(p: Path)
    requires Valid(p) && |p.comps| > 1
    ensures var e := End(p.comps[|p.comps| - 2]);
            1 < e <= |p.str| && p.str[e - 1] != '/' && (e < |p.str| ==> p.str[e] == '/') && e <= Last(p).offset
  {
    var c := p.comps[|p.comps| - 2];
    RunAt(p.str, 0, |p.comps| - 2);
    assert !InSlice(c, 0);
    assert InSlice(c, End(c) - 1);
  }

  lemma {:induction false} ParentValid(p: Path)
    requires Valid(p)
    ensures Valid(ParentPath(p))
  {
    var n := |p.comps|;
    if n == 1 {
      assert Runs("/", 0) == Runs("/", 1) == [];
    } else if n > 1 {
      ParentEnd(p);
      PrefixRuns(p.str, End(p.comps[n - 2]), n - 1);
    }
  }

  lemma {:induction false} ParentNames(p: Path)
    requires Valid(p) && !p.IsRoot()
    ensures NamesOf(ParentPath(p)) == NamesOf(p)[..|p.comps| - 1]
  {
    var n := |p.comps|;
    if n > 1 {
      ParentEnd(p);
      var e := End(p.comps[n - 2]);
      assert p.str[..e][..e] == p.str[..e];
      PrefixNames(p.str, p.str[..e], n - 1, e);
    }
  }

  predicate BadName(n: string) { n == "" || '/' in n || n == "." || n == ".." }

  /** `extend`: the name goes to the end, after a slash unless the path is the root. */
  function Extended(p: Path, n: string): Path {
    var base := if p.IsRoot() then p.str else p.str + "/";
    Path(base + n, p.comps + [Slice(|base|, |n|)])
  }

  lemma {:induction false} ExtendValid(p: Path, n: string)
    requires Valid(p) && Plain(n)
    ensures Valid(Extended(p, n)) && ParentPath(Extended(p, n)) == p
  {
    ValidLast(p);
    ExtendParent(p, n);
    if p.IsRoot() {
      RunsExtend("", n);
      JoinClean("", n);
      assert "" + "/" + n == Extended(p, n).str;
    } else {
      RunsExtend(p.str, n);
      JoinClean(p.str, n);
    }
  }

  lemma {:induction false} ExtendParent(p: Path, n: string)
    requires Valid(p)
    ensures ParentPath(Extended(p, n)) == p
  {
    ValidLast(p);
    var e := Extended(p, n);
    assert e.comps[..|p.comps|] == p.comps;
    assert e.str[..|p.str|] == p.str;
  }

  lemma {:induction false} ExtendNames(p: Path, n: string)
    requires Valid(p) && Plain(n)
    ensures NamesOf(Extended(p, n)) == NamesOf(p) + [n]
  {
    var e := Extended(p, n);
    assert p.comps[..|p.comps|] == p.comps && NamesOf(p)[..|p.comps|] == NamesOf(p);
    ValidLast(p);
    PrefixNames(p.str, e.str, |p.comps|, |p.str|);
    NamesNext(e.str, p.comps, Slice(|e.str| - |n|, |n|));
    assert e.str[|e.str| - |n|..|e.str|] == n;
  }

  lemma {:induction false} NamesNext(s: string, cs: seq<Slice>, c: Slice)
    ensures Names(s, cs + [c]) == Names(s, cs) + [Named(s, c)]
  {
    NamesConcat(s, cs, [c]);
    assert Names(s, [c]) == [Named(s, c)];
  }

  /** `rename`: the last slice is replaced in the string. */
  function Renamed(p: Path, n: string): Path
    requires !p.IsRoot()
  {
    var c := Last(p);
    Path(p.str[..Min(c.offset, |p.str|)] + n + p.str[Min(End(c), |p.str|)..],
        p.comps[..|p.comps| - 1] + [Slice(c.offset, |n|)])
  }

  lemma {:induction false} RenamedString(p: Path, n: string)
    requires Valid(p) && !p.IsRoot()
    ensures 0 < Last(p).offset <= |p.str| && p.str[Last(p).offset - 1] == '/'
    ensures Renamed(p, n).str == p.str[..Last(p).offset - 1] + "/" + n
  {
    ValidLast(p);
    RunAt(p.str, 0, |p.comps| - 1);
    assert !InSlice(Last(p), 0);
    assert p.str[..Last(p).offset] == p.str[..Last(p).offset - 1] + "/";
  }

  lemma {:induction false} JoinClean(front: string, n: string)
    requires Plain(n) && (front == "" || (|front| > 1 && front[0] == '/' && front[1] != '/'))
    ensures Clean(front + "/" + n)
  {
    assert n[0] in n && n[|n| - 1] in n;
    assert (front + "/" + n)[|front + "/" + n| - 1] == n[|n| - 1];
  }

  lemma {:induction false} RenameParent(p: Path, n: string)
    requires Valid(p) && !p.IsRoot()
    ensures ParentPath(Renamed(p, n)) == ParentPath(p)
  {
    var m, k, r := |p.comps| - 1, Last(p).offset - 1, Renamed(p, n);
    RenamedString(p, n);
    if m > 0 { ParentEnd(p); }
    SameParent(p, r, m, k);
  }

  /** Paths with the same slices but for the last, and the same string up to there, have the same parent. */
  lemma {:induction false} SameParent(p: Path, r: Path, m: nat, k: nat)
    requires |p.comps| == |r.comps| == m + 1 && p.comps[..m] == r.comps[..m]
    requires k <= |p.str| && k <= |r.str| && p.str[..k] == r.str[..k] && (m > 0 ==> End(p.comps[m - 1]) <= k)
    ensures ParentPath(r) == ParentPath(p)
  {
    if m > 0 {
      assert r.comps[m - 1] == r.comps[..m][m - 1] == p.comps[..m][m - 1] == p.comps[m - 1];
      SamePrefix(p.str, r.str, k, End(p.comps[m - 1]));
    }
  }

  lemma {:induction false} SamePrefix(s: string, t: string, k: nat, e: nat)
    requires e <= k <= |s| && k <= |t| && s[..k] == t[..k]
    ensures s[..e] == t[..e]
  {
    assert s[..e] == s[..k][..e];
    assert t[..e] == t[..k][..e];
  }

  lemma {:induction false} RenameValid(p: Path, n: string)
    requires Valid(p) && !p.IsRoot() && Plain(n)
    ensures Valid(Renamed(p, n))
  {
    var m, c := |p.comps| - 1, Last(p);
    RenamedString(p, n);
    if m > 0 { RunAt(p.str, 0, m - 1); }
    PrefixRuns(p.str, c.offset - 1, m);
    RunsExtend(p.str[..c.offset - 1], n);
    JoinClean(p.str[..c.offset - 1], n);
  }

  lemma {:induction false} RenameNames(p: Path, n: string)
    requires Valid(p) && !p.IsRoot() && Plain(n)
    ensures NamesOf(Renamed(p, n)) == NamesOf(p)[..|p.comps| - 1] + [n]
  {
    var m, c, r := |p.comps| - 1, Last(p), Renamed(p, n);
    RenamedString(p, n);
    if m > 0 { RunAt(p.str, 0, m - 1); }
    PrefixNames(p.str, r.str, m, c.offset - 1);
    NamesNext(r.str, p.comps[..m], Slice(c.offset, |n|));
  }

  // Parsing.

  function TrimEnd(s: string): string { if |s| > 1 && s[|s| - 1] == '/' then TrimEnd(s[..|s| - 1]) else s }

  function TrimFront(s: string): string { if |s| > 2 && s[0] == '/' && s[1] == '/' then TrimFront(s[1..]) else s }

  /** The cleaned string: slashes at the end and all but one at the front are gone. */
  function Trimmed(s: string): string { TrimFront(TrimEnd(s)) }

  function Absolute(s: string): bool { s != "" && s[0] == '/' }

  lemma {:induction false} TrimEndClean(s: string)
    requires Absolute(s)
    ensures Absolute(TrimEnd(s)) && (|TrimEnd(s)| > 1 ==> TrimEnd(s)[|TrimEnd(s)| - 1] != '/')
    ensures Tokens(TrimEnd(s)) == Tokens(s)
  {
    if |s| > 1 && s[|s| - 1] == '/' {
      var front := s[..|s| - 1];
      TrimEndClean(front);
      assert s == front + "/";
      TokensAppend(front, "/");
      assert Tokens("/") == Tokens("/"[1..]) == [];
    }
  }

  lemma {:induction false} TrimFrontClean(s: string)
    requires Absolute(s) && (|s| > 1 ==> s[|s| - 1] != '/')
    ensures Clean(TrimFront(s))
    ensures Tokens(TrimFront(s)) == Tokens(s)
  {
    if |s| > 2 && s[1] == '/' {
      TrimFrontClean(s[1..]);
    }
  }

  /** Cleaning an absolute string keeps its names. */
  lemma {:induction false} TrimmedClean(s: string)
    requires Absolute(s)
    ensures Clean(Trimmed(s)) && Tokens(Trimmed(s)) == Tokens(s)
  {
    TrimEndClean(s);
    TrimFrontClean(TrimEnd(s));
  }

  /** `create` and its siblings: the cleaned string and its runs, for absolute strings only. */
  function Create(s: string): Option<Path> {
    if Absolute(s) then Some(Path(Trimmed(s), Runs(Trimmed(s), 0))) else None
  }

  /** Parsing gives a valid path with the names of the string. */
  lemma {:induction false} CreateValid(s: string)
    ensures Create(s).Some? <==> Absolute(s)
    ensures Create(s).Some? ==> Valid(Create(s).value) && NamesOf(Create(s).value) == Tokens(s)
  {
    if Absolute(s) {
      TrimmedClean(s);
      ValidShape(Create(s).value);
    }
  }

  /** Parsing a path's string gives the path back. */
  lemma {:induction false} Reparse(p: Path)
    requires Valid(p)
    ensures Create(p.str) == Some(p)
  {
    assert TrimEnd(p.str) == p.str;
    assert TrimFront(p.str) == p.str;
  }

  /** `split_components`, on the string and on the slices; the slice it returns says where the cleaned string is. */
  method SplitComponents(path: string) returns (where: Option<Slice>, comps: seq<Slice>)
    ensures where.Some? <==> Absolute(path)
    ensures Absolute(path) ==> comps == Runs(Trimmed(path), 0)
    ensures Absolute(path) && Trimmed(path) == "/" ==> where.value == Slice(0, 0)
    ensures Absolute(path) && Trimmed(path) != "/" ==>
              End(where.value) <= |path| && Named(path, where.value) == Trimmed(path)
  {
    comps := [];
    if path == "" || path[0] != '/' {
      return None, comps;
    }
    var cur, offset := TrimLoops(path);
    TrimmedClean(path);
    if cur == "/" {
      assert Runs("/", 0) == Runs("/", 1) == [];
      return Some(Slice(0, 0)), comps;
    }
    comps := CutLoop(cur);
    return Some(Slice(offset, |cur|)), comps;
  }

  method TrimLoops(path: string) returns (cur: string, offset: nat)
    requires Absolute(path)
    ensures cur == Trimmed(path)
    ensures offset + |cur| <= |path| && path[offset..offset + |cur|] == cur
  {
    cur := path;
    while |cur| > 1 && cur[|cur| - 1] == '/'
      invariant TrimEnd(cur) == TrimEnd(path)
      invariant |cur| <= |path| && cur == path[..|cur|]
    {
      cur := cur[..|cur| - 1];
    }
    offset := 0;
    while |cur| > 2 && cur[0] == '/' && cur[1] == '/'
      invariant TrimFront(cur) == Trimmed(path)
      invariant offset + |cur| <= |path| && path[offset..offset + |cur|] == cur
    {
      cur := cur[1..];
      offset := offset + 1;
    }
  }

  /** The runs before a position have been found. */
  ghost predicate Found(s: string, found: seq<Slice>, at: nat) { at <= |s| && found + Runs(s, at) == Runs(s, 0) }

  lemma {:induction false} FindNext(s: string, found: seq<Slice>, at: nat)
    requires Found(s, found, at) && at < |s| && s[at] != '/'
    ensures at < RunEnd(s, at) && Found(s, found + [Slice(at, RunEnd(s, at) - at)], RunEnd(s, at))
  {
    var c, rest := Slice(at, RunEnd(s, at) - at), Runs(s, RunEnd(s, at));
    assert found + ([c] + rest) == found + [c] + rest;
  }

  lemma {:induction false} FoundAll(s: string, found: seq<Slice>)
    requires Found(s, found, |s|)
    ensures found == Runs(s, 0)
  {
    assert found + [] == found;
  }

  method CutLoop(s: string) returns (comps: seq<Slice>)
    requires Clean(s) && |s| > 1
    ensures comps == Runs(s, 0)
  {
    comps := [];
    var index: nat := 1;
    assert Found(s, comps, index);
    while index < |s|
      invariant Found(s, comps, index)
    {
      var current := SkipSlashes(s, comps, index);
      FindNext(s, comps, current);
      var next := RunEnd(s, current);
      comps := comps + [Slice(current, next - current)];
      index := next;
      if next == |s| {
        break;
      }
    }
    FoundAll(s, comps);
  }

  method SkipSlashes(s: string, ghost found: seq<Slice>, index: nat) returns (current: nat)
    requires Found(s, found, index) && index < |s| && s[|s| - 1] != '/'
    ensures index <= current < |s| && s[current] != '/' && Found(s, found, current)
  {
    current := index;
    while current < |s| && s[current] == '/'
      invariant index <= current < |s| && Found(s, found, current)
    {
      current := current + 1;
    }
  }
}
