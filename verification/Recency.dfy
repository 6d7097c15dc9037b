/**
 * The order of the cache's page list. `Touch` is what one page access does to the list of keys
 * (splice to the front on a hit, insert at the front and drop the surplus from the back on a miss);
 * `RecentOf` is what the list is meant to be: the keys of the access history, latest use first.
 */
module Recency {
  import opened Bytes

  datatype PageKey = PageKey(id: nat, index: nat)

  function Take(s: seq<PageKey>, n: nat): seq<PageKey> { if |s| <= n then s else s[..n] }

  function Without(s: seq<PageKey>, k: PageKey): (r: seq<PageKey>)
    ensures forall x :: x in r <==> x in s && x != k
    ensures |r| <= |s|
  {
    if s == [] then [] else if s[0] == k then Without(s[1..], k) else [s[0]] + Without(s[1..], k)
  }

  ghost predicate Apart(s: seq<PageKey>, i: nat, j: nat)
    requires i < |s| && j < |s|
  {
    s[i] != s[j]
  }

  ghost predicate Distinct(s: seq<PageKey>) { forall i: nat, j: nat | i < j < |s| :: Apart(s, i, j) }

  lemma {:induction false} OnlyAt(s: seq<PageKey>, i: nat, j: nat)
    requires Distinct(s) && i < |s| && j < |s| && i != j
    ensures s[i] != s[j]
  {
    if i < j { assert Apart(s, i, j); } else { assert Apart(s, j, i); }
  }

  function Promote(s: seq<PageKey>, k: PageKey): seq<PageKey> { [k] + Without(s, k) }

  function Touch(s: seq<PageKey>, k: PageKey, max: nat): seq<PageKey> { Take(Promote(s, k), max) }

  function TouchAll(s: seq<PageKey>, ks: seq<PageKey>, max: nat): seq<PageKey> {
    if ks == [] then s else Touch(TouchAll(s, ks[..|ks| - 1], max), ks[|ks| - 1], max)
  }

  /** The keys of s after the accesses ks if nothing were ever dropped. */
  function PromoteAll(s: seq<PageKey>, ks: seq<PageKey>): seq<PageKey> {
    if ks == [] then s else Promote(PromoteAll(s, ks[..|ks| - 1]), ks[|ks| - 1])
  }

  lemma {:induction false} WithoutAbsent(s: seq<PageKey>, k: PageKey)
    requires k !in s
    ensures Without(s, k) == s
  {
    if s != [] { WithoutAbsent(s[1..], k); }
  }

  lemma {:induction false} WithoutAppend(a: seq<PageKey>, b: seq<PageKey>, k: PageKey)
    ensures Without(a + b, k) == Without(a, k) + Without(b, k)
  {
    if a == [] {
      assert a + b == b;
    } else {
      assert (a + b)[1..] == a[1..] + b;
      WithoutAppend(a[1..], b, k);
    }
  }

  /** Removing an element of a list without repetitions, by position. */
  lemma {:induction false} WithoutAt(s: seq<PageKey>, i: nat)
    requires i < |s| && Distinct(s)
    ensures Without(s, s[i]) == s[..i] + s[i + 1..]
  {
    assert s == s[..i] + ([s[i]] + s[i + 1..]);
    WithoutAppend(s[..i], [s[i]] + s[i + 1..], s[i]);
    forall j | 0 <= j < |s| && j != i ensures s[j] != s[i] { OnlyAt(s, i, j); }
    WithoutAbsent(s[..i], s[i]);
    WithoutAbsent(s[i + 1..], s[i]);
  }

  /** Removal keeps the order of what stays. */
  lemma {:induction false} OrderKept(s: seq<PageKey>, k: PageKey, i: nat, j: nat) returns (a: nat, b: nat)
    requires i < j < |Without(s, k)|
    ensures a < b < |s| && s[a] == Without(s, k)[i] && s[b] == Without(s, k)[j]
  {
    if s[0] == k {
      a, b := OrderKept(s[1..], k, i, j);
      a, b := a + 1, b + 1;
    } else if i == 0 {
      assert Without(s, k)[j] in s[1..];
      a, b :| 0 == a < b < |s| && s[b] == Without(s, k)[j];
    } else {
      a, b := OrderKept(s[1..], k, i - 1, j - 1);
      a, b := a + 1, b + 1;
    }
  }

  lemma {:induction false} PromoteDistinct(s: seq<PageKey>, k: PageKey)
    requires Distinct(s)
    ensures Distinct(Promote(s, k))
  {
    var w := Without(s, k);
    forall i: nat, j: nat | i < j < |Promote(s, k)| ensures Apart(Promote(s, k), i, j) {
      assert w[j - 1] in w;
      if i > 0 {
        var a, b := OrderKept(s, k, i - 1, j - 1);
        OnlyAt(s, a, b);
      }
    }
  }

  lemma {:induction false} PromoteAllDistinct(s: seq<PageKey>, ks: seq<PageKey>)
    requires Distinct(s)
    ensures Distinct(PromoteAll(s, ks))
    ensures forall x :: x in PromoteAll(s, ks) <==> x in s || x in ks
  {
    if ks != [] {
      var h, k := ks[..|ks| - 1], ks[|ks| - 1];
      PromoteAllDistinct(s, h);
      PromoteDistinct(PromoteAll(s, h), k);
      assert ks == h + [k];
    }
  }

  lemma {:induction false} DistinctPrefix(s: seq<PageKey>, n: nat)
    requires Distinct(s) && n <= |s|
    ensures Distinct(s[..n])
  {
    forall i: nat, j: nat | i < j < n ensures Apart(s[..n], i, j) { OnlyAt(s, i, j); }
  }

  /** Cutting the list to its first `max` keys before an access does not show after it. */
  lemma {:induction false} TakeThenTouch(s: seq<PageKey>, k: PageKey, max: nat)
    requires Distinct(s)
    ensures Touch(Take(s, max), k, max) == Touch(s, k, max)
  {
    if |s| > max {
      var t, u := s[..max], s[max..];
      assert s == t + u;
      WithoutAppend(t, u, k);
      if k in t {
        var i :| 0 <= i < |t| && t[i] == k;
        DistinctPrefix(s, max);
        WithoutAt(t, i);
        forall j | 0 <= j < |u| ensures u[j] != k { OnlyAt(s, i, max + j); }
        WithoutAbsent(u, k);
      } else {
        WithoutAbsent(t, k);
      }
    }
  }

  /** Dropping from the back as one goes is the same as never dropping and cutting at the end. */
  lemma {:induction false} TouchAllIsPromoteAll(s: seq<PageKey>, ks: seq<PageKey>, max: nat)
    requires Distinct(s) && |s| <= max
    ensures TouchAll(s, ks, max) == Take(PromoteAll(s, ks), max)
  {
    if ks != [] {
      var h, k := ks[..|ks| - 1], ks[|ks| - 1];
      TouchAllIsPromoteAll(s, h, max);
      PromoteAllDistinct(s, h);
      TakeThenTouch(PromoteAll(s, h), k, max);
    }
  }

  // Histories.

  /** What happens to the list: a page is accessed, a file is invalidated, or the cache is emptied. */
  datatype Event = Use(key: PageKey) | Forget(id: nat) | Clear

  /** The list without a file's pages. */
  function Others(s: seq<PageKey>, id: nat): (r: seq<PageKey>)
    ensures forall k :: k in r <==> k in s && k.id != id
    ensures |r| <= |s|
  {
    if s == [] then [] else if s[0].id == id then Others(s[1..], id) else [s[0]] + Others(s[1..], id)
  }

  /**
   * The accessed pages, latest use first. Pages are only dropped when they are forgotten; at that
   * time those that have been evicted before are dropped too, so that they do not come back.
   */
  function RecentOf(h: seq<Event>, max: nat): seq<PageKey> {
    if h == [] then []
    else
      var r := RecentOf(h[..|h| - 1], max);
      match h[|h| - 1]
      case Use(k) => Promote(r, k)
      case Forget(id) => Others(Take(r, max), id)
      case Clear => []
  }

  lemma {:induction false} RecentNext(h: seq<Event>, e: Event, max: nat)
    ensures RecentOf(h + [e], max) ==
              match e {
                case Use(k) => Promote(RecentOf(h, max), k)
                case Forget(id) => Others(Take(RecentOf(h, max), max), id)
                case Clear => []
              }
  {
    assert (h + [e])[..|h|] == h;
  }

  lemma {:induction false} OthersAt(s: seq<PageKey>, id: nat, j: nat) returns (b: nat)
    requires j < |Others(s, id)|
    ensures b < |s| && s[b] == Others(s, id)[j]
  {
    assert Others(s, id)[j] in Others(s, id);
    b :| b < |s| && s[b] == Others(s, id)[j];
  }

  /** Leaving out a file's pages keeps the order of the others. */
  lemma {:induction false} OthersOrder(s: seq<PageKey>, id: nat, i: nat, j: nat) returns (a: nat, b: nat)
    requires i < j < |Others(s, id)|
    ensures a < b < |s| && s[a] == Others(s, id)[i] && s[b] == Others(s, id)[j]
  {
    if s[0].id == id {
      a, b := OthersOrder(s[1..], id, i, j);
      a, b := a + 1, b + 1;
    } else if i == 0 {
      b := OthersAt(s[1..], id, j - 1);
      a, b := 0, b + 1;
    } else {
      a, b := OthersOrder(s[1..], id, i - 1, j - 1);
      a, b := a + 1, b + 1;
    }
  }

  lemma {:induction false} OthersDistinct(s: seq<PageKey>, id: nat)
    requires Distinct(s)
    ensures Distinct(Others(s, id))
  {
    forall i: nat, j: nat | i < j < |Others(s, id)| ensures Apart(Others(s, id), i, j) {
      var a, b := OthersOrder(s, id, i, j);
      OnlyAt(s, a, b);
    }
  }

  lemma {:induction false} RecentDistinct(h: seq<Event>, max: nat)
    ensures Distinct(RecentOf(h, max))
  {
    if h != [] {
      var g := h[..|h| - 1];
      var r := RecentOf(g, max);
      RecentDistinct(g, max);
      match h[|h| - 1]
      case Use(k) => PromoteDistinct(r, k);
      case Forget(id) =>
        if |r| > max { DistinctPrefix(r, max); }
        OthersDistinct(Take(r, max), id);
      case Clear =>
    }
  }

  /** One past the position of the last access to k. */
  function LastUse(h: seq<Event>, k: PageKey): (n: nat)
    ensures n <= |h| && (n > 0 <==> Use(k) in h)
    ensures n > 0 ==> h[n - 1] == Use(k) && Use(k) !in h[n..]
  {
    if h == [] then 0
    else if h[|h| - 1] == Use(k) then |h|
    else
      var g := h[..|h| - 1];
      assert h == g + [h[|h| - 1]];
      var n := LastUse(g, k);
      assert h[n..] == g[n..] + [h[|h| - 1]];
      n
  }

  /** The page has been accessed, and has not been forgotten since. */
  predicate Alive(h: seq<Event>, k: PageKey) {
    h != [] &&
    var g := h[..|h| - 1];
    match h[|h| - 1]
    case Use(x) => x == k || Alive(g, k)
    case Forget(id) => k.id != id && Alive(g, k)
    case Clear => false
  }

  lemma {:induction false} RecentAlive(h: seq<Event>, max: nat, k: PageKey)
    requires k in RecentOf(h, max)
    ensures Alive(h, k) && Use(k) in h
  {
    var g := h[..|h| - 1];
    if h[|h| - 1] != Use(k) {
      RecentAlive(g, max, k);
    }
  }

  lemma {:induction false} LastUseNext(g: seq<Event>, e: Event, k: PageKey)
    ensures LastUse(g + [e], k) == if e == Use(k) then |g| + 1 else LastUse(g, k)
  {
    assert (g + [e])[..|g|] == g;
  }

  ghost predicate Later(h: seq<Event>, s: seq<PageKey>, i: nat, j: nat)
    requires i < |s| && j < |s|
  {
    LastUse(h, s[i]) > LastUse(h, s[j])
  }

  /** The keys come in strictly descending order of their last use. */
  ghost predicate Descending(h: seq<Event>,
                             s: seq<PageKey>) { forall i: nat, j: nat | i < j < |s| :: Later(h, s, i, j) }

  /** What stays behind a promoted key stays in order, and was last used before it. */
  lemma {:induction false} WithoutDescends(g: seq<Event>, s: seq<PageKey>, k: PageKey)
    requires Descending(g, s)
    ensures Descending(g, Without(s, k))
  {
    var r := Without(s, k);
    forall i: nat, j: nat | i < j < |r| ensures Later(g, r, i, j) {
      var a, b := OrderKept(s, k, i, j);
      assert Later(g, s, a, b);
    }
  }

  lemma {:induction false} PromoteDescends(g: seq<Event>, s: seq<PageKey>, k: PageKey)
    requires Descending(g, s)
    ensures Descending(g + [Use(k)], Promote(s, k))
  {
    WithoutDescends(g, s, k);
    HeadDescends(g, Without(s, k), k);
  }

  lemma {:induction false} HeadDescends(g: seq<Event>, w: seq<PageKey>, k: PageKey)
    requires Descending(g, w) && k !in w
    ensures Descending(g + [Use(k)], [k] + w)
  {
    var r := [k] + w;
    forall i: nat, j: nat | i < j < |r| ensures Later(g + [Use(k)], r, i, j) {
      LastUseNext(g, Use(k), r[i]);
      LastUseNext(g, Use(k), r[j]);
      if i > 0 { assert Later(g, w, i - 1, j - 1); }
    }
  }

  lemma {:induction false} OthersDescends(g: seq<Event>, s: seq<PageKey>, id: nat)
    requires Descending(g, s)
    ensures Descending(g + [Forget(id)], Others(s, id))
  {
    var r := Others(s, id);
    forall i: nat, j: nat | i < j < |r| ensures Later(g + [Forget(id)], r, i, j) {
      LastUseNext(g, Forget(id), r[i]);
      LastUseNext(g, Forget(id), r[j]);
      var a, b := OthersOrder(s, id, i, j);
      assert Later(g, s, a, b);
    }
  }

  lemma {:induction false} TakeDescends(h: seq<Event>, s: seq<PageKey>, max: nat)
    requires Descending(h, s)
    ensures Descending(h, Take(s, max))
  {
    forall i: nat, j: nat | i < j < |Take(s, max)| ensures Later(h, Take(s, max), i, j) {
      assert Later(h, s, i, j);
    }
  }

  /** Over every history the keys come in strictly descending order of their last use. */
  lemma {:induction false} RecentDescends(h: seq<Event>, max: nat)
    ensures Descending(h, RecentOf(h, max))
  {
    if h != [] {
      var g, e := h[..|h| - 1], h[|h| - 1];
      assert h == g + [e];
      RecentDescends(g, max);
      RecentDistinct(g, max);
      match e
      case Use(k) => PromoteDescends(g, RecentOf(g, max), k);
      case Forget(id) =>
        TakeDescends(g, RecentOf(g, max), max);
        OthersDescends(g, Take(RecentOf(g, max), max), id);
      case Clear =>
    }
  }

  /** Over every history, what is not among the first `max` keys was last used before all of them. */
  lemma {:induction false} EvictedOldest(h: seq<Event>, max: nat, kept: PageKey, gone: PageKey)
    requires kept in Take(RecentOf(h, max), max) && Alive(h, gone) && gone !in Take(RecentOf(h, max), max)
    ensures LastUse(h, gone) < LastUse(h, kept)
  {
    var g, r := h[..|h| - 1], RecentOf(h, max);
    if gone in r {
      var i :| 0 <= i < |Take(r, max)| && Take(r, max)[i] == kept;
      var j :| 0 <= j < |r| && r[j] == gone;
      assert Take(r, max) == r[..|Take(r, max)|];
      RecentDescends(h, max);
      assert Later(h, r, i, j);
    } else if h[|h| - 1] != Use(kept) {
      match h[|h| - 1]
      case Use(k) =>
        RecentDistinct(g, max);
        TakeThenTouch(RecentOf(g, max), k, max);
        EvictedOldest(g, max, kept, gone);
      case Forget(_) => EvictedOldest(g, max, kept, gone);
    }
  }

  /** Always true; mentioning it lets the verifier look inside `Listed`. */
  ghost predicate Ask(n: nat) { true }

  /**
   * The list a history leaves: its `max` most recently used keys (`ListedIs`). It says that for every
   * n alike, so that the definition of `RecentOf` stays out of the proofs about operations, which
   * only pass this on.
   */
  ghost predicate Listed(list: seq<PageKey>, h: seq<Event>, max: nat) {
    forall n: nat {:trigger Ask(n)} | Ask(n) :: list == Take(RecentOf(h, max), max)
  }

  lemma {:induction false} ListedIs(list: seq<PageKey>, h: seq<Event>, max: nat)
    ensures Listed(list, h, max) <==> list == Take(RecentOf(h, max), max)
    ensures Listed(list, h, max) ==> Distinct(list)
  {
    assert Ask(0);
    RecentDistinct(h, max);
    if |RecentOf(h, max)| > max { DistinctPrefix(RecentOf(h, max), max); }
  }

  /** The list after a page of it, or one there was room for, came to the front. */
  lemma {:induction false} ListedUse(lru: seq<PageKey>, list: seq<PageKey>, h: seq<Event>, max: nat, k: PageKey)
    requires Listed(list, h, max) && max > 0 && Trimmed(lru, list, k, max)
    ensures Listed(Promote(lru, k), h + [Use(k)], max) && |Promote(lru, k)| <= max
  {
    ListedIs(list, h, max);
    RecentDistinct(h, max);
    RecentNext(h, Use(k), max);
    AccessOrder(RecentOf(h, max), lru, k, max);
    ListedIs(Promote(lru, k), h + [Use(k)], max);
  }

  lemma {:induction false} ListedForget(list: seq<PageKey>, h: seq<Event>, max: nat, id: nat)
    requires Listed(list, h, max)
    ensures Listed(Others(list, id), h + [Forget(id)], max)
    ensures Distinct(Others(list, id))
  {
    ListedIs(list, h, max);
    RecentNext(h, Forget(id), max);
    ListedIs(Others(list, id), h + [Forget(id)], max);
  }

  lemma {:induction false} ListedClear(h: seq<Event>, max: nat)
    ensures Listed([], h + [Clear], max)
  {
    RecentNext(h, Clear, max);
  }

  lemma {:induction false} ListedVisit(list: seq<PageKey>, h: seq<Event>, max: nat, id: nat, first: nat, n: nat)
    requires Listed(list, Uses(h, id, first, n), max)
    ensures list == Take(Visit(RecentOf(h, max), id, first, n), max)
  {
    UsesVisit(h, max, id, first, n);
    ListedIs(list, Uses(h, id, first, n), max);
  }

  /** The list before the accessed page goes to its front: on a miss there is room for it. */
  ghost predicate Trimmed(lru: seq<PageKey>, lru0: seq<PageKey>, key: PageKey, max: nat)
    requires max > 0
  {
    lru == if key in lru0 then lru0 else if |lru0| <= max - 1 then lru0 else lru0[..max - 1]
  }

  /** The list after one access, from what making room and moving to the front did to it. */
  lemma {:induction false} AccessOrder(recent: seq<PageKey>, lru: seq<PageKey>, key: PageKey, max: nat)
    requires Distinct(recent) && max > 0
    requires Trimmed(lru, Take(recent, max), key, max)
    ensures Promote(lru, key) == Take(Promote(recent, key), max)
  {
    TakeThenTouch(recent, key, max);
    if key in Take(recent, max) {
      var i :| 0 <= i < |lru| && lru[i] == key;
      DistinctPrefix(recent, |lru|);
      WithoutAt(lru, i);
    } else {
      WithoutAbsent(Take(recent, max), key);
      WithoutAbsent(lru, key);
    }
  }

  /** The history after accesses to n consecutive pages of a file. */
  function Uses(h: seq<Event>, id: nat, first: nat, n: nat): seq<Event> {
    if n == 0 then h else Uses(h, id, first, n - 1) + [Use(PageKey(id, first + n - 1))]
  }

  lemma {:induction false} UsesNext(h: seq<Event>, id: nat, first: nat, n: nat)
    ensures Uses(h, id, first, n + 1) == Uses(h, id, first, n) + [Use(PageKey(id, first + n))]
  {
  }

  lemma {:induction false} UsesVisit(h: seq<Event>, max: nat, id: nat, first: nat, n: nat)
    ensures RecentOf(Uses(h, id, first, n), max) == Visit(RecentOf(h, max), id, first, n)
  {
    if n > 0 {
      UsesVisit(h, max, id, first, n - 1);
      RecentNext(Uses(h, id, first, n - 1), Use(PageKey(id, first + n - 1)), max);
    }
  }

  /** The history after accesses to some of n consecutive pages, in order. */
  predicate SomeUses(h: seq<Event>, h': seq<Event>, id: nat, first: nat, n: nat) {
    if n == 0 then h' == h
    else
      || SomeUses(h, h', id, first, n - 1)
      || (h' != [] && h'[|h'| - 1] == Use(PageKey(id, first + n - 1)) && SomeUses(h, h'[..|h'| - 1], id, first, n - 1))
  }

  lemma {:induction false} SomeUsesNext(h: seq<Event>, h': seq<Event>, id: nat, first: nat, n: nat)
    requires SomeUses(h, h', id, first, n)
    ensures SomeUses(h, h', id, first, n + 1)
    ensures SomeUses(h, h' + [Use(PageKey(id, first + n))], id, first, n + 1)
  {
    assert (h' + [Use(PageKey(id, first + n))])[..|h'|] == h';
  }

  /** How many keys of s in front of x are not among ks. */
  function Ahead(s: seq<PageKey>, x: PageKey, ks: seq<PageKey>): nat {
    if s == [] || s[0] == x then 0 else (if s[0] in ks then 0 else 1) + Ahead(s[1..], x, ks)
  }

  function Remaining(s: seq<PageKey>, ks: seq<PageKey>): (r: seq<PageKey>)
    ensures forall x :: x in r <==> x in s && x !in ks
  {
    if s == [] then [] else (if s[0] in ks then [] else [s[0]]) + Remaining(s[1..], ks)
  }

  lemma {:induction false} RemainingWithout(s: seq<PageKey>, ks: seq<PageKey>, k: PageKey)
    ensures Without(Remaining(s, ks), k) == Remaining(s, ks + [k])
  {
    if s != [] {
      var head := if s[0] in ks then [] else [s[0]];
      WithoutAppend(head, Remaining(s[1..], ks), k);
      RemainingWithout(s[1..], ks, k);
    }
  }

  lemma {:induction false} RemainingNone(s: seq<PageKey>)
    ensures Remaining(s, []) == s
  {
    if s != [] { RemainingNone(s[1..]); }
  }

  lemma {:induction false} DistinctLast(s: seq<PageKey>)
    requires Distinct(s) && s != []
    ensures Distinct(s[..|s| - 1]) && s[|s| - 1] !in s[..|s| - 1]
  {
    DistinctPrefix(s, |s| - 1);
    forall j | 0 <= j < |s| - 1 ensures s[j] != s[|s| - 1] { OnlyAt(s, j, |s| - 1); }
  }

  lemma {:induction false} ReversedNext(h: seq<PageKey>, k: PageKey)
    requires k !in h
    ensures Reversed(h + [k]) == [k] + Reversed(h) && k !in Reversed(h)
  {
  }

  lemma {:induction false} PromoteNext(s: seq<PageKey>, h: seq<PageKey>, r: seq<PageKey>, k: PageKey)
    requires k !in r
    ensures Promote(r + Remaining(s, h), k) == [k] + r + Remaining(s, h + [k])
  {
    WithoutAppend(r, Remaining(s, h), k);
    WithoutAbsent(r, k);
    RemainingWithout(s, h, k);
  }

  lemma {:induction false} PromoteAllShape(s: seq<PageKey>, ks: seq<PageKey>)
    requires Distinct(ks)
    ensures PromoteAll(s, ks) == Reversed(ks) + Remaining(s, ks)
  {
    if ks == [] {
      RemainingNone(s);
    } else {
      var h, k := ks[..|ks| - 1], ks[|ks| - 1];
      assert ks == h + [k];
      DistinctLast(ks);
      PromoteAllShape(s, h);
      ReversedNext(h, k);
      PromoteNext(s, h, Reversed(h), k);
    }
  }

  lemma {:induction false} AheadIsPosition(s: seq<PageKey>, ks: seq<PageKey>, x: PageKey)
    requires x in s && x !in ks
    ensures Ahead(s, x, ks) < |Remaining(s, ks)| && Remaining(s, ks)[Ahead(s, x, ks)] == x
  {
    if s[0] != x {
      AheadIsPosition(s[1..], ks, x);
    }
  }

  /**
   * Which page survives a run of accesses to other pages: x stays in the list exactly when it was
   * there and the accessed keys, together with the other keys in front of it, leave room for it.
   */
  lemma {:induction false} Survives(s: seq<PageKey>, ks: seq<PageKey>, x: PageKey, max: nat)
    requires Distinct(s) && Distinct(ks) && |s| <= max && x !in ks
    ensures x in TouchAll(s, ks, max) <==> x in s && |ks| + Ahead(s, x, ks) < max
  {
    TouchAllIsPromoteAll(s, ks, max);
    PromoteAllShape(s, ks);
    PromoteAllDistinct(s, ks);
    var t := PromoteAll(s, ks);
    if x in s {
      AheadIsPosition(s, ks, x);
      InTake(t, |ks| + Ahead(s, x, ks), max);
    }
  }

  /** Where something is in a list decides whether a cut leaves it there. */
  lemma {:induction false} InTake(t: seq<PageKey>, p: nat, max: nat)
    requires Distinct(t) && p < |t|
    ensures t[p] in Take(t, max) <==> p < max
  {
    if p < max {
      assert Take(t, max)[p] == t[p];
    } else if t[p] in Take(t, max) {
      var i :| 0 <= i < |Take(t, max)| && Take(t, max)[i] == t[p];
      OnlyAt(t, i, p);
    }
  }

  /** s after accesses to n consecutive pages of a file. */
  function Visit(s: seq<PageKey>, id: nat, first: nat, n: nat): seq<PageKey> {
    if n == 0 then s else Promote(Visit(s, id, first, n - 1), PageKey(id, first + n - 1))
  }

  function KeyRange(id: nat, first: nat, end: nat): (ks: seq<PageKey>)
    requires first <= end
    ensures |ks| == end - first && forall i | 0 <= i < |ks| :: ks[i] == PageKey(id, first + i)
  {
    seq(end - first, i requires 0 <= i => PageKey(id, first + i))
  }

  lemma {:induction false} VisitIsPromoteAll(s: seq<PageKey>, id: nat, first: nat, n: nat)
    ensures Visit(s, id, first, n) == PromoteAll(s, KeyRange(id, first, first + n))
  {
    if n > 0 {
      VisitIsPromoteAll(s, id, first, n - 1);
      assert KeyRange(id, first, first + n)[..n - 1] == KeyRange(id, first, first + n - 1);
    }
  }

  /** The list follows the recency order through any accesses, not only from the start. */
  lemma {:induction false} TouchAllTake(recent: seq<PageKey>, ks: seq<PageKey>, max: nat)
    requires Distinct(recent)
    ensures TouchAll(Take(recent, max), ks, max) == Take(PromoteAll(recent, ks), max)
  {
    if ks != [] {
      var h, k := ks[..|ks| - 1], ks[|ks| - 1];
      TouchAllTake(recent, h, max);
      PromoteAllDistinct(recent, h);
      TakeThenTouch(PromoteAll(recent, h), k, max);
    }
  }

  /**
   * Whether a page is still cached after n other pages of its file were accessed can be told from
   * the list before: it was cached, and those n pages and the others in front of it leave it room.
   */
  lemma {:induction false} StillCached(recent: seq<PageKey>, max: nat, id: nat, first: nat, n: nat)
    requires Distinct(recent)
    ensures var lru, last, ks := Take(recent, max), PageKey(id, first + n), KeyRange(id, first, first + n);
            last in Take(Visit(recent, id, first, n), max) <==> last in lru && n + Ahead(lru, last, ks) < max
  {
    var ks := KeyRange(id, first, first + n);
    VisitIsPromoteAll(recent, id, first, n);
    TouchAllTake(recent, ks, max);
    if |recent| > max { DistinctPrefix(recent, max); }
    forall i: nat, j: nat | i < j < |ks| ensures Apart(ks, i, j) { }
    Survives(Take(recent, max), ks, PageKey(id, first + n), max);
  }
}
