/** Sorted sequences of reals: what Python's sorted() over a list or a set returns, and how many
    elements can lie below an order statistic. */
module Ordering {

  predicate Ascending(xs: seq<real>) { forall i, j | 0 <= i < j < |xs| :: xs[i] <= xs[j] }

  predicate StrictlyAscending(xs: seq<real>) { forall i, j | 0 <= i < j < |xs| :: xs[i] < xs[j] }

  function Insert(x: real, xs: seq<real>): (r: seq<real>)
    requires Ascending(xs)
    ensures Ascending(r) && |r| == |xs| + 1
    ensures r[0] == if xs == [] || x <= xs[0] then x else xs[0]
  {
    if xs == [] || x <= xs[0] then [x] + xs else [xs[0]] + Insert(x, xs[1..])
  }

  lemma {:induction false} InsertMembers(x: real, xs: seq<real>, y: real)
    requires Ascending(xs)
    ensures y in Insert(x, xs) <==> y == x || y in xs
    decreases |xs|
  {
    if xs != [] && x > xs[0] {
      InsertMembers(x, xs[1..], y);
      assert xs == [xs[0]] + xs[1..];
    }
  }

  /** sorted() over a list. */
  function Sort(xs: seq<real>): (r: seq<real>)
    ensures Ascending(r) && |r| == |xs|
  {
    if xs == [] then [] else Insert(xs[0], Sort(xs[1..]))
  }

  lemma {:induction false} SortMembers(xs: seq<real>, y: real)
    ensures y in Sort(xs) <==> y in xs
    decreases |xs|
  {
    if xs != [] {
      SortMembers(xs[1..], y);
      InsertMembers(xs[0], Sort(xs[1..]), y);
      assert xs == [xs[0]] + xs[1..];
    }
  }

  /** Drop repeats from an ascending sequence. */
  function Dedup(xs: seq<real>): (r: seq<real>)
    requires Ascending(xs)
    ensures StrictlyAscending(r)
    ensures xs != [] ==> r != [] && r[0] == xs[0]
  {
    if xs == [] then []
    else
      var rest := Dedup(xs[1..]);
      if rest != [] && rest[0] == xs[0] then rest else [xs[0]] + rest
  }

  lemma {:induction false} DedupMembers(xs: seq<real>, y: real)
    requires Ascending(xs)
    ensures y in Dedup(xs) <==> y in xs
    decreases |xs|
  {
    if xs != [] {
      DedupMembers(xs[1..], y);
      assert xs == [xs[0]] + xs[1..];
    }
  }

  /** sorted() over the set of the elements. */
  function SortedSet(xs: seq<real>): (r: seq<real>)
    ensures StrictlyAscending(r)
  {
    Dedup(Sort(xs))
  }

  lemma SortedSetMembers(xs: seq<real>)
    ensures forall x :: x in SortedSet(xs) <==> x in xs
  {
    forall x ensures x in SortedSet(xs) <==> x in xs {
      SortMembers(xs, x);
      DedupMembers(Sort(xs), x);
    }
  }

  function CountBelow(xs: seq<real>, t: real): nat {
    if xs == [] then 0 else (if xs[0] < t then 1 else 0) + CountBelow(xs[1..], t)
  }

  lemma {:induction false} CountBelowAppend(xs: seq<real>, ys: seq<real>, t: real)
    ensures CountBelow(xs + ys, t) == CountBelow(xs, t) + CountBelow(ys, t)
    decreases |xs|
  {
    if xs == [] {
      assert xs + ys == ys;
    } else {
      CountBelowAppend(xs[1..], ys, t);
      assert (xs + ys)[1..] == xs[1..] + ys;
    }
  }

  lemma {:induction false} CountBelowNone(xs: seq<real>, t: real)
    requires forall x | x in xs :: t <= x
    ensures CountBelow(xs, t) == 0
    decreases |xs|
  {
    if xs != [] {
      assert xs[0] in xs;
      assert forall x | x in xs[1..] :: x in xs;
      CountBelowNone(xs[1..], t);
    }
  }

  lemma {:induction false} CountBelowAtMost(xs: seq<real>, t: real)
    ensures CountBelow(xs, t) <= |xs|
    decreases |xs|
  {
    if xs != [] {
      CountBelowAtMost(xs[1..], t);
    }
  }

  /** Counting depends only on the multiset. */
  lemma {:induction false} CountBelowInsert(x: real, xs: seq<real>, t: real)
    requires Ascending(xs)
    ensures CountBelow(Insert(x, xs), t) == (if x < t then 1 else 0) + CountBelow(xs, t)
    decreases |xs|
  {
    if xs == [] || x <= xs[0] {
      assert ([x] + xs)[1..] == xs;
    } else {
      CountBelowInsert(x, xs[1..], t);
      assert ([xs[0]] + Insert(x, xs[1..]))[1..] == Insert(x, xs[1..]);
    }
  }

  lemma {:induction false} CountBelowSort(xs: seq<real>, t: real)
    ensures CountBelow(Sort(xs), t) == CountBelow(xs, t)
    decreases |xs|
  {
    if xs != [] {
      CountBelowSort(xs[1..], t);
      CountBelowInsert(xs[0], Sort(xs[1..]), t);
    }
  }

  lemma SuffixAtLeast(s: seq<real>, k: nat)
    requires Ascending(s) && k < |s|
    ensures forall x | x in s[k..] :: s[k] <= x
  {
    forall i | 0 <= i < |s[k..]| ensures s[k] <= s[k..][i] {
      assert s[k..][i] == s[k + i];
    }
  }

  /** At most k elements lie strictly below the element of rank k. */
  lemma RankBound(xs: seq<real>, k: nat)
    requires k < |xs|
    ensures Sort(xs)[k] in xs
    ensures CountBelow(xs, Sort(xs)[k]) <= k
  {
    hide Ascending, CountBelow, Sort;
    var s := Sort(xs);
    var t := s[k];
    SortMembers(xs, t);
    CountBelowSort(xs, t);
    assert s == s[..k] + s[k..];
    CountBelowAppend(s[..k], s[k..], t);
    SuffixAtLeast(s, k);
    CountBelowNone(s[k..], t);
    CountBelowAtMost(s[..k], t);
  }

  function CountAtMost(xs: seq<real>, t: real): nat {
    if xs == [] then 0 else (if xs[0] <= t then 1 else 0) + CountAtMost(xs[1..], t)
  }

  lemma {:induction false} CountAtMostAppend(xs: seq<real>, ys: seq<real>, t: real)
    ensures CountAtMost(xs + ys, t) == CountAtMost(xs, t) + CountAtMost(ys, t)
    decreases |xs|
  {
    if xs == [] {
      assert xs + ys == ys;
    } else {
      CountAtMostAppend(xs[1..], ys, t);
      assert (xs + ys)[1..] == xs[1..] + ys;
    }
  }

  lemma {:induction false} CountAtMostAll(xs: seq<real>, t: real)
    requires forall x | x in xs :: x <= t
    ensures CountAtMost(xs, t) == |xs|
    decreases |xs|
  {
    if xs != [] {
      assert xs[0] in xs;
      assert forall x | x in xs[1..] :: x in xs;
      CountAtMostAll(xs[1..], t);
    }
  }

  lemma {:induction false} CountAtMostInsert(x: real, xs: seq<real>, t: real)
    requires Ascending(xs)
    ensures CountAtMost(Insert(x, xs), t) == (if x <= t then 1 else 0) + CountAtMost(xs, t)
    decreases |xs|
  {
    if xs == [] || x <= xs[0] {
      assert ([x] + xs)[1..] == xs;
    } else {
      CountAtMostInsert(x, xs[1..], t);
      assert ([xs[0]] + Insert(x, xs[1..]))[1..] == Insert(x, xs[1..]);
    }
  }

  lemma {:induction false} CountAtMostSort(xs: seq<real>, t: real)
    ensures CountAtMost(Sort(xs), t) == CountAtMost(xs, t)
    decreases |xs|
  {
    if xs != [] {
      CountAtMostSort(xs[1..], t);
      CountAtMostInsert(xs[0], Sort(xs[1..]), t);
    }
  }

  lemma PrefixAtMost(s: seq<real>, n: nat)
    requires Ascending(s) && 0 < n <= |s|
    ensures forall x | x in s[..n] :: x <= s[n - 1]
  {
    forall i | 0 <= i < |s[..n]| ensures s[..n][i] <= s[n - 1] {
      assert s[..n][i] == s[i];
    }
  }

  /** More than k elements lie at or below the element of rank k. */
  lemma RankReaches(xs: seq<real>, k: nat)
    requires k < |xs|
    ensures CountAtMost(xs, Sort(xs)[k]) > k
  {
    hide Ascending, CountAtMost, Sort;
    var s := Sort(xs);
    var t := s[k];
    CountAtMostSort(xs, t);
    assert s == s[..k + 1] + s[k + 1..];
    CountAtMostAppend(s[..k + 1], s[k + 1..], t);
    PrefixAtMost(s, k + 1);
    CountAtMostAll(s[..k + 1], t);
  }

  lemma {:induction false} CountsMonotone(xs: seq<real>, t: real, u: real)
    requires t < u
    ensures CountAtMost(xs, t) <= CountBelow(xs, u)
    decreases |xs|
  {
    if xs != [] {
      CountsMonotone(xs[1..], t, u);
    }
  }

  /******* Quantiles *******/

  /** What both quantile rules pick: an observation with at most floor(n * fraction) of the n below it and
      more than that many at or below it; the smallest for a negative fraction, the largest from one up. */
  ghost predicate IsQuantile(xs: seq<real>, fraction: real, t: real) {
    && t in xs
    && (fraction < 0.0 ==> forall x | x in xs :: t <= x)
    && (fraction >= 1.0 ==> forall x | x in xs :: x <= t)
    && (0.0 <= fraction < 1.0 ==> CountBelow(xs, t) <= (|xs| as real * fraction).Floor < CountAtMost(xs, t))
  }

  /** That leaves one value. */
  lemma QuantileUnique(xs: seq<real>, fraction: real, t: real, u: real)
    requires IsQuantile(xs, fraction, t) && IsQuantile(xs, fraction, u)
    ensures t == u
  {
    if t < u {
      CountsMonotone(xs, t, u);
    } else if u < t {
      CountsMonotone(xs, u, t);
    }
  }

  /** No two observations are equal. */
  predicate Distinct(xs: seq<real>) { forall i, j | 0 <= i < j < |xs| :: xs[i] != xs[j] }

  lemma {:induction false} DistinctCounts(xs: seq<real>, t: real)
    requires Distinct(xs)
    ensures CountAtMost(xs, t) == CountBelow(xs, t) + if t in xs then 1 else 0
    decreases |xs|
  {
    if xs != [] {
      DistinctCounts(xs[1..], t);
      assert xs == [xs[0]] + xs[1..];
      forall i | 0 <= i < |xs[1..]| ensures xs[1..][i] != xs[0] {
        assert xs[1..][i] == xs[i + 1];
      }
    }
  }

  /** Of pairwise distinct observations exactly floor(n * fraction) lie below the quantile. */
  lemma DistinctBelow(xs: seq<real>, fraction: real, t: real)
    requires Distinct(xs) && 0.0 <= fraction < 1.0 && IsQuantile(xs, fraction, t)
    ensures CountBelow(xs, t) == (|xs| as real * fraction).Floor
  {
    DistinctCounts(xs, t);
  }

  /** int(): truncation toward zero. */
  function Truncate(x: real): int { if x >= 0.0 then x.Floor else -((-x).Floor) }

  /** The rank both quantile rules pick: int(n * fraction), kept inside the list. */
  function Rank(n: nat, fraction: real): (k: nat)
    requires n > 0
    ensures k < n
  {
    var raw := Truncate(n as real * fraction);
    if raw < 0 then 0 else if raw > n - 1 then n - 1 else raw
  }

  lemma RankIs(n: nat, fraction: real)
    requires n > 0
    ensures fraction < 0.0 ==> Rank(n, fraction) == 0
    ensures fraction >= 1.0 ==> Rank(n, fraction) == n - 1
    ensures 0.0 <= fraction < 1.0 ==> Rank(n, fraction) == (n as real * fraction).Floor
  {
    if fraction < 0.0 {
      TimesLess(n as real, fraction, 0.0);
    } else if fraction >= 1.0 {
      TimesAtMost(n as real, 1.0, fraction);
    } else {
      TimesAtMost(n as real, 0.0, fraction);
      TimesLess(n as real, fraction, 1.0);
    }
    ClampedRank(n, fraction, n as real * fraction);
  }

  lemma ClampedRank(n: nat, fraction: real, x: real)
    requires n > 0 && x == n as real * fraction
    ensures x < 0.0 ==> Rank(n, fraction) == 0
    ensures x >= n as real ==> Rank(n, fraction) == n - 1
    ensures 0.0 <= x < n as real ==> Rank(n, fraction) == x.Floor
  {
  }

  lemma TimesLess(a: real, x: real, y: real)
    requires a > 0.0 && x < y
    ensures a * x < a * y
  {
  }

  lemma TimesAtMost(a: real, x: real, y: real)
    requires a > 0.0 && x <= y
    ensures a * x <= a * y
  {
    if x < y {
      TimesLess(a, x, y);
    }
  }

  lemma SortExtremes(xs: seq<real>)
    requires xs != []
    ensures forall x | x in xs :: Sort(xs)[0] <= x <= Sort(xs)[|xs| - 1]
  {
    hide Ascending, Sort;
    var s := Sort(xs);
    SuffixAtLeast(s, 0);
    PrefixAtMost(s, |xs|);
    assert s[0..] == s && s[..|xs|] == s;
    forall x | x in xs ensures x in s {
      SortMembers(xs, x);
    }
  }

  /** The element of that rank is the quantile. */
  lemma RankIsQuantile(xs: seq<real>, fraction: real)
    requires xs != []
    ensures IsQuantile(xs, fraction, Sort(xs)[Rank(|xs|, fraction)])
  {
    hide Ascending, CountAtMost, CountBelow, Sort, Rank;
    var k := Rank(|xs|, fraction);
    RankIs(|xs|, fraction);
    AtRank(xs, fraction, k);
  }

  lemma AtRank(xs: seq<real>, fraction: real, k: nat)
    requires k < |xs|
    requires fraction < 0.0 ==> k == 0
    requires fraction >= 1.0 ==> k == |xs| - 1
    requires 0.0 <= fraction < 1.0 ==> k == (|xs| as real * fraction).Floor
    ensures IsQuantile(xs, fraction, Sort(xs)[k])
  {
    hide Ascending, CountAtMost, CountBelow, Sort;
    var t := Sort(xs)[k];
    RankBound(xs, k);
    RankReaches(xs, k);
    assert t in xs && CountBelow(xs, t) <= k < CountAtMost(xs, t);
    if fraction < 0.0 || fraction >= 1.0 {
      SortExtremes(xs);
    }
  }
}
