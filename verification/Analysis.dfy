/** The percentiles of a report (src/traffic/analysis.py:26-52), over exact reals, rounding to tenths included. */
module Analysis {
  import opened Wrappers

  predicate IsSorted(s: seq<real>)
  {
    forall i, j :: 0 <= i <= j < |s| ==> s[i] <= s[j]
  }

  lemma PrependSorted(x: real, s: seq<real>)
    requires IsSorted(s) && forall y :: y in s ==> x <= y
    ensures IsSorted([x] + s)
  {
    var r := [x] + s;
    forall i, j | 0 <= i <= j < |r| ensures r[i] <= r[j] {
      if i == 0 && j > 0 { assert r[j] in s; }
    }
  }

  function Insert(s: seq<real>, x: real): (r: seq<real>)
    requires IsSorted(s)
    ensures IsSorted(r) && multiset(r) == multiset(s) + multiset{x}
    ensures forall y :: y in r ==> y == x || y in s
  {
    if s == [] || x <= s[0] then
      PrependSorted(x, s);
      [x] + s
    else
      var tail := s[1..];
      assert s == [s[0]] + tail;
      var r := Insert(tail, x);
      PrependSorted(s[0], r);
      [s[0]] + r
  }

  /** sorted(xs) */
  function Sorted(xs: seq<real>): (r: seq<real>)
    ensures IsSorted(r) && multiset(r) == multiset(xs) && |r| == |xs|
  {
    if xs == [] then []
    else
      assert xs == [xs[0]] + xs[1..];
      var r := Insert(Sorted(xs[1..]), xs[0]);
      assert |r| == |multiset(r)|;
      r
  }

  lemma SameFirst(a: seq<real>, b: seq<real>)
    requires IsSorted(a) && IsSorted(b) && multiset(a) == multiset(b) && a != [] && b != []
    ensures a[0] == b[0]
  {
    assert a[0] in multiset(b) && b[0] in multiset(a);
    assert a[0] in b && b[0] in a;
  }

  lemma TailMultiset(a: seq<real>)
    requires a != []
    ensures multiset(a[1..]) == multiset(a) - multiset{a[0]}
  {
    assert a == [a[0]] + a[1..];
  }

  /** A sorted list is determined by what it contains. */
  lemma {:induction false} SortedUnique(a: seq<real>, b: seq<real>)
    requires IsSorted(a) && IsSorted(b) && multiset(a) == multiset(b) && |a| == |b|
    ensures a == b
    decreases |a|
  {
    if a != [] {
      SameFirst(a, b);
      TailMultiset(a);
      TailMultiset(b);
      SortedUnique(a[1..], b[1..]);
      assert a == [a[0]] + a[1..] && b == [b[0]] + b[1..];
    }
  }

  function Ceil(k: real): int
  {
    if k.Floor as real == k then k.Floor else k.Floor + 1
  }

  /** The value at fractional rank k of a sorted list. */
  function AtRank(s: seq<real>, k: real): real
    requires 0.0 <= k <= (|s| - 1) as real
  {
    var lo, hi := k.Floor, Ceil(k);
    if lo == hi then s[lo]
    else s[lo] * (hi as real - k) + s[hi] * (k - lo as real)
  }

  function Percentile(xs: seq<real>, p: real): (r: Option<real>)
    requires 0.0 <= p <= 100.0
    ensures r.None? <==> xs == []
  {
    if xs == [] then None
    else
      var ordered := Sorted(xs);
      if |ordered| == 1 then Some(ordered[0])
      else Some(AtRank(ordered, Rank(|ordered|, p)))
  }

  function Rank(n: nat, p: real): (k: real)
    requires n >= 1 && 0.0 <= p <= 100.0
    ensures 0.0 <= k <= (n - 1) as real
  {
    var top, f := (n - 1) as real, p / 100.0;
    ScaleBounds(top, f);
    Scale(top, f)
  }

  function Scale(n: real, f: real): real
  {
    n * f
  }

  lemma RankBounds(n: real, f: real)
    requires n >= 0.0 && 0.0 <= f <= 1.0
    ensures 0.0 <= n * f <= n
  {
  }

  lemma RankMonotone(n: real, f: real, g: real)
    requires n >= 0.0 && f <= g
    ensures n * f <= n * g
  {
  }

  /** Only what was measured matters, not the order it was measured in. */
  lemma PercentileOfPermutation(xs: seq<real>, ys: seq<real>, p: real)
    requires multiset(xs) == multiset(ys) && 0.0 <= p <= 100.0
    ensures Percentile(xs, p) == Percentile(ys, p)
  {
    assert |xs| == |multiset(xs)| == |multiset(ys)| == |ys|;
    SortedUnique(Sorted(xs), Sorted(ys));
  }

  /** Interpolation stays between the two neighbours. */
  lemma Between(a: real, b: real, f: real)
    requires a <= b && 0.0 <= f <= 1.0
    ensures a <= a * (1.0 - f) + b * f <= b
  {
    var d := b - a;
    RankBounds(d, f);
    var part := d * f;
    assert 0.0 <= part <= d;
    assert a * (1.0 - f) + b * f == a + part;
  }

  lemma RankBetween(s: seq<real>, k: real)
    requires IsSorted(s) && 0.0 <= k <= (|s| - 1) as real
    ensures s[k.Floor] <= AtRank(s, k) <= s[Ceil(k)]
  {
    if k.Floor != Ceil(k) {
      Between(s[k.Floor], s[Ceil(k)], k - k.Floor as real);
    }
  }

  lemma SameCell(a: real, b: real, f: real, g: real)
    requires a <= b && f <= g
    ensures a * (1.0 - f) + b * f <= a * (1.0 - g) + b * g
  {
    var d := b - a;
    assert a * (1.0 - f) + b * f == a + d * f;
    assert a * (1.0 - g) + b * g == a + d * g;
    RankMonotone(d, f, g);
  }

  /** A higher rank never has a smaller value. */
  lemma AtRankMonotone(s: seq<real>, k: real, l: real)
    requires IsSorted(s) && 0.0 <= k <= l <= (|s| - 1) as real
    ensures AtRank(s, k) <= AtRank(s, l)
  {
    RankBetween(s, k);
    RankBetween(s, l);
    if k.Floor == l.Floor {
      if k != k.Floor as real { SameCell(s[k.Floor], s[Ceil(k)], k - k.Floor as real, l - l.Floor as real); }
    } else {
      assert Ceil(k) <= l.Floor;
      assert s[Ceil(k)] <= s[l.Floor];
    }
  }

  lemma ScaleBounds(n: real, f: real)
    requires n >= 0.0 && 0.0 <= f <= 1.0
    ensures 0.0 <= Scale(n, f) <= n
  {
    RankBounds(n, f);
  }

  lemma ScaleMonotone(n: real, f: real, g: real)
    requires n >= 0.0 && f <= g
    ensures Scale(n, f) <= Scale(n, g)
  {
    RankMonotone(n, f, g);
  }

  lemma RankOrder(n: nat, p: real, q: real)
    requires n >= 1 && 0.0 <= p <= q <= 100.0
    ensures Rank(n, p) <= Rank(n, q)
  {
    hide Scale;
    ScaleMonotone((n - 1) as real, p / 100.0, q / 100.0);
  }

  lemma PercentileMonotone(xs: seq<real>, p: real, q: real)
    requires xs != [] && 0.0 <= p <= q <= 100.0
    ensures Percentile(xs, p).value <= Percentile(xs, q).value
  {
    RankOrder(|xs|, p, q);
    if |xs| > 1 {
      AtRankMonotone(Sorted(xs), Rank(|xs|, p), Rank(|xs|, q));
    }
  }

  // ----- which value a percentile is -----

  /** How many samples are at most v. */
  function CountLe(xs: seq<real>, v: real): nat
  {
    if xs == [] then 0 else (if xs[0] <= v then 1 else 0) + CountLe(xs[1..], v)
  }

  /** How many are at least v. */
  function CountGe(xs: seq<real>, v: real): nat
  {
    if xs == [] then 0 else (if xs[0] >= v then 1 else 0) + CountGe(xs[1..], v)
  }

  /** v is the sample with i others below it or equal, by counting: i + 1 are at most v, and n - i at least v. */
  predicate IsNth(xs: seq<real>, i: nat, v: real)
  {
    i < |xs| && v in xs && CountLe(xs, v) >= i + 1 && CountGe(xs, v) >= |xs| - i
  }

  lemma {:induction false} CountsApart(xs: seq<real>, v: real, w: real)
    requires v < w
    ensures CountLe(xs, v) + CountGe(xs, w) <= |xs|
  {
    if xs != [] { CountsApart(xs[1..], v, w); }
  }

  /** There is only one such value. */
  lemma NthUnique(xs: seq<real>, i: nat, v: real, w: real)
    requires IsNth(xs, i, v) && IsNth(xs, i, w)
    ensures v == w
  {
    if v < w { CountsApart(xs, v, w); }
    if w < v { CountsApart(xs, w, v); }
  }

  lemma {:induction false} InsertCounts(s: seq<real>, x: real, v: real)
    requires IsSorted(s)
    ensures CountLe(Insert(s, x), v) == CountLe(s, v) + if x <= v then 1 else 0
    ensures CountGe(Insert(s, x), v) == CountGe(s, v) + if x >= v then 1 else 0
    decreases |s|
  {
    if s == [] || x <= s[0] {
      assert ([x] + s)[1..] == s;
    } else {
      InsertCounts(s[1..], x, v);
      assert ([s[0]] + Insert(s[1..], x))[1..] == Insert(s[1..], x);
    }
  }

  lemma {:induction false} SortedCounts(xs: seq<real>, v: real)
    ensures CountLe(Sorted(xs), v) == CountLe(xs, v) && CountGe(Sorted(xs), v) == CountGe(xs, v)
  {
    if xs != [] {
      SortedCounts(xs[1..], v);
      InsertCounts(Sorted(xs[1..]), xs[0], v);
    }
  }

  lemma {:induction false} FirstCounted(s: seq<real>, k: nat, v: real)
    requires k <= |s| && forall j :: 0 <= j < k ==> s[j] <= v
    ensures CountLe(s, v) >= k
  {
    if k > 0 {
      assert s[0] <= v && forall j :: 0 <= j < k - 1 ==> s[1..][j] == s[j + 1];
      FirstCounted(s[1..], k - 1, v);
    }
  }

  lemma {:induction false} LastCounted(s: seq<real>, k: nat, v: real)
    requires k <= |s| && forall j :: k <= j < |s| ==> s[j] >= v
    ensures CountGe(s, v) >= |s| - k
    decreases |s|
  {
    if s != [] {
      var first := if k > 0 then k - 1 else 0;
      assert forall j :: first <= j < |s| - 1 ==> s[1..][j] == s[j + 1];
      assert k == 0 ==> s[0] >= v;
      LastCounted(s[1..], first, v);
    }
  }

  lemma SameMember(xs: seq<real>, x: real)
    ensures x in Sorted(xs) <==> x in xs
  {
    assert x in Sorted(xs) <==> x in multiset(Sorted(xs));
    assert x in xs <==> x in multiset(xs);
  }

  /** Place i of the sorted samples has it. */
  lemma NthIsSorted(xs: seq<real>, i: nat)
    requires i < |xs|
    ensures IsNth(xs, i, Sorted(xs)[i])
  {
    var s := Sorted(xs);
    FirstCounted(s, i + 1, s[i]);
    LastCounted(s, i, s[i]);
    SortedCounts(xs, s[i]);
    SameMember(xs, s[i]);
  }

  /** And every place has one. */
  lemma NthExists(xs: seq<real>, i: nat)
    requires i < |xs|
    ensures exists v :: IsNth(xs, i, v)
  {
    NthIsSorted(xs, i);
  }

  lemma Interpolated(a: real, b: real, f: real)
    ensures a * (1.0 - f) + b * f == a + f * (b - a)
  {
    var d := b - a;
    assert a * (1.0 - f) == a - a * f && b * f == a * f + d * f;
  }

  /** The fraction f of the way from a to b. */
  function Along(a: real, b: real, f: real): real
  {
    a + f * (b - a)
  }

  lemma AtRankIs(s: seq<real>, k: real, r: nat, f: real, next: nat)
    requires r < |s| && 0.0 <= f < 1.0 && k == r as real + f && k <= (|s| - 1) as real
    requires next == if r + 1 < |s| then r + 1 else r
    ensures AtRank(s, k) == Along(s[r], s[next], f)
  {
    assert k.Floor == r;
    if f == 0.0 {
      assert f * (s[next] - s[r]) == 0.0;
    } else {
      assert Ceil(k) == r + 1 && next == r + 1;
      assert Ceil(k) as real - k == 1.0 - f;
      Interpolated(s[r], s[next], f);
    }
  }

  lemma OneSample(xs: seq<real>, p: real)
    requires |xs| == 1 && 0.0 <= p <= 100.0
    ensures Percentile(xs, p) == Some(Sorted(xs)[0])
  {
    hide AtRank, Rank, Sorted;
  }

  lemma AtSortedRank(xs: seq<real>, p: real, r: nat, f: real, next: nat)
    requires 0.0 <= p <= 100.0 && 0.0 <= f < 1.0 && r < |xs| && Rank(|xs|, p) == r as real + f
    requires next == if r + 1 < |xs| then r + 1 else r
    ensures var s := Sorted(xs); Percentile(xs, p) == Some(Along(s[r], s[next], f))
  {
    hide AtRank, Rank, Sorted, Along;
    var s := Sorted(xs);
    if |xs| == 1 {
      OneSample(xs, p);
      NoWay(s[0], f);
    } else {
      AtRankIs(s, Rank(|xs|, p), r, f, next);
    }
  }

  lemma NoWay(v: real, f: real)
    ensures Along(v, v, f) == v
  {
  }

  lemma PercentileAlong(xs: seq<real>, p: real, r: nat, f: real, a: real, b: real, next: nat)
    requires 0.0 <= p <= 100.0 && 0.0 <= f < 1.0 && r < |xs| && Rank(|xs|, p) == r as real + f
    requires next == (if r + 1 < |xs| then r + 1 else r) && IsNth(xs, r, a) && IsNth(xs, next, b)
    ensures Percentile(xs, p) == Some(Along(a, b, f))
  {
    hide IsNth, Rank, Sorted, Percentile, Along;
    var s := Sorted(xs);
    NthIsSorted(xs, r);
    NthIsSorted(xs, next);
    NthUnique(xs, r, a, s[r]);
    NthUnique(xs, next, b, s[next]);
    AtSortedRank(xs, p, r, f, next);
  }

  /**
   The percentile of n samples at (n - 1) p / 100 = r + f, with a whole number r and 0 <= f < 1, is the fraction f of
   the way from the r-th value to the next, where the r-th value is the one found by counting.
   */
  lemma PercentileIs(xs: seq<real>, p: real, r: nat, f: real, a: real, b: real)
    requires 0.0 <= p <= 100.0 && 0.0 <= f < 1.0
    requires r < |xs| && (|xs| - 1) as real * (p / 100.0) == r as real + f
    requires IsNth(xs, r, a) && IsNth(xs, if r + 1 < |xs| then r + 1 else r, b)
    ensures Percentile(xs, p) == Some(a + f * (b - a))
  {
    hide IsNth, Rank, Percentile;
    RankIs(|xs|, p);
    PercentileAlong(xs, p, r, f, a, b, if r + 1 < |xs| then r + 1 else r);
  }

  lemma RankIs(n: nat, p: real)
    requires n >= 1 && 0.0 <= p <= 100.0
    ensures Rank(n, p) == (n - 1) as real * (p / 100.0)
  {
  }

  predicate IsLeast(xs: seq<real>, m: real)
  {
    m in xs && forall i :: 0 <= i < |xs| ==> m <= xs[i]
  }

  predicate IsGreatest(xs: seq<real>, m: real)
  {
    m in xs && forall i :: 0 <= i < |xs| ==> xs[i] <= m
  }

  lemma EndRanks(n: nat)
    requires n >= 1
    ensures Rank(n, 0.0) == 0.0 && Rank(n, 100.0) == (n - 1) as real
  {
    var top := (n - 1) as real;
    assert top * 0.0 == 0.0 && top * 1.0 == top;
    assert 0.0 / 100.0 == 0.0 && 100.0 / 100.0 == 1.0;
  }

  /** The 0th percentile is the minimum and the 100th the maximum. */
  lemma PercentileEnds(xs: seq<real>)
    requires xs != []
    ensures IsLeast(xs, Percentile(xs, 0.0).value) && IsGreatest(xs, Percentile(xs, 100.0).value)
  {
    var s := Sorted(xs);
    var last := |s| - 1;
    EndRanks(|s|);
    SameMember(xs, s[0]);
    SameMember(xs, s[last]);
    forall i | 0 <= i < |xs| ensures s[0] <= xs[i] <= s[last] {
      SameMember(xs, xs[i]);
      var j :| 0 <= j < |s| && s[j] == xs[i];
    }
    assert (last as real).Floor == last;
  }

  /** min(xs) and max(xs) */
  function Least(xs: seq<real>): (m: real)
    requires xs != []
    ensures IsLeast(xs, m)
  {
    if |xs| == 1 then xs[0]
    else
      var m := Least(xs[1..]);
      assert xs == [xs[0]] + xs[1..];
      if xs[0] < m then xs[0] else m
  }

  function Greatest(xs: seq<real>): (m: real)
    requires xs != []
    ensures IsGreatest(xs, m)
  {
    if |xs| == 1 then xs[0]
    else
      var m := Greatest(xs[1..]);
      assert xs == [xs[0]] + xs[1..];
      if m < xs[0] then xs[0] else m
  }

  /** round(x): to the nearest integer, a half to the even one. */
  function HalfEven(x: real): int
  {
    var lo := x.Floor;
    var part := x - lo as real;
    if part < 0.5 || (part == 0.5 && lo % 2 == 0) then lo else lo + 1
  }

  function Round(value: real): real
  {
    HalfEven(value * 10.0) as real / 10.0
  }

  lemma RoundMonotone(x: real, y: real)
    requires x <= y
    ensures Round(x) <= Round(y)
  {
    assert (x * 10.0).Floor <= (y * 10.0).Floor;
  }

  /** n is a whole number nearest to y, and an even one if two are as near. */
  predicate IsNearest(y: real, n: int)
  {
    var d := y - n as real;
    -0.5 <= d <= 0.5 && (d == 0.5 || d == -0.5 ==> n % 2 == 0)
  }

  /** r is x rounded to tenths: ten times r is a whole number nearest to ten times x. */
  predicate IsRounded(x: real, r: real)
  {
    r * 10.0 == (r * 10.0).Floor as real && IsNearest(x * 10.0, (r * 10.0).Floor)
  }

  lemma HalfEvenIsNearest(y: real)
    ensures IsNearest(y, HalfEven(y))
  {
  }

  lemma Tenths(n: int)
    ensures var r := n as real / 10.0; r * 10.0 == n as real && (r * 10.0).Floor == n
  {
  }

  lemma RoundIsNearest(x: real)
    ensures IsRounded(x, Round(x))
  {
    hide HalfEven, IsNearest;
    HalfEvenIsNearest(x * 10.0);
    Tenths(HalfEven(x * 10.0));
  }

  /** The figures of rtt_summary but for the mean and the deviation; None where there is nothing to report. */
  datatype Summary = Summary(n: nat, figures: Option<Figures>)
  datatype Figures = Figures(least: real, p50: real, p90: real, p95: real, p99: real, greatest: real)

  function RttSummary(xs: seq<real>): Summary
  {
    if xs == [] then Summary(0, None)
    else
      Summary(|xs|, Some(Figures(
        Round(Least(xs)), Round(Percentile(xs, 50.0).value), Round(Percentile(xs, 90.0).value),
        Round(Percentile(xs, 95.0).value), Round(Percentile(xs, 99.0).value), Round(Greatest(xs)))))
  }

  /** What is reported: the extremes and the four percentiles named, each rounded to tenths; nothing without samples. */
  lemma SummaryIs(xs: seq<real>)
    ensures RttSummary(xs).n == |xs| && (RttSummary(xs).figures.None? <==> xs == [])
    ensures xs != [] ==>
              var f := RttSummary(xs).figures.value;
              && (forall m :: IsLeast(xs, m) ==> IsRounded(m, f.least))
              && (forall m :: IsGreatest(xs, m) ==> IsRounded(m, f.greatest))
              && IsRounded(Percentile(xs, 50.0).value, f.p50) && IsRounded(Percentile(xs, 90.0).value, f.p90)
              && IsRounded(Percentile(xs, 95.0).value, f.p95) && IsRounded(Percentile(xs, 99.0).value, f.p99)
  {
    hide Round, IsRounded, Percentile;
    if xs != [] {
      RoundIsNearest(Least(xs));
      RoundIsNearest(Percentile(xs, 50.0).value);
      RoundIsNearest(Percentile(xs, 90.0).value);
      RoundIsNearest(Percentile(xs, 95.0).value);
      RoundIsNearest(Percentile(xs, 99.0).value);
      RoundIsNearest(Greatest(xs));
    }
  }

  /** The reported figures, rounded as they are, stand in order. */
  lemma SummaryInOrder(xs: seq<real>)
    requires xs != []
    ensures var f := RttSummary(xs).figures.value;
            f.least <= f.p50 <= f.p90 <= f.p95 <= f.p99 <= f.greatest
  {
    hide Round, Percentile;
    PercentileEnds(xs);
    PercentileMonotone(xs, 0.0, 50.0);
    PercentileMonotone(xs, 50.0, 90.0);
    PercentileMonotone(xs, 90.0, 95.0);
    PercentileMonotone(xs, 95.0, 99.0);
    PercentileMonotone(xs, 99.0, 100.0);
    RoundMonotone(Least(xs), Percentile(xs, 50.0).value);
    RoundMonotone(Percentile(xs, 50.0).value, Percentile(xs, 90.0).value);
    RoundMonotone(Percentile(xs, 90.0).value, Percentile(xs, 95.0).value);
    RoundMonotone(Percentile(xs, 95.0).value, Percentile(xs, 99.0).value);
    RoundMonotone(Percentile(xs, 99.0).value, Greatest(xs));
  }

  /** What is reported does not depend on the order of the measurements. */
  lemma SummaryOfPermutation(xs: seq<real>, ys: seq<real>)
    requires multiset(xs) == multiset(ys)
    ensures RttSummary(xs) == RttSummary(ys)
  {
    hide Round, Percentile, IsSorted;
    SameLength(xs, ys);
    if xs != [] {
      SameEnds(xs, ys);
      PercentileOfPermutation(xs, ys, 50.0);
      PercentileOfPermutation(xs, ys, 90.0);
      PercentileOfPermutation(xs, ys, 95.0);
      PercentileOfPermutation(xs, ys, 99.0);
    }
  }

  lemma SameLength(xs: seq<real>, ys: seq<real>)
    requires multiset(xs) == multiset(ys)
    ensures |xs| == |ys|
  {
    assert |xs| == |multiset(xs)| && |ys| == |multiset(ys)|;
  }

  lemma SameEnds(xs: seq<real>, ys: seq<real>)
    requires multiset(xs) == multiset(ys) && xs != [] && ys != []
    ensures Least(xs) == Least(ys) && Greatest(xs) == Greatest(ys)
  {
    assert forall x :: x in xs <==> x in multiset(xs);
    assert forall y :: y in ys <==> y in multiset(ys);
  }
}
