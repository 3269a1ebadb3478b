/** The arithmetic behind every aggregate of the dashboard (`CalculateTotals`,
    `CalculateSummary`, `AggregateTimeSeries`): sums of clicks, impressions, keyword counts
    and impressions-weighted positions, finished by zero-guarded ratios. */
module Tallies {
  import opened Common
  import opened Entities
  import opened Seqs

  /** The four additive quantities behind an aggregate: clicks, impressions, the sum of
      position × impressions, and keyword counts. */
  datatype Tally = Tally(clicks: int, impressions: int, weighted: real, keywords: int)

  const Zero := Tally(0, 0, 0.0, 0)

  function Plus(a: Tally, b: Tally): Tally {
    Tally(a.clicks + b.clicks, a.impressions + b.impressions,
          a.weighted + b.weighted, a.keywords + b.keywords)
  }

  lemma PlusSwap(a: Tally, b: Tally, c: Tally, d: Tally)
    ensures Plus(Plus(a, b), Plus(c, d)) == Plus(Plus(a, c), Plus(b, d))
  {
  }

  /** `xs.Sum(f)`, component by component. */
  function Sum<X>(xs: seq<X>, f: X -> Tally): Tally {
    if xs == [] then Zero else Plus(f(xs[0]), Sum(xs[1..], f))
  }

  /** The figures of one stored row. */
  function OfMetric(m: SiteMetric): Tally {
    Tally(m.clicks, m.impressions, m.avgPosition * m.impressions as real, m.keywordsCount)
  }

  /** The figures of one time-series point. */
  function OfPoint(p: TimeSeriesPoint): Tally {
    Tally(p.clicks, p.impressions, p.avgPosition * p.impressions as real, p.keywordsCount)
  }

  /** The figures of an aggregate. */
  function OfDto(d: MetricDto): Tally {
    Tally(d.clicks, d.impressions, d.avgPosition * d.impressions as real, d.keywordsCount)
  }

  /** `impressions > 0 ? n / impressions : 0`. */
  function Ratio(n: real, impressions: int): real {
    if impressions > 0 then n / impressions as real else 0.0
  }

  /** The aggregate reported for a tally: the three counts as they are, the click-through
      rate and the weighted mean position as ratios to impressions, both 0 when there are
      no impressions. */
  function Finish(t: Tally): (m: MetricDto)
    ensures m.clicks == t.clicks && m.impressions == t.impressions
    ensures m.keywordsCount == t.keywords
    ensures t.impressions <= 0 ==> m.ctr == 0.0 && m.avgPosition == 0.0
  {
    MetricDto(t.clicks, t.impressions, Ratio(t.clicks as real, t.impressions),
              Ratio(t.weighted, t.impressions), t.keywords)
  }

  /** With impressions, the rate and the position of a finished aggregate are the clicks
      and the weighted position per impression. */
  lemma FinishRatios(t: Tally)
    requires t.impressions > 0
    ensures Finish(t).ctr * t.impressions as real == t.clicks as real
    ensures Finish(t).avgPosition * t.impressions as real == t.weighted
  {
  }

  /** A tally that can come from real rows: no negative impressions, and no weighted
      position without impressions. */
  predicate Proper(t: Tally) {
    t.impressions >= 0 && (t.impressions == 0 ==> t.weighted == 0.0)
  }

  /** Two tallies with the same clicks, impressions and keyword counts. */
  predicate SameCounts(a: Tally, b: Tally) {
    a.clicks == b.clicks && a.impressions == b.impressions && a.keywords == b.keywords
  }

  lemma PlusCounts(a: Tally, b: Tally, c: Tally, d: Tally)
    requires SameCounts(a, c) && SameCounts(b, d)
    ensures SameCounts(Plus(a, b), Plus(c, d))
  {
  }

  /** Reading the figures back out of a finished aggregate recovers the counts, and for a
      proper tally the weighted position too. */
  lemma FinishRestores(t: Tally)
    ensures SameCounts(OfDto(Finish(t)), t)
    ensures Proper(t) ==> OfDto(Finish(t)) == t
  {
    if t.impressions > 0 {
      FinishRatios(t);
    }
  }

  /** A row with non-negative impressions has a proper tally. */
  lemma OfMetricProper(m: SiteMetric)
    requires m.impressions >= 0
    ensures Proper(OfMetric(m))
  {
  }

  /** Sums distribute over concatenation. */
  lemma {:induction false} SumAppend<X>(xs: seq<X>, ys: seq<X>, f: X -> Tally)
    ensures Sum(xs + ys, f) == Plus(Sum(xs, f), Sum(ys, f))
  {
    if xs == [] {
      assert xs + ys == ys;
    } else {
      assert (xs + ys)[1..] == xs[1..] + ys;
      SumAppend(xs[1..], ys, f);
    }
  }

  /** Sums do not depend on the order of the elements. */
  lemma {:induction false} SumPermutation<X>(xs: seq<X>, ys: seq<X>, f: X -> Tally)
    requires multiset(xs) == multiset(ys)
    ensures Sum(xs, f) == Sum(ys, f)
    decreases |xs|
  {
    if xs == [] {
      assert |ys| == |multiset(ys)| == 0;
    } else {
      var x := xs[0];
      assert x in multiset(ys);
      var i :| 0 <= i < |ys| && ys[i] == x;
      var rest := RemoveAt(ys, i);
      assert xs == [x] + xs[1..];
      assert multiset(xs[1..]) == multiset(xs) - multiset{x};
      SumPermutation(xs[1..], rest, f);
      SumRemoveAt(ys, i, f);
    }
  }

  /** Taking one element out of a sum. */
  lemma SumRemoveAt<X>(ys: seq<X>, i: nat, f: X -> Tally)
    requires i < |ys|
    ensures Sum(ys, f) == Plus(f(ys[i]), Sum(RemoveAt(ys, i), f))
  {
    var pre, post := ys[..i], ys[i + 1..];
    SumSplit(ys, i, f);
    assert RemoveAt(ys, i) == pre + post;
    SumAppend(pre, post, f);
  }

  /** A sum split at one element. */
  lemma SumSplit<X>(ys: seq<X>, i: nat, f: X -> Tally)
    requires i < |ys|
    ensures Sum(ys, f) == Plus(Sum(ys[..i], f), Plus(f(ys[i]), Sum(ys[i + 1..], f)))
  {
    var pre, tail := ys[..i], ys[i..];
    assert pre + tail == ys;
    SumAppend(pre, tail, f);
    assert tail[1..] == ys[i + 1..];
  }

  /** A sum of proper tallies is proper. */
  lemma {:induction false} SumProper<X>(xs: seq<X>, f: X -> Tally)
    requires forall i :: 0 <= i < |xs| ==> Proper(f(xs[i]))
    ensures Proper(Sum(xs, f))
  {
    if xs != [] {
      SumProper(xs[1..], f);
    }
  }

  /** Sums of two per-element tallies that agree on the counts agree on the counts; sums of
      equal per-element tallies are equal. */
  lemma {:induction false} SumAgree<X>(xs: seq<X>, f: X -> Tally, g: X -> Tally)
    requires forall i :: 0 <= i < |xs| ==> SameCounts(f(xs[i]), g(xs[i]))
    ensures SameCounts(Sum(xs, f), Sum(xs, g))
    ensures (forall i :: 0 <= i < |xs| ==> f(xs[i]) == g(xs[i])) ==> Sum(xs, f) == Sum(xs, g)
  {
    if xs != [] {
      SumAgree(xs[1..], f, g);
    }
  }

  /** Summing the images of a `Select` is summing through the composed function. */
  lemma {:induction false} SumMap<X, Y>(xs: seq<X>, g: X -> Y, f: Y -> Tally, h: X -> Tally)
    requires forall i :: 0 <= i < |xs| ==> f(g(xs[i])) == h(xs[i])
    ensures Sum(Map(xs, g), f) == Sum(xs, h)
  {
    if xs != [] {
      SumMap(xs[1..], g, f, h);
      assert Map(xs, g)[1..] == Map(xs[1..], g);
    }
  }

  /** The sums of the groups of `xs` whose key is `ks[0]`, `ks[1]`, …, added up. */
  function SumPerKey<X(!new), K(==)>(xs: seq<X>, key: X -> K, ks: seq<K>, f: X -> Tally): Tally {
    if ks == [] then Zero
    else Plus(Sum(Filter(xs, KeyIs(key, ks[0])), f), SumPerKey(xs, key, ks[1..], f))
  }

  /** What one element contributes to `SumPerKey`: its tally once for each listed key
      equal to its own. */
  function Hits<X, K(==)>(x: X, key: X -> K, ks: seq<K>, f: X -> Tally): Tally {
    if ks == [] then Zero
    else Plus(if key(x) == ks[0] then f(x) else Zero, Hits(x, key, ks[1..], f))
  }

  lemma {:induction false} HitsOnce<X, K>(x: X, key: X -> K, ks: seq<K>, f: X -> Tally)
    requires Distinct(ks) && key(x) in ks
    ensures Hits(x, key, ks, f) == f(x)
  {
    if key(x) == ks[0] {
      HitsNone(x, key, ks[1..], f);
    } else {
      HitsOnce(x, key, ks[1..], f);
    }
  }

  lemma {:induction false} HitsNone<X, K>(x: X, key: X -> K, ks: seq<K>, f: X -> Tally)
    requires key(x) !in ks
    ensures Hits(x, key, ks, f) == Zero
  {
    if ks != [] {
      HitsNone(x, key, ks[1..], f);
    }
  }

  lemma {:induction false} SumPerKeyEmpty<X(!new), K>(key: X -> K, ks: seq<K>, f: X -> Tally)
    ensures SumPerKey([], key, ks, f) == Zero
  {
    if ks != [] {
      SumPerKeyEmpty(key, ks[1..], f);
    }
  }

  lemma {:induction false} SumPerKeyCons<X(!new), K>(xs: seq<X>, key: X -> K, ks: seq<K>, f: X -> Tally)
    requires xs != []
    ensures SumPerKey(xs, key, ks, f) == Plus(Hits(xs[0], key, ks, f), SumPerKey(xs[1..], key, ks, f))
  {
    if ks != [] {
      SumPerKeyCons(xs, key, ks[1..], f);
      var h := FilterHead(xs, key, ks[0], f);
      var a := Sum(Filter(xs[1..], KeyIs(key, ks[0])), f);
      var b := SumPerKey(xs[1..], key, ks[1..], f);
      var c := Hits(xs[0], key, ks[1..], f);
      PlusSwap(h, a, c, b);
      assert SumPerKey(xs, key, ks, f) == Plus(Plus(h, a), Plus(c, b));
      assert SumPerKey(xs[1..], key, ks, f) == Plus(a, b);
      assert Hits(xs[0], key, ks, f) == Plus(h, c);
    } else {
      assert SumPerKey(xs, key, ks, f) == Zero;
      assert Hits(xs[0], key, ks, f) == Zero;
      assert SumPerKey(xs[1..], key, ks, f) == Zero;
      assert Plus(Zero, Zero) == Zero;
    }
  }

  /** The group of `xs` with key `k` is the group of the tail, preceded by the head when
      the head has that key. */
  lemma FilterHead<X(!new), K>(xs: seq<X>, key: X -> K, k: K, f: X -> Tally) returns (h: Tally)
    requires xs != []
    ensures h == if key(xs[0]) == k then f(xs[0]) else Zero
    ensures Sum(Filter(xs, KeyIs(key, k)), f) == Plus(h, Sum(Filter(xs[1..], KeyIs(key, k)), f))
  {
    var p := KeyIs(key, k);
    var head := if p(xs[0]) then [xs[0]] else [];
    assert Filter(xs, p) == head + Filter(xs[1..], p);
    SumAppend(head, Filter(xs[1..], p), f);
    h := if key(xs[0]) == k then f(xs[0]) else Zero;
  }

  /** Grouping by a key and adding up the group sums gives the plain sum, when the listed
      keys are distinct and cover every element. */
  lemma {:induction false} PartitionSum<X(!new), K>(xs: seq<X>, key: X -> K, ks: seq<K>, f: X -> Tally)
    requires Distinct(ks)
    requires forall x :: x in xs ==> key(x) in ks
    ensures SumPerKey(xs, key, ks, f) == Sum(xs, f)
  {
    if xs == [] {
      SumPerKeyEmpty(key, ks, f);
    } else {
      SumPerKeyCons(xs, key, ks, f);
      assert xs[0] in xs;
      HitsOnce(xs[0], key, ks, f);
      assert forall x :: x in xs[1..] ==> x in xs;
      PartitionSum(xs[1..], key, ks, f);
      assert SumPerKey(xs[1..], key, ks, f) == Sum(xs[1..], f);
      assert Hits(xs[0], key, ks, f) == f(xs[0]);
      assert Sum(xs, f) == Plus(f(xs[0]), Sum(xs[1..], f));
    }
  }

  /** `CalculateTotals`: the all-zero aggregate for no rows, otherwise the finished sum of
      the rows. The guard for the empty list agrees with the general formula. */
  function CalculateTotals(rows: seq<SiteMetric>): (r: MetricDto)
    ensures rows == [] ==> r == EmptyMetrics
    ensures r == Finish(Sum(rows, OfMetric))
  {
    if rows == [] then EmptyMetrics else Finish(Sum(rows, OfMetric))
  }

  /** Rows without negative impressions. */
  predicate NonNegative(rows: seq<SiteMetric>) {
    forall m :: m in rows ==> m.impressions >= 0
  }

  /** The totals of two runs of rows put together are the totals of each run combined:
      the counts add up, and without negative impressions the position is the
      impressions-weighted combination of the two positions. */
  lemma TotalsOfParts(a: seq<SiteMetric>, b: seq<SiteMetric>)
    ensures SameCounts(OfDto(CalculateTotals(a + b)),
                       Plus(OfDto(CalculateTotals(a)), OfDto(CalculateTotals(b))))
    ensures NonNegative(a) && NonNegative(b) ==>
      OfDto(CalculateTotals(a + b)) == Plus(OfDto(CalculateTotals(a)), OfDto(CalculateTotals(b)))
  {
    var ta, tb := Sum(a, OfMetric), Sum(b, OfMetric);
    SumAppend(a, b, OfMetric);
    FinishRestores(ta);
    FinishRestores(tb);
    FinishRestores(Plus(ta, tb));
    if NonNegative(a) && NonNegative(b) {
      RowsProper(a);
      RowsProper(b);
    }
  }

  /** Rows without negative impressions add up to a proper tally. */
  lemma {:induction false} RowsProper(rows: seq<SiteMetric>)
    requires NonNegative(rows)
    ensures Proper(Sum(rows, OfMetric))
  {
    if rows != [] {
      assert rows[0] in rows;
      assert forall m :: m in rows[1..] ==> m in rows;
      RowsProper(rows[1..]);
    }
  }

  /** Rows without impressions change neither the impressions nor the average position. */
  lemma ZeroImpressionRowsIgnored(rows: seq<SiteMetric>, extra: seq<SiteMetric>)
    requires forall i :: 0 <= i < |extra| ==> extra[i].impressions == 0
    ensures CalculateTotals(rows + extra).impressions == CalculateTotals(rows).impressions
    ensures CalculateTotals(rows + extra).avgPosition == CalculateTotals(rows).avgPosition
  {
    forall i | 0 <= i < |extra|
      ensures OfMetric(extra[i]).impressions == 0 && OfMetric(extra[i]).weighted == 0.0
    {
    }
    ZeroImpressionsSum(extra, OfMetric);
    var a, b := SameWeights(rows, extra, OfMetric);
    assert CalculateTotals(rows + extra).avgPosition == Ratio(b.weighted, b.impressions);
    assert CalculateTotals(rows).avgPosition == Ratio(a.weighted, a.impressions);
  }

  /** Appending elements without impressions or weighted position leaves both sums as
      they are. */
  lemma SameWeights<X>(xs: seq<X>, extra: seq<X>, f: X -> Tally) returns (a: Tally, b: Tally)
    requires Sum(extra, f).impressions == 0 && Sum(extra, f).weighted == 0.0
    ensures a == Sum(xs, f) && b == Sum(xs + extra, f)
    ensures b.impressions == a.impressions && b.weighted == a.weighted
  {
    SumAppend(xs, extra, f);
    a := Sum(xs, f);
    b := Sum(xs + extra, f);
  }

  lemma {:induction false} ZeroImpressionsSum<X>(xs: seq<X>, f: X -> Tally)
    requires forall i :: 0 <= i < |xs| ==> f(xs[i]).impressions == 0 && f(xs[i]).weighted == 0.0
    ensures Sum(xs, f).impressions == 0 && Sum(xs, f).weighted == 0.0
  {
    if xs != [] {
      ZeroImpressionsSum(xs[1..], f);
    }
  }

  /** A ratio of a value between `lo` and `hi` times the weight, to the weight. */
  lemma DivBounds(w: real, n: real, lo: real, hi: real)
    requires n > 0.0 && lo * n <= w <= hi * n
    ensures lo <= w / n <= hi
  {
    assert (lo * n) / n == lo;
    assert (hi * n) / n == hi;
  }

  lemma MulBounds(a: real, n: real, lo: real, hi: real)
    requires n >= 0.0 && lo <= a <= hi
    ensures lo * n <= a * n <= hi * n
  {
    assert (a - lo) * n >= 0.0;
    assert (hi - a) * n >= 0.0;
  }

  /** With non-negative impressions, the average position is a weighted mean: it lies
      between the smallest and the largest row position. */
  lemma PositionIsWeightedMean(rows: seq<SiteMetric>, lo: real, hi: real)
    requires forall i :: 0 <= i < |rows| ==> rows[i].impressions >= 0
    requires forall i :: 0 <= i < |rows| ==> lo <= rows[i].avgPosition <= hi
    requires Sum(rows, OfMetric).impressions > 0
    ensures lo <= CalculateTotals(rows).avgPosition <= hi
  {
    var t := Sum(rows, OfMetric);
    assert lo <= Ratio(t.weighted, t.impressions) <= hi by {
      WeightedBounds(rows, lo, hi);
      MeanBounds(t, lo, hi);
    }
    assert CalculateTotals(rows).avgPosition == Ratio(t.weighted, t.impressions);
  }

  /** The weighted sum lies between the bounds times the total weight. */
  predicate Between(t: Tally, lo: real, hi: real) {
    lo * t.impressions as real <= t.weighted <= hi * t.impressions as real
  }

  lemma MeanBounds(t: Tally, lo: real, hi: real)
    requires t.impressions > 0 && Between(t, lo, hi)
    ensures lo <= Ratio(t.weighted, t.impressions) <= hi
  {
    DivBounds(t.weighted, t.impressions as real, lo, hi);
  }

  lemma {:induction false} WeightedBounds(rows: seq<SiteMetric>, lo: real, hi: real)
    requires forall i :: 0 <= i < |rows| ==> rows[i].impressions >= 0
    requires forall i :: 0 <= i < |rows| ==> lo <= rows[i].avgPosition <= hi
    ensures Between(Sum(rows, OfMetric), lo, hi)
  {
    if rows != [] {
      var t, s := Sum(rows[1..], OfMetric), Sum(rows, OfMetric);
      WeightedBounds(rows[1..], lo, hi);
      assert s == Plus(OfMetric(rows[0]), t);
      StepBounds(rows[0], t, s, lo, hi);
    }
  }

  /** One more weighted term keeps the weighted sum between the bounds times the weight. */
  lemma StepBounds(m: SiteMetric, t: Tally, s: Tally, lo: real, hi: real)
    requires s == Plus(OfMetric(m), t)
    requires m.impressions >= 0 && lo <= m.avgPosition <= hi
    requires Between(t, lo, hi)
    ensures Between(s, lo, hi)
  {
    var a, b := m.impressions as real, t.impressions as real;
    MulBounds(m.avgPosition, a, lo, hi);
    assert s.impressions as real == a + b;
    assert lo * (a + b) == lo * a + lo * b;
    assert hi * (a + b) == hi * a + hi * b;
  }

  /** When no row has more clicks than impressions, the click-through rate is a fraction. */
  lemma CtrIsFraction(rows: seq<SiteMetric>)
    requires forall i :: 0 <= i < |rows| ==> 0 <= rows[i].clicks <= rows[i].impressions
    ensures 0.0 <= CalculateTotals(rows).ctr <= 1.0
  {
    ClicksBounded(rows);
    var t := Sum(rows, OfMetric);
    if t.impressions > 0 {
      DivBounds(t.clicks as real, t.impressions as real, 0.0, 1.0);
    }
  }

  lemma {:induction false} ClicksBounded(rows: seq<SiteMetric>)
    requires forall i :: 0 <= i < |rows| ==> 0 <= rows[i].clicks <= rows[i].impressions
    ensures 0 <= Sum(rows, OfMetric).clicks <= Sum(rows, OfMetric).impressions
  {
    if rows != [] {
      ClicksBounded(rows[1..]);
    }
  }
}
