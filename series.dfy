/** The time series of the dashboard: each site's rows as points ordered by day, and the
    series of all listed sites merged day by day (`AggregateTimeSeries`). */
module Series {
  import opened Common
  import opened Entities
  import opened Seqs
  import opened Tallies

  /** The point for one stored row: the row's figures copied unchanged. */
  function PointOf(m: SiteMetric): (p: TimeSeriesPoint)
    ensures OfPoint(p) == OfMetric(m)
  {
    TimeSeriesPoint(m.date, m.clicks, m.impressions, m.ctr, m.avgPosition, m.keywordsCount)
  }

  predicate DateLe(a: Date, b: Date) {
    a <= b
  }

  predicate RowDateLe(a: SiteMetric, b: SiteMetric) {
    a.date <= b.date
  }

  predicate PointDateLe(a: TimeSeriesPoint, b: TimeSeriesPoint) {
    a.date <= b.date
  }

  function PointDate(p: TimeSeriesPoint): Date {
    p.date
  }

  /** The series of one site: its rows ordered by day (`OrderBy(m => m.Date)`), as points. */
  function SiteSeries(rows: seq<SiteMetric>): seq<TimeSeriesPoint> {
    Map(SortBy(rows, RowDateLe), PointOf)
  }

  /** A site's series has one point per row, holds exactly the rows' points, is ordered by
      day, and adds up to the same figures as the rows. */
  lemma SiteSeriesSpec(rows: seq<SiteMetric>)
    ensures |SiteSeries(rows)| == |rows|
    ensures forall p :: p in SiteSeries(rows) <==> exists m :: m in rows && p == PointOf(m)
    ensures Sorted(SiteSeries(rows), PointDateLe)
    ensures Sum(SiteSeries(rows), OfPoint) == Sum(rows, OfMetric)
  {
    var sorted := SortBy(rows, RowDateLe);
    SortByPermutes(rows, RowDateLe);
    forall p
      ensures p in SiteSeries(rows) <==> exists m :: m in rows && p == PointOf(m)
    {
      if p in SiteSeries(rows) {
        var i :| 0 <= i < |sorted| && p == PointOf(sorted[i]);
        assert sorted[i] in multiset(rows);
      } else {
        forall m | m in rows
          ensures p != PointOf(m)
        {
          assert m in multiset(sorted);
          var i :| 0 <= i < |sorted| && sorted[i] == m;
          assert SiteSeries(rows)[i] == PointOf(m);
        }
      }
    }
    SiteSeriesSorted(rows);
    SeriesSum(sorted);
    SumPermutation(sorted, rows, OfMetric);
  }

  /** A site's series is ordered by day. */
  lemma SiteSeriesSorted(rows: seq<SiteMetric>)
    ensures Sorted(SiteSeries(rows), PointDateLe)
  {
    var sorted := SortBy(rows, RowDateLe);
    assert TotalPreorder(RowDateLe);
    SortBySorted(rows, RowDateLe);
    forall i, j | 0 <= i < j < |sorted|
      ensures PointDateLe(SiteSeries(rows)[i], SiteSeries(rows)[j])
    {
      assert RowDateLe(sorted[i], sorted[j]);
    }
  }

  lemma {:induction false} SeriesSum(rows: seq<SiteMetric>)
    ensures Sum(Map(rows, PointOf), OfPoint) == Sum(rows, OfMetric)
  {
    if rows != [] {
      SeriesSum(rows[1..]);
      assert Map(rows, PointOf)[1..] == Map(rows[1..], PointOf);
    }
  }

  /** With at most one row per day, the series strictly increases by day. */
  lemma SiteSeriesStrict(rows: seq<SiteMetric>)
    requires forall i, j :: 0 <= i < j < |rows| ==> rows[i].date != rows[j].date
    ensures forall i, j :: 0 <= i < j < |SiteSeries(rows)| ==>
      SiteSeries(rows)[i].date < SiteSeries(rows)[j].date
  {
    var series := SiteSeries(rows);
    var sorted := SortBy(rows, RowDateLe);
    var sortedDates := Map(series, PointDate);
    assert Distinct(sortedDates) by {
      var dates := Map(rows, RowDate);
      SortByPermutes(rows, RowDateLe);
      MapPermutation(sorted, rows, RowDate);
      assert Map(sorted, RowDate) == sortedDates by {
        assert forall i :: 0 <= i < |series| ==> sortedDates[i] == RowDate(sorted[i]);
      }
      assert Distinct(dates);
      DistinctPermutation(dates, sortedDates);
    }
    assert Sorted(series, PointDateLe) by {
      SiteSeriesSorted(rows);
    }
    forall i, j | 0 <= i < j < |series|
      ensures series[i].date < series[j].date
    {
      assert sortedDates[i] != sortedDates[j];
      assert PointDateLe(series[i], series[j]);
    }
  }

  function RowDate(m: SiteMetric): Date {
    m.date
  }

  /** Mapping a permutation gives a permutation. */
  lemma {:induction false} MapPermutation<X, Y>(xs: seq<X>, ys: seq<X>, f: X -> Y)
    requires multiset(xs) == multiset(ys)
    ensures multiset(Map(xs, f)) == multiset(Map(ys, f))
    decreases |xs|
  {
    if xs == [] {
      assert |ys| == |multiset(ys)| == 0;
    } else {
      var x := xs[0];
      assert x in multiset(ys);
      var i :| 0 <= i < |ys| && ys[i] == x;
      assert xs == [x] + xs[1..];
      assert multiset(xs[1..]) == multiset(xs) - multiset{x};
      MapPermutation(xs[1..], RemoveAt(ys, i), f);
      MapRemoveAt(ys, i, f);
      assert Map(xs, f) == [f(x)] + Map(xs[1..], f);
    }
  }

  lemma MapRemoveAt<X, Y>(ys: seq<X>, i: nat, f: X -> Y)
    requires i < |ys|
    ensures multiset(Map(ys, f)) == multiset{f(ys[i])} + multiset(Map(RemoveAt(ys, i), f))
  {
    var x, a, b := ys[i], ys[..i], ys[i + 1..];
    var ma, mb := Map(a, f), Map(b, f);
    assert Map(ys, f) == ma + ([f(x)] + mb) by {
      assert ys == a + ys[i..];
      MapAppend(a, ys[i..], f);
      assert ys[i..][1..] == b;
    }
    assert Map(RemoveAt(ys, i), f) == ma + mb by {
      assert RemoveAt(ys, i) == a + b;
      MapAppend(a, b, f);
    }
  }

  /** The rows of one day. */
  function DayRows(rows: seq<SiteMetric>, d: Date): seq<SiteMetric> {
    Filter(rows, KeyIs(RowDate, d))
  }

  /** The points of one day. */
  function DayPoints(pts: seq<TimeSeriesPoint>, d: Date): seq<TimeSeriesPoint> {
    Filter(pts, KeyIs(PointDate, d))
  }

  /** The points of one day in a site's series add up to that site's rows of the day. */
  lemma SiteSeriesDay(rows: seq<SiteMetric>, d: Date)
    ensures Sum(DayPoints(SiteSeries(rows), d), OfPoint) == Sum(DayRows(rows, d), OfMetric)
  {
    var sorted := SortBy(rows, RowDateLe);
    var kept := DayRows(sorted, d);
    assert DayPoints(SiteSeries(rows), d) == Map(kept, PointOf) by {
      forall m: SiteMetric
        ensures KeyIs(RowDate, d)(m) == KeyIs(PointDate, d)(PointOf(m))
      {
        assert PointOf(m).date == m.date;
        assert KeyIs(RowDate, d)(m) == (RowDate(m) == d);
        assert KeyIs(PointDate, d)(PointOf(m)) == (PointDate(PointOf(m)) == d);
      }
      FilterMap(sorted, PointOf, KeyIs(PointDate, d), KeyIs(RowDate, d));
    }
    SeriesSum(kept);
    assert Sum(kept, OfMetric) == Sum(DayRows(rows, d), OfMetric) by {
      SortByPermutes(rows, RowDateLe);
      FilterPermutation(sorted, rows, KeyIs(RowDate, d));
      SumPermutation(kept, DayRows(rows, d), OfMetric);
    }
  }

  /** `SelectMany(s => s.TimeSeries)`: the points of every listed site, site by site. */
  function Flatten(entries: seq<SiteEntry>): seq<TimeSeriesPoint> {
    if entries == [] then [] else entries[0].timeSeries + Flatten(entries[1..])
  }

  /** What one entry's series contributes to one day. */
  function DayTally(d: Date): SiteEntry -> Tally {
    (e: SiteEntry) => Sum(DayPoints(e.timeSeries, d), OfPoint)
  }

  /** The points of one day among all the entries' points add up entry by entry. */
  lemma {:induction false} FlattenDay(es: seq<SiteEntry>, d: Date)
    ensures Sum(DayPoints(Flatten(es), d), OfPoint) == Sum(es, DayTally(d))
  {
    if es != [] {
      FlattenDay(es[1..], d);
      FilterAppend(es[0].timeSeries, Flatten(es[1..]), KeyIs(PointDate, d));
      SumAppend(DayPoints(es[0].timeSeries, d), DayPoints(Flatten(es[1..]), d), OfPoint);
    }
  }

  /** The figures of a point as an aggregate. */
  function PointTotals(p: TimeSeriesPoint): MetricDto {
    MetricDto(p.clicks, p.impressions, p.ctr, p.avgPosition, p.keywordsCount)
  }

  function DateIsNot(d: Date): TimeSeriesPoint -> bool {
    (p: TimeSeriesPoint) => p.date != d
  }

  /** The keys of `GroupBy(t => t.Date)`: each day of the points once, in order of first
      appearance. */
  function GroupKeys(pts: seq<TimeSeriesPoint>): (ks: seq<Date>)
    ensures Distinct(ks)
    ensures forall d :: d in ks <==> exists p :: p in pts && p.date == d
    decreases |pts|
  {
    if pts == [] then []
    else
      var rest := Filter(pts[1..], DateIsNot(pts[0].date));
      var tail := GroupKeys(rest);
      var ks := [pts[0].date] + tail;
      assert pts[0].date !in tail;
      assert forall p :: p in pts <==> p == pts[0] || p in pts[1..];
      assert forall i :: 0 < i < |ks| ==> ks[i] == tail[i - 1];
      ks
  }

  /** The merged point of one day: the sums of that day's points, with the zero-guarded
      click-through rate and impressions-weighted position. */
  function Bucket(pts: seq<TimeSeriesPoint>, d: Date): TimeSeriesPoint {
    var m := Finish(Sum(Filter(pts, KeyIs(PointDate, d)), OfPoint));
    TimeSeriesPoint(d, m.clicks, m.impressions, m.ctr, m.avgPosition, m.keywordsCount)
  }

  function Buckets(pts: seq<TimeSeriesPoint>, ds: seq<Date>): (r: seq<TimeSeriesPoint>)
    ensures |r| == |ds|
    ensures forall i :: 0 <= i < |ds| ==> r[i] == Bucket(pts, ds[i])
  {
    if ds == [] then [] else [Bucket(pts, ds[0])] + Buckets(pts, ds[1..])
  }

  /** `AggregateTimeSeries`: the points of all listed sites grouped by day, one merged
      point per day, in ascending order of day. */
  function AggregateTimeSeries(entries: seq<SiteEntry>): seq<TimeSeriesPoint> {
    var pts := Flatten(entries);
    Buckets(pts, SortBy(GroupKeys(pts), DateLe))
  }

  /** The merged series is in strictly ascending order of day. */
  lemma AggregateOrdered(entries: seq<SiteEntry>)
    ensures var r := AggregateTimeSeries(entries);
      forall i, j :: 0 <= i < j < |r| ==> r[i].date < r[j].date
  {
    var pts := Flatten(entries);
    SortedKeys(GroupKeys(pts));
  }

  /** The merged series has exactly one point for each day that occurs among the sites'
      points. */
  lemma AggregateDates(entries: seq<SiteEntry>)
    ensures (set p | p in AggregateTimeSeries(entries) :: p.date)
         == (set p | p in Flatten(entries) :: p.date)
  {
    var pts := Flatten(entries);
    var keys := GroupKeys(pts);
    var ds := SortBy(keys, DateLe);
    SortByPermutes(keys, DateLe);
    BucketDays(pts, ds);
    SameElements(ds, keys);
    KeyDays(pts);
  }

  lemma KeyDays(pts: seq<TimeSeriesPoint>)
    ensures (set d | d in GroupKeys(pts)) == (set p | p in pts :: p.date)
  {
  }

  /** Permutations hold the same elements. */
  lemma SameElements<X>(xs: seq<X>, ys: seq<X>)
    requires multiset(xs) == multiset(ys)
    ensures (set x | x in xs) == (set y | y in ys)
  {
    forall x | x in xs ensures x in ys {
      assert x in multiset(xs);
    }
    forall y | y in ys ensures y in xs {
      assert y in multiset(ys);
    }
  }

  lemma BucketDays(pts: seq<TimeSeriesPoint>, ds: seq<Date>)
    ensures (set p | p in Buckets(pts, ds) :: p.date) == (set d | d in ds)
  {
    var r := Buckets(pts, ds);
    forall d | d in ds ensures d in (set p | p in r :: p.date) {
      var i :| 0 <= i < |ds| && ds[i] == d;
      assert r[i].date == d;
    }
  }

  /** The ordered keys are a strictly ascending permutation of the keys. */
  lemma SortedKeys(keys: seq<Date>)
    requires Distinct(keys)
    ensures multiset(SortBy(keys, DateLe)) == multiset(keys)
    ensures forall i, j :: 0 <= i < j < |keys| ==> SortBy(keys, DateLe)[i] < SortBy(keys, DateLe)[j]
  {
    var ds := SortBy(keys, DateLe);
    SortByPermutes(keys, DateLe);
    assert TotalPreorder(DateLe);
    SortBySorted(keys, DateLe);
    DistinctPermutation(keys, ds);
    forall i, j | 0 <= i < j < |ds|
      ensures ds[i] < ds[j]
    {
      assert DateLe(ds[i], ds[j]) && ds[i] != ds[j];
    }
  }

  /** Merging by day loses nothing: the series adds up to the same clicks, impressions and
      keyword counts as all the sites' points together. */
  lemma AggregateTotals(entries: seq<SiteEntry>)
    ensures SameCounts(Sum(AggregateTimeSeries(entries), OfPoint), Sum(Flatten(entries), OfPoint))
  {
    var pts := Flatten(entries);
    var keys := GroupKeys(pts);
    var ds := SortBy(keys, DateLe);
    SortedKeys(keys);
    DistinctPermutation(keys, ds);
    forall p | p in pts
      ensures PointDate(p) in ds
    {
      assert p.date in keys;
      assert p.date in multiset(ds);
    }
    PartitionSum(pts, PointDate, ds, OfPoint);
    BucketsCount(pts, ds);
  }

  lemma {:induction false} BucketsCount(pts: seq<TimeSeriesPoint>, ds: seq<Date>)
    ensures SameCounts(Sum(Buckets(pts, ds), OfPoint), SumPerKey(pts, PointDate, ds, OfPoint))
  {
    if ds != [] {
      BucketsCount(pts, ds[1..]);
      assert Buckets(pts, ds)[1..] == Buckets(pts, ds[1..]);
    }
  }
}
