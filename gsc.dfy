/** The response handling of the Search Console client (`GoogleSearchConsoleService`): the
    mapping of analytics rows to `MetricData`, the keyword count, and the per-day keyword
    counts. The requests themselves are not modelled; a response arrives as an argument. */
module SearchConsole {
  import opened Common
  import opened Entities
  import opened Seqs

  /** One analytics row. `date` is the first key already parsed as a day; the measures
      are nullable doubles. */
  datatype ApiRow = ApiRow(date: Date, clicks: Option<real>, impressions: Option<real>,
                           ctr: Option<real>, position: Option<real>)

  /** The `(long)` cast of a double: the fraction is dropped, rounding toward zero. */
  function TruncateToLong(x: real): (n: int)
    ensures x >= 0.0 ==> n as real <= x < n as real + 1.0
    ensures x < 0.0 ==> n as real - 1.0 < x <= n as real
  {
    if x >= 0.0 then x.Floor else -((-x).Floor)
  }

  /** A row as `MetricData`; a missing measure is 0. */
  function MetricOf(row: ApiRow): (m: MetricData)
    ensures m.date == row.date
    ensures row.clicks.None? ==> m.clicks == 0
    ensures row.impressions.None? ==> m.impressions == 0
    ensures row.ctr.None? ==> m.ctr == 0.0
    ensures row.position.None? ==> m.avgPosition == 0.0
    ensures row.ctr.Some? ==> m.ctr == row.ctr.value
    ensures row.position.Some? ==> m.avgPosition == row.position.value
  {
    MetricData(row.date, TruncateToLong(OrElse(row.clicks, 0.0)), TruncateToLong(OrElse(row.impressions, 0.0)),
               OrElse(row.ctr, 0.0), OrElse(row.position, 0.0))
  }

  /** `GetSiteMetricsAsync` after the request: one entry per row, in row order; a null or
      empty row list gives none. */
  function SiteMetrics(rows: Option<seq<ApiRow>>): (r: seq<MetricData>)
    ensures rows.None? ==> r == []
    ensures rows.Some? ==> |r| == |rows.value|
    ensures rows.Some? ==> forall i :: 0 <= i < |r| ==> r[i] == MetricOf(rows.value[i])
  {
    if rows.None? || |rows.value| == 0 then [] else Map(rows.value, MetricOf)
  }

  /** `GetKeywordsCountAsync` after the request: one row per query. */
  function KeywordsCount(rows: Option<seq<ApiRow>>): (n: nat)
    ensures rows.None? ==> n == 0
    ensures rows.Some? ==> n == |rows.value|
  {
    if rows.None? then 0 else |rows.value|
  }

  function DateIs(d: Date): ApiRow -> bool {
    (row: ApiRow) => row.date == d
  }

  /** The number of rows of day `d`. */
  function Occurrences(rows: seq<ApiRow>, d: Date): nat {
    |Filter(rows, DateIs(d))|
  }

  /** The rows grouped by day, each day mapped to its number of rows. */
  function CountByDate(rows: seq<ApiRow>): map<Date, int> {
    if rows == [] then map[]
    else
      var m := CountByDate(rows[1..]);
      var d := rows[0].date;
      m[d := (if d in m then m[d] else 0) + 1]
  }

  /** No row of `rows` falls on a day missing from `Days(rows)`. */
  lemma NoRowsOn(rows: seq<ApiRow>, d: Date)
    requires d !in Days(rows)
    ensures Occurrences(rows, d) == 0
  {
    forall x | x in rows
      ensures !DateIs(d)(x)
    {
      var i :| 0 <= i < |rows| && rows[i] == x;
    }
    FilterNone(rows, DateIs(d));
  }

  /** The grouping has a key for each day of the rows and no other, and maps it to the
      number of rows of that day. */
  lemma {:induction false} CountByDateSpec(rows: seq<ApiRow>)
    ensures forall d :: d in CountByDate(rows) <==> d in Days(rows)
    ensures forall d :: d in CountByDate(rows) ==> CountByDate(rows)[d] == Occurrences(rows, d)
  {
    if rows != [] {
      var rest := rows[1..];
      CountByDateSpec(rest);
      var m := CountByDate(rest);
      var d := rows[0].date;
      var r := CountByDate(rows);
      assert forall e :: e in Days(rows) <==> e == d || e in Days(rest);
      forall e | e in r
        ensures r[e] == Occurrences(rows, e)
      {
        assert Filter(rows, DateIs(e))
            == (if DateIs(e)(rows[0]) then [rows[0]] else []) + Filter(rest, DateIs(e));
        if e == d && d !in m {
          NoRowsOn(rest, d);
        }
      }
    }
  }

  /** `GetKeywordsCountByDateAsync` after the request: empty when the rows are null. */
  function KeywordsByDate(rows: Option<seq<ApiRow>>): (m: map<Date, int>)
    ensures rows.None? ==> m == map[]
    ensures rows.Some? ==> m == CountByDate(rows.value)
  {
    if rows.None? then map[] else CountByDate(rows.value)
  }

  /** The days of the rows, each once. */
  function Days(rows: seq<ApiRow>): (r: seq<Date>)
    ensures forall d :: d in r <==> exists i :: 0 <= i < |rows| && rows[i].date == d
    ensures Distinct(r)
  {
    if rows == [] then []
    else
      var rest := Days(rows[1..]);
      assert forall d :: d in rest <==> exists i :: 1 <= i < |rows| && rows[i].date == d by {
        forall d | d in rest
          ensures exists i :: 1 <= i < |rows| && rows[i].date == d
        {
          var i :| 0 <= i < |rows[1..]| && rows[1..][i].date == d;
          assert rows[i + 1].date == d;
        }
        forall d, i | 1 <= i < |rows| && rows[i].date == d
          ensures d in rest
        {
          assert rows[1..][i - 1].date == d;
        }
      }
      if rows[0].date in rest then rest else [rows[0].date] + rest
  }

  /** The sum of the values of `m` at `keys`. */
  function ValueSum(m: map<Date, int>, keys: seq<Date>): int
    requires forall i :: 0 <= i < |keys| ==> keys[i] in m
  {
    if keys == [] then 0 else m[keys[0]] + ValueSum(m, keys[1..])
  }

  lemma {:induction false} ValueSumAgree(m: map<Date, int>, n: map<Date, int>, keys: seq<Date>)
    requires forall i :: 0 <= i < |keys| ==> keys[i] in m && keys[i] in n && m[keys[i]] == n[keys[i]]
    ensures ValueSum(m, keys) == ValueSum(n, keys)
  {
    if keys != [] {
      ValueSumAgree(m, n, keys[1..]);
    }
  }

  /** Changing the value at one key that occurs once among `keys` changes the sum by the
      difference. */
  lemma {:induction false} ValueSumBump(m: map<Date, int>, keys: seq<Date>, k: Date, v: int)
    requires forall i :: 0 <= i < |keys| ==> keys[i] in m
    requires Distinct(keys) && k in keys
    ensures ValueSum(m[k := v], keys) == ValueSum(m, keys) - m[k] + v
  {
    if keys[0] == k {
      forall j | 0 <= j < |keys[1..]|
        ensures keys[1..][j] != k
      {
        assert keys[1..][j] == keys[j + 1];
      }
      ValueSumAgree(m[k := v], m, keys[1..]);
    } else {
      assert Distinct(keys[1..]) by {
        forall i, j | 0 <= i < j < |keys[1..]|
          ensures keys[1..][i] != keys[1..][j]
        {
          assert keys[1..][i] == keys[i + 1] && keys[1..][j] == keys[j + 1];
        }
      }
      ValueSumBump(m, keys[1..], k, v);
    }
  }

  /** Adding one row of a day already counted raises the sum by one. */
  lemma SumStepSeen(m: map<Date, int>, all: map<Date, int>, keys: seq<Date>, d: Date)
    requires forall i :: 0 <= i < |keys| ==> keys[i] in m
    requires Distinct(keys) && d in keys && d in m && all == m[d := m[d] + 1]
    ensures forall i :: 0 <= i < |keys| ==> keys[i] in all
    ensures ValueSum(all, keys) == ValueSum(m, keys) + 1
  {
    ValueSumBump(m, keys, d, m[d] + 1);
  }

  /** Adding one row of a new day adds a key holding one. */
  lemma SumStepNew(m: map<Date, int>, all: map<Date, int>, keys: seq<Date>, d: Date)
    requires forall i :: 0 <= i < |keys| ==> keys[i] in m
    requires d !in keys && all == m[d := 1]
    ensures forall i :: 0 <= i < |[d] + keys| ==> ([d] + keys)[i] in all
    ensures ValueSum(all, [d] + keys) == ValueSum(m, keys) + 1
  {
    ValueSumAgree(all, m, keys);
    assert ([d] + keys)[1..] == keys;
  }

  /** Every row is counted once: the per-day counts add up to the number of rows. */
  lemma {:induction false} CountByDateSum(rows: seq<ApiRow>)
    ensures forall i :: 0 <= i < |Days(rows)| ==> Days(rows)[i] in CountByDate(rows)
    ensures ValueSum(CountByDate(rows), Days(rows)) == |rows|
  {
    if rows != [] {
      var m, all := CountByDate(rows[1..]), CountByDate(rows);
      var d := rows[0].date;
      var rest := Days(rows[1..]);
      CountByDateSum(rows[1..]);
      if d in rest {
        assert Days(rows) == rest && d in m by {
          CountByDateSpec(rows[1..]);
        }
        SumStepSeen(m, all, rest, d);
      } else {
        assert Days(rows) == [d] + rest && d !in m by {
          CountByDateSpec(rows[1..]);
        }
        SumStepNew(m, all, rest, d);
      }
    }
  }

  /** The per-day counts as a map: its keys are exactly the days of the rows, listed once
      each by `Days`, and its values add up to the number of rows, the total keyword count. */
  lemma KeywordsByDateTotal(rows: Option<seq<ApiRow>>)
    ensures forall d :: d in KeywordsByDate(rows) <==> rows.Some? && d in Days(rows.value)
    ensures forall d :: d in KeywordsByDate(rows) ==> KeywordsByDate(rows)[d] == Occurrences(rows.value, d)
    ensures rows.Some? ==> forall i :: 0 <= i < |Days(rows.value)| ==> Days(rows.value)[i] in KeywordsByDate(rows)
    ensures rows.Some? ==> ValueSum(KeywordsByDate(rows), Days(rows.value)) == KeywordsCount(rows)
  {
    if rows.Some? {
      CountByDateSpec(rows.value);
      CountByDateSum(rows.value);
    }
  }
}
