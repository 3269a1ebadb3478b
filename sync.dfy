/** Metric synchronisation (`SyncSiteDataHandler`): the figures fetched from Search
    Console for a site overwrite the stored row of each fetched day, or become a new row
    when the day has none; the site then records the time of the sync or its error. */
module Sync {
  import opened Common
  import opened Entities
  import opened Seqs
  import opened Store
  import opened Discovery
  import opened Series

  /** What the two Search Console requests return: one entry per day, and the number of
      keywords per day. */
  datatype Fetched = Fetched(metrics: seq<MetricData>, keywords: map<Date, int>)

  /** The keyword count of a day, 0 when the day is not in the map. */
  function KeywordsFor(kw: map<Date, int>, d: Date): (n: int)
    ensures d !in kw ==> n == 0
    ensures d in kw ==> n == kw[d]
  {
    if d in kw then kw[d] else 0
  }

  function FetchedDate(f: MetricData): Date {
    f.date
  }

  /** The stored row of the site for day `d`. */
  function RowAt(siteId: Guid, d: Date): SiteMetric -> bool {
    (m: SiteMetric) => m.siteId == siteId && m.date == d
  }

  /** The days for which the site has a stored row. */
  function StoredDays(rows: seq<SiteMetric>, siteId: Guid): set<Date> {
    set m | m in rows && m.siteId == siteId :: m.date
  }

  function NewDay(days: set<Date>): MetricData -> bool {
    (f: MetricData) => f.date !in days
  }

  /** A row overwritten with fetched figures: the five figures change, the site, the day
      and the creation time stay. */
  function Overwrite(m: SiteMetric, f: MetricData, keywords: int): SiteMetric {
    m.(clicks := f.clicks, impressions := f.impressions, ctr := f.ctr,
       avgPosition := f.avgPosition, keywordsCount := keywords)
  }

  /** The row inserted for a fetched day without a stored row. */
  function NewRow(siteId: Guid, f: MetricData, keywords: int, now: Timestamp): SiteMetric {
    SiteMetric(siteId, f.date, f.clicks, f.impressions, f.ctr, f.avgPosition, keywords, now)
  }

  function NewRowOf(siteId: Guid, kw: map<Date, int>, now: Timestamp): MetricData -> SiteMetric {
    (f: MetricData) => NewRow(siteId, f, KeywordsFor(kw, f.date), now)
  }

  /** The last fetched entry for day `d`, if any. */
  function LastFetched(fs: seq<MetricData>, d: Date): (r: Option<MetricData>)
    ensures r.Some? ==> r.value in fs && r.value.date == d
    ensures r.None? <==> forall f :: f in fs ==> f.date != d
  {
    if fs == [] then None
    else if fs[|fs| - 1].date == d then Some(fs[|fs| - 1])
    else
      assert fs == fs[..|fs| - 1] + [fs[|fs| - 1]];
      LastFetched(fs[..|fs| - 1], d)
  }

  /** The stored rows after the loop's in-place updates: each fetched entry whose day has
      a stored row of the site overwrites that row. The lookup queries the stored rows, so
      rows added earlier in the same loop are not found. */
  function Updated(stored: seq<SiteMetric>, siteId: Guid, fs: seq<MetricData>,
                   kw: map<Date, int>): (r: seq<SiteMetric>)
    ensures |r| == |stored|
    ensures forall k :: 0 <= k < |stored| ==>
      r[k].siteId == stored[k].siteId && r[k].date == stored[k].date
      && r[k].createdAt == stored[k].createdAt
    decreases |fs|
  {
    if fs == [] then stored
    else
      var prev := Updated(stored, siteId, fs[..|fs| - 1], kw);
      var f := fs[|fs| - 1];
      match FirstIndex(stored, RowAt(siteId, f.date)) {
        case None => prev
        case Some(k) => prev[k := Overwrite(prev[k], f, KeywordsFor(kw, f.date))]
      }
  }

  /** The rows the loop adds: one per fetched entry whose day has no stored row, in
      fetched order. */
  function Inserted(stored: seq<SiteMetric>, siteId: Guid, fs: seq<MetricData>,
                    kw: map<Date, int>, now: Timestamp): seq<SiteMetric> {
    Map(Filter(fs, NewDay(StoredDays(stored, siteId))), NewRowOf(siteId, kw, now))
  }

  /** A stored row as the sync leaves it: a row of the site whose day was fetched carries
      the figures of the last entry fetched for that day; every other row is untouched. */
  function SyncedRow(m: SiteMetric, siteId: Guid, fs: seq<MetricData>, kw: map<Date, int>): SiteMetric {
    if m.siteId != siteId then m
    else match LastFetched(fs, m.date) {
      case None => m
      case Some(f) => Overwrite(m, f, KeywordsFor(kw, m.date))
    }
  }

  /** With unique (site, day) rows, the lookup finds row `k` exactly when it is the site's
      row for the day. */
  lemma RowLookup(stored: seq<SiteMetric>, siteId: Guid, d: Date)
    requires UniqueMetrics(stored)
    ensures forall k :: 0 <= k < |stored| ==>
      (FirstIndex(stored, RowAt(siteId, d)) == Some(k) <==> stored[k].siteId == siteId && stored[k].date == d)
    ensures FirstIndex(stored, RowAt(siteId, d)).None? <==> d !in StoredDays(stored, siteId)
  {
    if d in StoredDays(stored, siteId) {
      var m :| m in stored && m.siteId == siteId && m.date == d;
      var k :| 0 <= k < |stored| && stored[k] == m;
      assert RowAt(siteId, d)(stored[k]);
    }
  }

  /** Each stored row ends up as `SyncedRow` says: rows of other sites and of days that
      were not fetched are untouched, and a fetched day's row holds the figures of the
      last entry fetched for it, with the keyword count of its day (0 when absent). */
  lemma {:induction false} UpdatedRows(stored: seq<SiteMetric>, siteId: Guid, fs: seq<MetricData>,
                                       kw: map<Date, int>)
    requires UniqueMetrics(stored)
    ensures forall k :: 0 <= k < |stored| ==>
      Updated(stored, siteId, fs, kw)[k] == SyncedRow(stored[k], siteId, fs, kw)
    decreases |fs|
  {
    if fs != [] {
      var init := fs[..|fs| - 1];
      var f := fs[|fs| - 1];
      UpdatedRows(stored, siteId, init, kw);
      RowLookup(stored, siteId, f.date);
      forall k | 0 <= k < |stored|
        ensures Updated(stored, siteId, fs, kw)[k] == SyncedRow(stored[k], siteId, fs, kw)
      {
        if stored[k].siteId == siteId && stored[k].date != f.date {
          assert LastFetched(fs, stored[k].date) == LastFetched(init, stored[k].date);
        }
      }
    }
  }

  /** Syncing a row twice with the same figures changes nothing more. */
  lemma SyncedRowTwice(m: SiteMetric, siteId: Guid, fs: seq<MetricData>, kw: map<Date, int>)
    ensures SyncedRow(SyncedRow(m, siteId, fs, kw), siteId, fs, kw) == SyncedRow(m, siteId, fs, kw)
  {
  }

  /** The rows the sync saves. */
  function SyncedTable(stored: seq<SiteMetric>, siteId: Guid, fs: seq<MetricData>,
                       kw: map<Date, int>, now: Timestamp): seq<SiteMetric> {
    Updated(stored, siteId, fs, kw) + Inserted(stored, siteId, fs, kw, now)
  }

  /** The in-place updates keep every row's key, so the site keeps its days. */
  lemma UpdatedKeys(stored: seq<SiteMetric>, siteId: Guid, fs: seq<MetricData>, kw: map<Date, int>)
    ensures UniqueMetrics(Updated(stored, siteId, fs, kw)) <==> UniqueMetrics(stored)
    ensures StoredDays(Updated(stored, siteId, fs, kw), siteId) == StoredDays(stored, siteId)
  {
    var upd := Updated(stored, siteId, fs, kw);
    forall d | d in StoredDays(stored, siteId)
      ensures d in StoredDays(upd, siteId)
    {
      var m :| m in stored && m.siteId == siteId && m.date == d;
      var k :| 0 <= k < |stored| && stored[k] == m;
      assert upd[k] in upd;
    }
  }

  /** The inserted rows are rows of the site for days it has no row for, one per new
      fetched entry and with its day. */
  lemma InsertedRows(stored: seq<SiteMetric>, siteId: Guid, fs: seq<MetricData>,
                     kw: map<Date, int>, now: Timestamp)
    ensures var ins := Inserted(stored, siteId, fs, kw, now);
      forall i :: 0 <= i < |ins| ==> ins[i].siteId == siteId && ins[i].date !in StoredDays(stored, siteId)
    ensures DistinctKeys(Inserted(stored, siteId, fs, kw, now), RowDate)
        <==> DistinctKeys(Filter(fs, NewDay(StoredDays(stored, siteId))), FetchedDate)
  {
    var newOnes := Filter(fs, NewDay(StoredDays(stored, siteId)));
    assert forall i :: 0 <= i < |newOnes| ==> NewDay(StoredDays(stored, siteId))(newOnes[i]);
  }

  /** Rows of one site for days it has no row for can be added to a table with unique keys
      exactly when their days are pairwise distinct. */
  lemma AppendUnique(rows: seq<SiteMetric>, added: seq<SiteMetric>, siteId: Guid)
    requires UniqueMetrics(rows)
    requires forall i :: 0 <= i < |added| ==> added[i].siteId == siteId && added[i].date !in StoredDays(rows, siteId)
    ensures UniqueMetrics(rows + added) <==> DistinctKeys(added, RowDate)
  {
    var all := rows + added;
    if DistinctKeys(added, RowDate) {
      forall i, j | 0 <= i < j < |all|
        ensures all[i].siteId != all[j].siteId || all[i].date != all[j].date
      {
        if i < |rows| && j >= |rows| && rows[i].siteId == siteId {
          assert rows[i] in rows;
        }
      }
    } else {
      var i, j :| 0 <= i < j < |added| && RowDate(added[i]) == RowDate(added[j]);
      assert all[|rows| + i] == added[i] && all[|rows| + j] == added[j];
    }
  }

  /** The database accepts the saved rows exactly when no new day is fetched twice: the
      updated rows keep their keys, and the inserted rows are of days the site has no
      row for. */
  lemma SyncAccepted(stored: seq<SiteMetric>, siteId: Guid, fs: seq<MetricData>,
                     kw: map<Date, int>, now: Timestamp)
    requires UniqueMetrics(stored)
    ensures UniqueMetrics(SyncedTable(stored, siteId, fs, kw, now))
        <==> DistinctKeys(Filter(fs, NewDay(StoredDays(stored, siteId))), FetchedDate)
  {
    UpdatedKeys(stored, siteId, fs, kw);
    InsertedRows(stored, siteId, fs, kw, now);
    AppendUnique(Updated(stored, siteId, fs, kw), Inserted(stored, siteId, fs, kw, now), siteId);
  }

  /** With pairwise distinct fetched days the last entry for a fetched day is that entry. */
  lemma LastFetchedDistinct(fs: seq<MetricData>, i: nat)
    requires DistinctKeys(fs, FetchedDate) && i < |fs|
    ensures LastFetched(fs, fs[i].date) == Some(fs[i])
    decreases |fs|
  {
    var n := |fs| - 1;
    if i < n {
      assert fs[..n][i] == fs[i];
      assert DistinctKeys(fs[..n], FetchedDate) by {
        assert forall a, b :: 0 <= a < b < n ==> fs[..n][a] == fs[a] && fs[..n][b] == fs[b];
      }
      assert FetchedDate(fs[i]) != FetchedDate(fs[n]);
      LastFetchedDistinct(fs[..n], i);
    }
  }

  /** After a sync every fetched day has a row of the site. */
  lemma FetchedDaysStored(stored: seq<SiteMetric>, siteId: Guid, fs: seq<MetricData>,
                          kw: map<Date, int>, now: Timestamp)
    ensures forall f :: f in fs ==> f.date in StoredDays(SyncedTable(stored, siteId, fs, kw, now), siteId)
  {
    var days := StoredDays(stored, siteId);
    var upd := Updated(stored, siteId, fs, kw);
    var ins := Inserted(stored, siteId, fs, kw, now);
    var all := upd + ins;
    forall f | f in fs
      ensures f.date in StoredDays(all, siteId)
    {
      if f.date in days {
        var m :| m in stored && m.siteId == siteId && m.date == f.date;
        var k :| 0 <= k < |stored| && stored[k] == m;
        assert all[k] in all;
      } else {
        var newOnes := Filter(fs, NewDay(days));
        assert f in newOnes;
        var i :| 0 <= i < |newOnes| && newOnes[i] == f;
        assert ins[i] in all;
      }
    }
  }

  /** A row the sync inserted is left as it is by syncing the same figures again. */
  lemma InsertedRowStays(stored: seq<SiteMetric>, siteId: Guid, fs: seq<MetricData>,
                         kw: map<Date, int>, now: Timestamp, i: nat)
    requires DistinctKeys(fs, FetchedDate)
    requires i < |Inserted(stored, siteId, fs, kw, now)|
    ensures var m := Inserted(stored, siteId, fs, kw, now)[i];
      SyncedRow(m, siteId, fs, kw) == m
  {
    var newOnes := Filter(fs, NewDay(StoredDays(stored, siteId)));
    var f := newOnes[i];
    assert f in fs;
    var n :| 0 <= n < |fs| && fs[n] == f;
    LastFetchedDistinct(fs, n);
  }

  /** Every row of a synced table is left as it is by syncing the same figures again. */
  lemma SyncedRowsStay(stored: seq<SiteMetric>, siteId: Guid, fs: seq<MetricData>,
                       kw: map<Date, int>, now: Timestamp)
    requires UniqueMetrics(stored)
    requires DistinctKeys(fs, FetchedDate)
    ensures var once := SyncedTable(stored, siteId, fs, kw, now);
      forall k :: 0 <= k < |once| ==> SyncedRow(once[k], siteId, fs, kw) == once[k]
  {
    var once := SyncedTable(stored, siteId, fs, kw, now);
    UpdatedRows(stored, siteId, fs, kw);
    forall k | 0 <= k < |once|
      ensures SyncedRow(once[k], siteId, fs, kw) == once[k]
    {
      if k < |stored| {
        SyncedRowTwice(stored[k], siteId, fs, kw);
      } else {
        InsertedRowStays(stored, siteId, fs, kw, now, k - |stored|);
      }
    }
  }

  /** Sync is idempotent: with pairwise distinct fetched days, syncing the same figures
      again overwrites every row with the values it already holds and inserts nothing. */
  lemma SecondSyncSame(stored: seq<SiteMetric>, siteId: Guid, fs: seq<MetricData>,
                       kw: map<Date, int>, now: Timestamp, later: Timestamp)
    requires UniqueMetrics(stored)
    requires DistinctKeys(fs, FetchedDate)
    ensures var once := SyncedTable(stored, siteId, fs, kw, now);
      SyncedTable(once, siteId, fs, kw, later) == once
  {
    var once := SyncedTable(stored, siteId, fs, kw, now);
    FilterDistinctKeys(fs, FetchedDate, NewDay(StoredDays(stored, siteId)));
    SyncAccepted(stored, siteId, fs, kw, now);
    SyncedRowsStay(stored, siteId, fs, kw, now);
    UpdatedRows(once, siteId, fs, kw);
    assert Updated(once, siteId, fs, kw) == once;
    FetchedDaysStored(stored, siteId, fs, kw, now);
    FilterNone(fs, NewDay(StoredDays(once, siteId)));
    assert Inserted(once, siteId, fs, kw, later) == [];
  }

  /** The update loop. `stored` is the table as the lookups see it. */
  method UpsertRows(stored: seq<SiteMetric>, siteId: Guid, fs: seq<MetricData>,
                    kw: map<Date, int>, now: Timestamp)
    returns (rows: seq<SiteMetric>, pending: seq<SiteMetric>)
    requires UniqueMetrics(stored)
    ensures rows == Updated(stored, siteId, fs, kw)
    ensures pending == Inserted(stored, siteId, fs, kw, now)
  {
    rows, pending := stored, [];
    var i := 0;
    while i < |fs|
      invariant 0 <= i <= |fs|
      invariant rows == Updated(stored, siteId, fs[..i], kw)
      invariant pending == Inserted(stored, siteId, fs[..i], kw, now)
    {
      var f := fs[i];
      TakeOneMore(fs, i);
      var keywords := KeywordsFor(kw, f.date);
      var existing := FirstIndex(stored, RowAt(siteId, f.date));
      UpdatedStep(stored, siteId, fs[..i], f, kw);
      InsertedStep(stored, siteId, fs[..i], f, kw, now);
      match existing {
        case Some(k) =>
          rows := rows[k := Overwrite(rows[k], f, keywords)];
        case None =>
          pending := pending + [NewRow(siteId, f, keywords, now)];
      }
      i := i + 1;
    }
    assert fs[..i] == fs;
  }

  /** One more fetched entry overwrites the row the lookup finds for its day, if any. */
  lemma UpdatedStep(stored: seq<SiteMetric>, siteId: Guid, fs: seq<MetricData>, f: MetricData,
                    kw: map<Date, int>)
    ensures var prev := Updated(stored, siteId, fs, kw);
      Updated(stored, siteId, fs + [f], kw)
        == match FirstIndex(stored, RowAt(siteId, f.date)) {
             case None => prev
             case Some(k) => prev[k := Overwrite(prev[k], f, KeywordsFor(kw, f.date))]
           }
  {
    assert (fs + [f])[..|fs|] == fs;
  }

  /** One more fetched entry adds a row exactly when the lookup finds none for its day. */
  lemma {:induction false} InsertedStep(stored: seq<SiteMetric>, siteId: Guid, fs: seq<MetricData>,
                                        f: MetricData, kw: map<Date, int>, now: Timestamp)
    requires UniqueMetrics(stored)
    ensures Inserted(stored, siteId, fs + [f], kw, now)
         == Inserted(stored, siteId, fs, kw, now)
            + if FirstIndex(stored, RowAt(siteId, f.date)).None?
              then [NewRow(siteId, f, KeywordsFor(kw, f.date), now)] else []
  {
    var p := NewDay(StoredDays(stored, siteId));
    RowLookup(stored, siteId, f.date);
    FilterAppend(fs, [f], p);
    MapAppend(Filter(fs, p), Filter([f], p), NewRowOf(siteId, kw, now));
  }

  /** The outcome of a sync: an unknown or foreign site is not found; a failed fetch is
      reported with its message; otherwise the save succeeds unless a new day was fetched
      twice, in which case the error handler's own save throws again. */
  function SyncOutcome(sites: seq<Site>, metrics: seq<SiteMetric>, userId: Guid, siteId: Guid,
                       fetched: Result<Fetched>): Result<bool>
  {
    if FirstIndex(sites, OwnedSite(siteId, userId)).None? then Failure("Site not found")
    else if !fetched.Success? then Failure("Sync failed: " + fetched.error)
    else
      var fs := fetched.value.metrics;
      if DistinctKeys(Filter(fs, NewDay(StoredDays(metrics, siteId))), FetchedDate) then Success(true)
      else Thrown(SaveFailed)
  }

  /** A sync of an owned site whose fetch succeeds with pairwise distinct days succeeds. */
  lemma SyncSucceeds(sites: seq<Site>, metrics: seq<SiteMetric>, userId: Guid, siteId: Guid,
                     fetched: Result<Fetched>)
    requires exists s :: s in sites && s.id == siteId && s.userId == userId
    requires fetched.Success? && DistinctKeys(fetched.value.metrics, FetchedDate)
    ensures SyncOutcome(sites, metrics, userId, siteId, fetched) == Success(true)
  {
    var s :| s in sites && s.id == siteId && s.userId == userId;
    var k :| 0 <= k < |sites| && sites[k] == s;
    assert OwnedSite(siteId, userId)(sites[k]);
    FilterDistinctKeys(fetched.value.metrics, FetchedDate, NewDay(StoredDays(metrics, siteId)));
  }

  /** `SyncSiteDataHandler.HandleAsync`. `fetched` is what the Search Console requests
      return (a failure carries the exception message) and `now` is `DateTime.UtcNow`. */
  method SyncSiteData(db: Database, userId: Guid, siteId: Guid, fetched: Result<Fetched>, now: Timestamp)
    returns (r: Result<bool>)
    requires db.Valid()
    modifies db
    ensures db.Valid()
    ensures r == SyncOutcome(old(db.sites), old(db.metrics), userId, siteId, fetched)
    ensures r.Success? ==>
      var i := FirstIndex(old(db.sites), OwnedSite(siteId, userId)).value;
      var fs := fetched.value;
      && db.metrics == SyncedTable(old(db.metrics), siteId, fs.metrics, fs.keywords, now)
      && db.sites == old(db.sites)[i := old(db.sites)[i].(lastSyncedAt := Some(now), syncError := None)]
    ensures r.Failure? && FirstIndex(old(db.sites), OwnedSite(siteId, userId)).Some? ==>
      var i := FirstIndex(old(db.sites), OwnedSite(siteId, userId)).value;
      && db.sites == old(db.sites)[i := old(db.sites)[i].(syncError := Some(fetched.error))]
      && db.metrics == old(db.metrics)
    ensures r.Failure? && FirstIndex(old(db.sites), OwnedSite(siteId, userId)).None? ==> unchanged(db)
    ensures r.Thrown? ==> unchanged(db)
    ensures db.users == old(db.users) && db.groups == old(db.groups) && db.tags == old(db.tags)
      && db.siteTags == old(db.siteTags) && db.preferences == old(db.preferences)
      && db.nextId == old(db.nextId)
  {
    var found := FirstIndex(db.sites, OwnedSite(siteId, userId));
    if found.None? {
      return Failure("Site not found");
    }
    var i := found.value;
    var site := db.sites[i];
    if !fetched.Success? {
      db.sites := db.sites[i := site.(syncError := Some(fetched.error))];
      return Failure("Sync failed: " + fetched.error);
    }
    var saved := SaveFetched(db, siteId, i, fetched.value.metrics, fetched.value.keywords, now);
    if !saved {
      return Thrown(SaveFailed);
    }
    return Success(true);
  }

  /** The loop over the fetched entries and `SaveChanges`: the database takes the synced
      metric table and the site records the sync, unless two new rows share a day. */
  method SaveFetched(db: Database, siteId: Guid, i: nat, fs: seq<MetricData>, kw: map<Date, int>,
                     now: Timestamp) returns (saved: bool)
    requires db.Valid() && i < |db.sites|
    modifies db
    ensures db.Valid()
    ensures saved == DistinctKeys(Filter(fs, NewDay(StoredDays(old(db.metrics), siteId))), FetchedDate)
    ensures saved ==>
      && db.metrics == SyncedTable(old(db.metrics), siteId, fs, kw, now)
      && db.sites == old(db.sites)[i := old(db.sites)[i].(lastSyncedAt := Some(now), syncError := None)]
      && db.users == old(db.users) && db.groups == old(db.groups) && db.tags == old(db.tags)
      && db.siteTags == old(db.siteTags) && db.preferences == old(db.preferences)
      && db.nextId == old(db.nextId)
    ensures !saved ==> unchanged(db)
  {
    var rows, pending := UpsertRows(db.metrics, siteId, fs, kw, now);
    SyncAccepted(db.metrics, siteId, fs, kw, now);
    var table := rows + pending;
    assert table == SyncedTable(db.metrics, siteId, fs, kw, now);
    if !UniqueMetrics(table) {
      return false;
    }
    db.metrics := table;
    db.sites := db.sites[i := db.sites[i].(lastSyncedAt := Some(now), syncError := None)];
    return true;
  }

  function PropertyIs(userId: Guid, propertyId: string): Site -> bool {
    (s: Site) => s.userId == userId && s.propertyId == propertyId
  }

  /** `GetSiteByPropertyIdAsync`: the user's site with exactly this property id. */
  function SiteByPropertyId(sites: seq<Site>, userId: Guid, propertyId: string): (r: Option<Site>)
    ensures r.Some? ==> r.value in sites && r.value.userId == userId && r.value.propertyId == propertyId
    ensures r.None? <==> forall s :: s in sites ==> s.userId != userId || s.propertyId != propertyId
  {
    match FirstIndex(sites, PropertyIs(userId, propertyId)) {
      case None =>
        assert forall s :: s in sites ==> !PropertyIs(userId, propertyId)(s);
        None
      case Some(k) => Some(sites[k])
    }
  }

  /** With the (UserId, PropertyId) index unique, the lookup finds the one such site. */
  lemma SiteByPropertyIdUnique(sites: seq<Site>, userId: Guid, propertyId: string, s: Site)
    requires UniqueSites(sites)
    requires s in sites && s.userId == userId && s.propertyId == propertyId
    ensures SiteByPropertyId(sites, userId, propertyId) == Some(s)
  {
    var r := SiteByPropertyId(sites, userId, propertyId).value;
    var i :| 0 <= i < |sites| && sites[i] == r;
    var j :| 0 <= j < |sites| && sites[j] == s;
  }
}
