/** The dashboard query (`GetDashboardHandler`): the user's sites narrowed by group and
    tag, each with its totals and day series over the date window, ordered as asked,
    with the summary and merged series of the listed sites. */
module Dashboard {
  import opened Common
  import opened Entities
  import opened Seqs
  import opened Text
  import opened Tallies
  import opened Series
  import opened Store
  import opened Discovery

  /** `GetDashboardQuery`. `CompareFrom`/`CompareTo` are accepted by the source but never
      read, so they are not carried. */
  datatype DashboardQuery = DashboardQuery(
    userId: Guid,
    groupId: Option<Guid>,
    tagId: Option<Guid>,
    dateFrom: Date,
    dateTo: Date,
    sortBy: string,
    sortDir: string)

  /** `GetDashboardResponse`. */
  datatype DashboardResponse = DashboardResponse(
    summary: MetricDto,
    timeSeries: seq<TimeSeriesPoint>,
    sites: seq<SiteEntry>,
    totalUserSites: int)

  /** `new GetDashboardResponse()`. */
  const DefaultResponse := DashboardResponse(EmptyMetrics, [], [], 0)

  // ----- Filters -----

  function InGroup(groupId: Guid): Site -> bool {
    (s: Site) => s.groupId == Some(groupId)
  }

  /** `s.SiteTags.Any(st => st.TagId == tagId)`. */
  function HasTag(links: seq<SiteTag>, tagId: Guid): Site -> bool {
    (s: Site) => exists l :: l in links && l.siteId == s.id && l.tagId == tagId
  }

  /** A filter is applied when its id is given and is not `Guid.Empty`. */
  predicate Active(id: Option<Guid>) {
    id.Some? && id.value != EmptyGuid
  }

  function ByGroup(sites: seq<Site>, groupId: Option<Guid>): seq<Site> {
    if Active(groupId) then Filter(sites, InGroup(groupId.value)) else sites
  }

  function ByTag(sites: seq<Site>, links: seq<SiteTag>, tagId: Option<Guid>): seq<Site> {
    if Active(tagId) then Filter(sites, HasTag(links, tagId.value)) else sites
  }

  /** The group filter, then the tag filter. */
  function Narrow(sites: seq<Site>, links: seq<SiteTag>, q: DashboardQuery): seq<Site> {
    ByTag(ByGroup(sites, q.groupId), links, q.tagId)
  }

  /** The filters keep exactly the sites in the requested group that carry the requested
      tag, a filter without an id (or with `Guid.Empty`) keeping every site, and keep
      the sites' order. */
  lemma NarrowSpec(sites: seq<Site>, links: seq<SiteTag>, q: DashboardQuery)
    ensures forall s :: s in Narrow(sites, links, q) <==>
      s in sites
      && (Active(q.groupId) ==> s.groupId == q.groupId)
      && (Active(q.tagId) ==> exists l :: l in links && l.siteId == s.id && l.tagId == q.tagId.value)
    ensures !Active(q.groupId) && !Active(q.tagId) ==> Narrow(sites, links, q) == sites
    ensures multiset(Narrow(sites, links, q)) <= multiset(sites)
  {
    var g := ByGroup(sites, q.groupId);
    if Active(q.groupId) {
      FilterSubMultiset(sites, InGroup(q.groupId.value));
    }
    if Active(q.tagId) {
      FilterSubMultiset(g, HasTag(links, q.tagId.value));
    }
  }

  function SiteIdOf(s: Site): Guid {
    s.id
  }

  function MetricSite(m: SiteMetric): Guid {
    m.siteId
  }

  /** The rows of the listed sites whose day lies in the inclusive window. */
  function InWindow(ids: seq<Guid>, from: Date, to: Date): SiteMetric -> bool {
    (m: SiteMetric) => m.siteId in ids && from <= m.date && m.date <= to
  }

  function Window(metrics: seq<SiteMetric>, sites: seq<Site>, q: DashboardQuery): seq<SiteMetric> {
    Filter(metrics, InWindow(Map(sites, SiteIdOf), q.dateFrom, q.dateTo))
  }

  // ----- Site entries -----

  /** The rows of one site among the window rows. */
  function RowsOf(window: seq<SiteMetric>, siteId: Guid): seq<SiteMetric> {
    Filter(window, KeyIs(MetricSite, siteId))
  }

  /** A site's entry: its fields, one label per tag link, the totals and the day series
      of its window rows. */
  function Entry(s: Site, window: seq<SiteMetric>, links: seq<SiteTag>, tagLabel: SiteTag -> string): SiteEntry {
    var rows := RowsOf(window, s.id);
    SiteEntry(s.id, s.propertyId, s.domain, CalculateTotals(rows), SiteSeries(rows),
              Map(Filter(links, LinkOf(s.id)), tagLabel), s.isFavorite, s.lastSyncedAt, s.syncError)
  }

  function Entries(sites: seq<Site>, window: seq<SiteMetric>, links: seq<SiteTag>,
                   tagLabel: SiteTag -> string): (r: seq<SiteEntry>)
    ensures |r| == |sites|
    ensures forall i :: 0 <= i < |sites| ==> r[i] == Entry(sites[i], window, links, tagLabel)
  {
    if sites == [] then [] else [Entry(sites[0], window, links, tagLabel)] + Entries(sites[1..], window, links, tagLabel)
  }

  /** Tag labels of the current revision: the tag id as text. */
  function TagIdLabel(guidText: Guid -> string): SiteTag -> string {
    (l: SiteTag) => guidText(l.tagId)
  }

  function TagIdIs(tagId: Guid): Tag -> bool {
    (t: Tag) => t.id == tagId
  }

  /** Tag labels of the earlier revision: the name of the linked tag. */
  function TagNameLabel(tags: seq<Tag>): SiteTag -> string {
    (l: SiteTag) =>
      match FirstIndex(tags, TagIdIs(l.tagId)) {
        case Some(i) => tags[i].name
        case None => ""
      }
  }

  // ----- Ordering -----

  datatype SortKey = ByClicks | ByImpressions | ByName

  /** The `sortBy.ToLower()` switch; an unknown key sorts by clicks. */
  function ParseSortKey(sortBy: string): (k: SortKey)
    ensures k == ByImpressions <==> ToLower(sortBy) == "impressions"
    ensures k == ByName <==> ToLower(sortBy) == "name"
  {
    var key := ToLower(sortBy);
    if key == "clicks" then ByClicks
    else if key == "impressions" then ByImpressions
    else if key == "name" then ByName
    else ByClicks
  }

  predicate EntryLe(key: SortKey, a: SiteEntry, b: SiteEntry) {
    match key
    case ByClicks => a.totals.clicks <= b.totals.clicks
    case ByImpressions => a.totals.impressions <= b.totals.impressions
    case ByName => StrLe(a.domain, b.domain)
  }

  function OrderOf(key: SortKey): (SiteEntry, SiteEntry) -> bool {
    (a: SiteEntry, b: SiteEntry) => EntryLe(key, a, b)
  }

  lemma OrderIsTotal(key: SortKey)
    ensures TotalPreorder(OrderOf(key))
  {
    forall a: SiteEntry, b: SiteEntry
      ensures EntryLe(key, a, b) || EntryLe(key, b, a)
    {
      StrLeTotal(a.domain, b.domain);
    }
    forall a: SiteEntry, b: SiteEntry, c: SiteEntry | EntryLe(key, a, b) && EntryLe(key, b, c)
      ensures EntryLe(key, a, c)
    {
      if key == ByName {
        StrLeTrans(a.domain, b.domain, c.domain);
      }
    }
  }

  /** `SortSites`: the entries in ascending order of the key, the whole list reversed when
      the direction is "desc" in any case. */
  function SortSites(entries: seq<SiteEntry>, sortBy: string, sortDir: string): (r: seq<SiteEntry>)
    ensures multiset(r) == multiset(entries)
    ensures ToLower(sortDir) != "desc" ==> Sorted(r, OrderOf(ParseSortKey(sortBy)))
    ensures ToLower(sortDir) == "desc" ==>
      forall i, j :: 0 <= i < j < |r| ==> EntryLe(ParseSortKey(sortBy), r[j], r[i])
  {
    var key := ParseSortKey(sortBy);
    var sorted := SortBy(entries, OrderOf(key));
    SortByPermutes(entries, OrderOf(key));
    OrderIsTotal(key);
    SortBySorted(entries, OrderOf(key));
    ReversePermutes(sorted);
    if ToLower(sortDir) == "desc" then Reverse(sorted) else sorted
  }

  /** The descending order is exactly the ascending order reversed. */
  lemma SortDescReverses(entries: seq<SiteEntry>, sortBy: string, sortDir: string)
    requires ToLower(sortDir) == "desc"
    ensures SortSites(entries, sortBy, sortDir) == Reverse(SortSites(entries, sortBy, "asc"))
  {
    assert ToLower("asc") == "asc";
  }

  /** Key and direction are read case-insensitively. */
  lemma SortCaseInsensitive(entries: seq<SiteEntry>, sortBy: string, sortDir: string)
    ensures SortSites(entries, sortBy, sortDir) == SortSites(entries, ToLower(sortBy), ToLower(sortDir))
  {
    ToLowerIdempotent(sortBy);
    ToLowerIdempotent(sortDir);
  }

  // ----- Aggregates -----

  function EntryTally(e: SiteEntry): Tally {
    OfDto(e.totals)
  }

  /** `CalculateSummary`: the sums of the entries' totals, with the position weighted by
      each entry's impressions, finished by the zero-guarded ratios. */
  function CalculateSummary(entries: seq<SiteEntry>): (m: MetricDto)
    ensures SameCounts(OfDto(m), Sum(entries, EntryTally))
    ensures m.impressions <= 0 ==> m.ctr == 0.0 && m.avgPosition == 0.0
  {
    FinishRestores(Sum(entries, EntryTally));
    Finish(Sum(entries, EntryTally))
  }

  // ----- The response -----

  /** The response for a database holding `sites`, `links` and `metrics` (after any
      discovery): the count of the user's sites taken before filtering, the bare count
      when the filters leave nothing, and otherwise the ordered entries with their
      summary and merged series. */
  function Compose(sites: seq<Site>, links: seq<SiteTag>, metrics: seq<SiteMetric>,
                   tagLabel: SiteTag -> string, q: DashboardQuery): DashboardResponse
  {
    var own := Filter(sites, SiteOf(q.userId));
    var total := |own|;
    var listed := Narrow(own, links, q);
    if |listed| == 0 && total > 0 then DashboardResponse(EmptyMetrics, [], [], total)
    else if |listed| == 0 then DefaultResponse
    else Report(listed, links, metrics, tagLabel, q, total)
  }

  /** The response listing the sites `listed`: one entry per site, ordered as asked, with
      their summary and merged series. */
  function Report(listed: seq<Site>, links: seq<SiteTag>, metrics: seq<SiteMetric>,
                  tagLabel: SiteTag -> string, q: DashboardQuery, total: int): (r: DashboardResponse)
    ensures r.totalUserSites == total
    ensures |r.sites| == |listed|
  {
    var window := Window(metrics, listed, q);
    var entries := SortSites(Entries(listed, window, links, tagLabel), q.sortBy, q.sortDir);
    assert |entries| == |multiset(entries)| == |Entries(listed, window, links, tagLabel)|;
    DashboardResponse(CalculateSummary(entries), AggregateTimeSeries(entries), entries, total)
  }

  /** `TotalUserSites` counts the user's sites before filtering, and the response lists no
      site exactly when the filters leave none, in which case it carries only that
      count (the default response when the user has no site). */
  lemma ComposeCounts(sites: seq<Site>, links: seq<SiteTag>, metrics: seq<SiteMetric>,
                      tagLabel: SiteTag -> string, q: DashboardQuery)
    ensures var r := Compose(sites, links, metrics, tagLabel, q);
      r.totalUserSites == |Filter(sites, SiteOf(q.userId))|
    ensures var r := Compose(sites, links, metrics, tagLabel, q);
      var listed := Narrow(Filter(sites, SiteOf(q.userId)), links, q);
      && (r.sites == [] <==> listed == [])
      && (listed == [] ==> r == DashboardResponse(EmptyMetrics, [], [], r.totalUserSites))
      && (Filter(sites, SiteOf(q.userId)) == [] ==> r == DefaultResponse)
    ensures var r := Compose(sites, links, metrics, tagLabel, q);
      |r.sites| == |Narrow(Filter(sites, SiteOf(q.userId)), links, q)|
  {
    var own := Filter(sites, SiteOf(q.userId));
    NarrowSpec(own, links, q);
    if own == [] {
      assert Narrow(own, links, q) == [];
    }
  }

  /** The first step of `GetDashboardHandler.HandleAsync`: site discovery for a user with
      no site at all, when the Google client credentials are configured. Discovery only
      appends sites; its outcome is not reported. */
  method DiscoverWhenNoSites(db: Database, userId: Guid, clientId: Option<string>,
                             clientSecret: Option<string>, remote: Result<seq<string>>,
                             hostOf: string -> string, now: Timestamp)
    requires db.Valid()
    modifies db
    ensures db.Valid()
    ensures (Filter(old(db.sites), SiteOf(userId)) != [] || IsNullOrEmpty(clientId)
             || IsNullOrEmpty(clientSecret)) ==> unchanged(db)
    ensures old(db.sites) <= db.sites
    ensures db.users == old(db.users) && db.groups == old(db.groups) && db.tags == old(db.tags)
      && db.siteTags == old(db.siteTags) && db.metrics == old(db.metrics)
      && db.preferences == old(db.preferences)
  {
    if |Filter(db.sites, SiteOf(userId))| == 0 && !IsNullOrEmpty(clientId) && !IsNullOrEmpty(clientSecret) {
      var discovered := DiscoverSites(db, userId, remote, hostOf, now);
    }
  }

  /** `GetDashboardHandler.HandleAsync`. `clientId` and `clientSecret` are the configured
      Google client credentials; `remote`, `hostOf` and `now` are passed on to site
      discovery, which runs only for a user with no site at all and configured
      credentials, after which the sites are read again. The response is then composed
      from the database as it stands; no other table changes. */
  method GetDashboard(db: Database, q: DashboardQuery, tagLabel: SiteTag -> string,
                      clientId: Option<string>, clientSecret: Option<string>,
                      remote: Result<seq<string>>, hostOf: string -> string, now: Timestamp)
    returns (r: Result<DashboardResponse>)
    requires db.Valid()
    modifies db
    ensures db.Valid()
    ensures r == Success(Compose(db.sites, db.siteTags, db.metrics, tagLabel, q))
    ensures (Filter(old(db.sites), SiteOf(q.userId)) != [] || IsNullOrEmpty(clientId)
             || IsNullOrEmpty(clientSecret)) ==> unchanged(db)
    ensures old(db.sites) <= db.sites
    ensures db.users == old(db.users) && db.groups == old(db.groups) && db.tags == old(db.tags)
      && db.siteTags == old(db.siteTags) && db.metrics == old(db.metrics)
      && db.preferences == old(db.preferences)
  {
    DiscoverWhenNoSites(db, q.userId, clientId, clientSecret, remote, hostOf, now);
    var own := Filter(db.sites, SiteOf(q.userId));
    var total := |own|;
    var listed := own;
    if Active(q.groupId) {
      listed := Filter(listed, InGroup(q.groupId.value));
    }
    if Active(q.tagId) {
      listed := Filter(listed, HasTag(db.siteTags, q.tagId.value));
    }
    assert listed == Narrow(own, db.siteTags, q);
    if |listed| == 0 && total > 0 {
      return Success(DashboardResponse(EmptyMetrics, [], [], total));
    }
    if |listed| == 0 {
      return Success(DefaultResponse);
    }
    return Success(Report(listed, db.siteTags, db.metrics, tagLabel, q, total));
  }

  // ----- What the response adds up to -----

  /** An entry whose series adds up to the same counts as its totals. */
  predicate Consistent(e: SiteEntry) {
    SameCounts(Sum(e.timeSeries, OfPoint), EntryTally(e))
  }

  /** A site's totals and series both add up its window rows: the counts always, and the
      weighted position too when no row has negative impressions. */
  lemma EntryFigures(s: Site, window: seq<SiteMetric>, links: seq<SiteTag>, tagLabel: SiteTag -> string)
    ensures Consistent(Entry(s, window, links, tagLabel))
    ensures SameCounts(EntryTally(Entry(s, window, links, tagLabel)), Sum(RowsOf(window, s.id), OfMetric))
    ensures NonNegative(window) ==>
      EntryTally(Entry(s, window, links, tagLabel)) == Sum(RowsOf(window, s.id), OfMetric)
  {
    var rows := RowsOf(window, s.id);
    SiteSeriesSpec(rows);
    FinishRestores(Sum(rows, OfMetric));
    if NonNegative(window) {
      RowsProper(rows);
    }
  }

  /** The entries of the listed sites add up, site by site, the window rows of each. */
  lemma {:induction false} EntriesSum(listed: seq<Site>, window: seq<SiteMetric>, links: seq<SiteTag>,
                                      tagLabel: SiteTag -> string)
    ensures SameCounts(Sum(Entries(listed, window, links, tagLabel), EntryTally),
                       SumPerKey(window, MetricSite, Map(listed, SiteIdOf), OfMetric))
    ensures NonNegative(window) ==>
      Sum(Entries(listed, window, links, tagLabel), EntryTally)
        == SumPerKey(window, MetricSite, Map(listed, SiteIdOf), OfMetric)
  {
    if listed != [] {
      var es := Entries(listed, window, links, tagLabel);
      EntriesSum(listed[1..], window, links, tagLabel);
      EntryFigures(listed[0], window, links, tagLabel);
      assert es[1..] == Entries(listed[1..], window, links, tagLabel);
      assert Map(listed, SiteIdOf)[1..] == Map(listed[1..], SiteIdOf);
    }
  }

  /** Site ids that are distinct in the table stay distinct in any filtered list. */
  lemma DistinctIds(sites: seq<Site>)
    requires DistinctKeys(sites, SiteIdOf)
    ensures Distinct(Map(sites, SiteIdOf))
  {
  }

  /** The summary adds up every window row of the listed sites: the same clicks,
      impressions and keyword counts, and, when no row has negative impressions, exactly
      the totals of those rows. */
  lemma SummaryIsWindowTotals(listed: seq<Site>, links: seq<SiteTag>, metrics: seq<SiteMetric>,
                              tagLabel: SiteTag -> string, q: DashboardQuery, total: int)
    requires DistinctKeys(listed, SiteIdOf)
    ensures var r := Report(listed, links, metrics, tagLabel, q, total);
      SameCounts(OfDto(r.summary), Sum(Window(metrics, listed, q), OfMetric))
    ensures NonNegative(metrics) ==>
      Report(listed, links, metrics, tagLabel, q, total).summary
        == CalculateTotals(Window(metrics, listed, q))
  {
    var window := Window(metrics, listed, q);
    var ids := Map(listed, SiteIdOf);
    var es := Entries(listed, window, links, tagLabel);
    var entries := SortSites(es, q.sortBy, q.sortDir);
    SumPermutation(entries, es, EntryTally);
    EntriesSum(listed, window, links, tagLabel);
    DistinctIds(listed);
    forall m | m in window
      ensures MetricSite(m) in ids
    {
    }
    PartitionSum(window, MetricSite, ids, OfMetric);
    var t := Sum(entries, EntryTally);
    FinishRestores(t);
    if NonNegative(metrics) {
      assert NonNegative(window);
      assert t == Sum(window, OfMetric);
    }
  }

  /** The merged series adds up to the summary: the same clicks, impressions and keyword
      counts. */
  lemma SeriesMatchesSummary(listed: seq<Site>, links: seq<SiteTag>, metrics: seq<SiteMetric>,
                             tagLabel: SiteTag -> string, q: DashboardQuery, total: int)
    ensures var r := Report(listed, links, metrics, tagLabel, q, total);
      SameCounts(Sum(r.timeSeries, OfPoint), OfDto(r.summary))
  {
    var window := Window(metrics, listed, q);
    var es := Entries(listed, window, links, tagLabel);
    var entries := SortSites(es, q.sortBy, q.sortDir);
    forall e | e in entries
      ensures Consistent(e)
    {
      assert e in multiset(es);
      var i :| 0 <= i < |es| && es[i] == e;
      EntryFigures(listed[i], window, links, tagLabel);
    }
    FlattenCounts(entries);
    AggregateTotals(entries);
  }

  lemma {:induction false} FlattenCounts(es: seq<SiteEntry>)
    requires forall e :: e in es ==> Consistent(e)
    ensures SameCounts(Sum(Flatten(es), OfPoint), Sum(es, EntryTally))
  {
    if es != [] {
      var head, tail := es[0], es[1..];
      assert Consistent(head) by {
        assert head in es;
      }
      assert forall e :: e in tail ==> Consistent(e) by {
        forall e | e in tail
          ensures Consistent(e)
        {
          assert e in es;
        }
      }
      FlattenCounts(tail);
      assert Flatten(es) == head.timeSeries + Flatten(tail);
      SumAppend(head.timeSeries, Flatten(tail), OfPoint);
      PlusCounts(Sum(head.timeSeries, OfPoint), Sum(Flatten(tail), OfPoint),
                 EntryTally(head), Sum(tail, EntryTally));
    }
  }

  /** A point is in the flattened series exactly when it is in some entry's series. */
  lemma {:induction false} FlattenMembers(es: seq<SiteEntry>, p: TimeSeriesPoint)
    ensures p in Flatten(es) <==> exists e :: e in es && p in e.timeSeries
  {
    if es != [] {
      FlattenMembers(es[1..], p);
      assert Flatten(es) == es[0].timeSeries + Flatten(es[1..]);
      assert forall e :: e in es <==> e == es[0] || e in es[1..];
    }
  }

  /** Every day of a listed site's window row lands in the merged series. */
  lemma RowDayListed(listed: seq<Site>, window: seq<SiteMetric>, links: seq<SiteTag>,
                     tagLabel: SiteTag -> string, entries: seq<SiteEntry>, m: SiteMetric)
    requires multiset(entries) == multiset(Entries(listed, window, links, tagLabel))
    requires m in window && m.siteId in Map(listed, SiteIdOf)
    ensures PointOf(m) in Flatten(entries)
  {
    var es := Entries(listed, window, links, tagLabel);
    var i :| 0 <= i < |listed| && Map(listed, SiteIdOf)[i] == m.siteId;
    var rows := RowsOf(window, listed[i].id);
    assert KeyIs(MetricSite, listed[i].id)(m);
    assert m in rows;
    SiteSeriesSpec(rows);
    assert PointOf(m) in es[i].timeSeries;
    assert es[i] in multiset(entries);
    FlattenMembers(entries, PointOf(m));
  }

  /** Every point of the merged entries is the point of a window row. */
  lemma PointFromRow(listed: seq<Site>, window: seq<SiteMetric>, links: seq<SiteTag>,
                     tagLabel: SiteTag -> string, entries: seq<SiteEntry>, p: TimeSeriesPoint)
    requires multiset(entries) == multiset(Entries(listed, window, links, tagLabel))
    requires p in Flatten(entries)
    ensures exists m :: m in window && p == PointOf(m)
  {
    var es := Entries(listed, window, links, tagLabel);
    FlattenMembers(entries, p);
    var e :| e in entries && p in e.timeSeries;
    assert e in multiset(es);
    var i :| 0 <= i < |es| && es[i] == e;
    var rows := RowsOf(window, listed[i].id);
    SiteSeriesSpec(rows);
    var m :| m in rows && p == PointOf(m);
    assert m in window;
  }

  /** The days of the merged entries' points are the days of the window rows. */
  lemma FlattenDays(listed: seq<Site>, window: seq<SiteMetric>, links: seq<SiteTag>,
                    tagLabel: SiteTag -> string, entries: seq<SiteEntry>)
    requires multiset(entries) == multiset(Entries(listed, window, links, tagLabel))
    requires forall m :: m in window ==> m.siteId in Map(listed, SiteIdOf)
    ensures (set p | p in Flatten(entries) :: p.date) == (set m | m in window :: m.date)
  {
    var flatDays := set p | p in Flatten(entries) :: p.date;
    var rowDays := set m | m in window :: m.date;
    forall d | d in flatDays
      ensures d in rowDays
    {
      var p :| p in Flatten(entries) && p.date == d;
      PointFromRow(listed, window, links, tagLabel, entries, p);
    }
    forall d | d in rowDays
      ensures d in flatDays
    {
      var m :| m in window && m.date == d;
      RowDayListed(listed, window, links, tagLabel, entries, m);
      assert PointOf(m).date == d;
    }
  }

  /** The merged series has one point per day on which some listed site has a row in the
      window, in strictly ascending order of day. */
  lemma SeriesDays(listed: seq<Site>, links: seq<SiteTag>, metrics: seq<SiteMetric>,
                   tagLabel: SiteTag -> string, q: DashboardQuery, total: int)
    ensures var r := Report(listed, links, metrics, tagLabel, q, total);
      (set p | p in r.timeSeries :: p.date) == (set m | m in Window(metrics, listed, q) :: m.date)
    ensures var r := Report(listed, links, metrics, tagLabel, q, total);
      forall i, j :: 0 <= i < j < |r.timeSeries| ==> r.timeSeries[i].date < r.timeSeries[j].date
  {
    var window := Window(metrics, listed, q);
    var es := Entries(listed, window, links, tagLabel);
    var entries := SortSites(es, q.sortBy, q.sortDir);
    AggregateOrdered(entries);
    AggregateDates(entries);
    forall m | m in window
      ensures m.siteId in Map(listed, SiteIdOf)
    {
      assert InWindow(Map(listed, SiteIdOf), q.dateFrom, q.dateTo)(m);
    }
    FlattenDays(listed, window, links, tagLabel, entries);
  }

  /** A site's entry contributes to a day exactly its window rows of that day. */
  lemma EntryDay(s: Site, window: seq<SiteMetric>, links: seq<SiteTag>, tagLabel: SiteTag -> string, d: Date)
    ensures DayTally(d)(Entry(s, window, links, tagLabel)) == Sum(RowsOf(DayRows(window, d), s.id), OfMetric)
  {
    var rows := RowsOf(window, s.id);
    SiteSeriesDay(rows, d);
    FilterCommute(window, KeyIs(MetricSite, s.id), KeyIs(RowDate, d));
  }

  /** The entries of the listed sites contribute to a day, site by site, the window rows
      of that day of each. */
  lemma {:induction false} EntriesDay(listed: seq<Site>, window: seq<SiteMetric>, links: seq<SiteTag>,
                                      tagLabel: SiteTag -> string, d: Date)
    ensures Sum(Entries(listed, window, links, tagLabel), DayTally(d))
         == SumPerKey(DayRows(window, d), MetricSite, Map(listed, SiteIdOf), OfMetric)
  {
    if listed != [] {
      var es := Entries(listed, window, links, tagLabel);
      EntriesDay(listed[1..], window, links, tagLabel, d);
      EntryDay(listed[0], window, links, tagLabel, d);
      assert es[1..] == Entries(listed[1..], window, links, tagLabel);
      assert Map(listed, SiteIdOf)[1..] == Map(listed[1..], SiteIdOf);
    }
  }

  /** Each point of the merged series is the totals of its day: the clicks, impressions,
      keyword count, click-through rate and weighted position that `CalculateTotals`
      gives for the window rows of that day of all listed sites. */
  lemma SeriesPointIsDayTotals(listed: seq<Site>, links: seq<SiteTag>, metrics: seq<SiteMetric>,
                               tagLabel: SiteTag -> string, q: DashboardQuery, total: int)
    requires DistinctKeys(listed, SiteIdOf)
    ensures var r := Report(listed, links, metrics, tagLabel, q, total);
      forall i :: 0 <= i < |r.timeSeries| ==>
        PointTotals(r.timeSeries[i])
          == CalculateTotals(DayRows(Window(metrics, listed, q), r.timeSeries[i].date))
  {
    var window := Window(metrics, listed, q);
    var ids := Map(listed, SiteIdOf);
    var es := Entries(listed, window, links, tagLabel);
    var entries := SortSites(es, q.sortBy, q.sortDir);
    var pts := Flatten(entries);
    var series := AggregateTimeSeries(entries);
    DistinctIds(listed);
    forall i | 0 <= i < |series|
      ensures PointTotals(series[i]) == CalculateTotals(DayRows(window, series[i].date))
    {
      var d := series[i].date;
      assert series[i] == Bucket(pts, d);
      FlattenDay(entries, d);
      SumPermutation(entries, es, DayTally(d));
      EntriesDay(listed, window, links, tagLabel, d);
      forall m | m in DayRows(window, d)
        ensures MetricSite(m) in ids
      {
        assert InWindow(ids, q.dateFrom, q.dateTo)(m);
      }
      PartitionSum(DayRows(window, d), MetricSite, ids, OfMetric);
    }
  }

  /** The order among sites ranked level by the key is the input order, reversed as a
      whole for "desc": `OrderBy` is a stable sort. */
  lemma SortSitesStable(entries: seq<SiteEntry>, sortBy: string, sortDir: string, e: SiteEntry)
    ensures var level := LevelWith(OrderOf(ParseSortKey(sortBy)), e);
      ToLower(sortDir) != "desc" ==> Filter(SortSites(entries, sortBy, sortDir), level) == Filter(entries, level)
    ensures var level := LevelWith(OrderOf(ParseSortKey(sortBy)), e);
      ToLower(sortDir) == "desc" ==>
        Filter(SortSites(entries, sortBy, sortDir), level) == Reverse(Filter(entries, level))
  {
    var key := ParseSortKey(sortBy);
    var level := LevelWith(OrderOf(key), e);
    OrderIsTotal(key);
    SortByStable(entries, OrderOf(key), e);
    FilterReverse(SortBy(entries, OrderOf(key)), level);
  }
}
