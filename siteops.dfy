/** The per-site commands: replacing a site's tags (`UpdateSiteTagsHandler`), marking it
    favourite (`ToggleFavoriteHandler`) and exporting its figures (`ExportSiteDataHandler`). */
module SiteOps {
  import opened Common
  import opened Entities
  import opened Seqs
  import opened Store
  import opened Series

  // ----- Tags of a site -----

  function TagIdOf(t: Tag): Guid {
    t.id
  }

  function LinkTag(l: SiteTag): Guid {
    l.tagId
  }

  /** `t.UserId == userId && tagIds.Contains(t.Id)`. */
  function RequestedTag(userId: Guid, tagIds: seq<Guid>): Tag -> bool {
    (t: Tag) => t.userId == userId && t.id in tagIds
  }

  /** Every requested id is the id of one of the user's tags. */
  predicate AllUserTags(tags: seq<Tag>, userId: Guid, tagIds: seq<Guid>) {
    forall id :: id in tagIds ==> exists t :: t in tags && t.userId == userId && t.id == id
  }

  /** The ids of the matching tags are distinct requested ids. */
  lemma MatchingIds(tags: seq<Tag>, userId: Guid, tagIds: seq<Guid>)
    requires UniqueTags(tags)
    ensures var ids := Map(Filter(tags, RequestedTag(userId, tagIds)), TagIdOf);
      && Distinct(ids)
      && |Elements(ids)| == |Filter(tags, RequestedTag(userId, tagIds))|
      && Elements(ids) <= Elements(tagIds)
      && (forall id :: id in Elements(ids) <==> exists t :: t in tags && t.userId == userId && t.id == id && id in tagIds)
  {
    var valid := Filter(tags, RequestedTag(userId, tagIds));
    var ids := Map(valid, TagIdOf);
    FilterDistinctKeys(tags, TagIdOf, RequestedTag(userId, tagIds));
    ElementsCard(ids);
    forall id
      ensures id in Elements(ids) <==> exists t :: t in tags && t.userId == userId && t.id == id && id in tagIds
    {
      if id in Elements(ids) {
        var k :| 0 <= k < |ids| && ids[k] == id;
        assert RequestedTag(userId, tagIds)(valid[k]);
        assert valid[k] in tags;
      }
      if exists t :: t in tags && t.userId == userId && t.id == id && id in tagIds {
        var t :| t in tags && t.userId == userId && t.id == id && id in tagIds;
        assert t in valid;
        var k :| 0 <= k < |valid| && valid[k] == t;
        assert ids[k] == id;
      }
    }
  }

  /** The count check `validTags.Count == TagIds.Count` passes exactly when every requested
      id is a tag of the user and no id is requested twice: the stored tags have distinct
      ids, so each requested id is counted at most once. */
  lemma TagCountCheck(tags: seq<Tag>, userId: Guid, tagIds: seq<Guid>)
    requires UniqueTags(tags)
    ensures |Filter(tags, RequestedTag(userId, tagIds))| == |tagIds|
        <==> AllUserTags(tags, userId, tagIds) && Distinct(tagIds)
  {
    if |Filter(tags, RequestedTag(userId, tagIds))| == |tagIds| {
      CountCheckMeans(tags, userId, tagIds);
    }
    if AllUserTags(tags, userId, tagIds) && Distinct(tagIds) {
      CountCheckPasses(tags, userId, tagIds);
    }
  }

  lemma CountCheckMeans(tags: seq<Tag>, userId: Guid, tagIds: seq<Guid>)
    requires UniqueTags(tags)
    requires |Filter(tags, RequestedTag(userId, tagIds))| == |tagIds|
    ensures AllUserTags(tags, userId, tagIds) && Distinct(tagIds)
  {
    var ids := Map(Filter(tags, RequestedTag(userId, tagIds)), TagIdOf);
    MatchingIds(tags, userId, tagIds);
    ElementsCard(tagIds);
    SubsetSmaller(Elements(ids), Elements(tagIds));
    SubsetCard(Elements(ids), Elements(tagIds));
    forall id | id in tagIds
      ensures exists t :: t in tags && t.userId == userId && t.id == id
    {
      assert id in Elements(ids);
    }
  }

  lemma CountCheckPasses(tags: seq<Tag>, userId: Guid, tagIds: seq<Guid>)
    requires UniqueTags(tags)
    requires AllUserTags(tags, userId, tagIds) && Distinct(tagIds)
    ensures |Filter(tags, RequestedTag(userId, tagIds))| == |tagIds|
  {
    var ids := Map(Filter(tags, RequestedTag(userId, tagIds)), TagIdOf);
    MatchingIds(tags, userId, tagIds);
    ElementsCard(tagIds);
    forall id | id in Elements(tagIds)
      ensures id in Elements(ids)
    {
      var t :| t in tags && t.userId == userId && t.id == id;
    }
    assert Elements(ids) == Elements(tagIds);
  }

  function NewLink(siteId: Guid, now: Timestamp): Guid -> SiteTag {
    (tagId: Guid) => SiteTag(siteId, tagId, now)
  }

  function NotLinkOf(siteId: Guid): SiteTag -> bool {
    (l: SiteTag) => l.siteId != siteId
  }

  /** The links after the replacement: the site's old links removed, one new link per
      requested id appended. */
  function Relinked(links: seq<SiteTag>, siteId: Guid, tagIds: seq<Guid>, now: Timestamp): seq<SiteTag> {
    Filter(links, NotLinkOf(siteId)) + Map(tagIds, NewLink(siteId, now))
  }

  /** After the replacement the site's tags are exactly the requested ids, in order; the
      links of every other site are kept; and with distinct ids the links stay unique. */
  lemma RelinkedSpec(links: seq<SiteTag>, siteId: Guid, tagIds: seq<Guid>, now: Timestamp)
    ensures Map(Filter(Relinked(links, siteId, tagIds, now), LinkOf(siteId)), LinkTag) == tagIds
    ensures forall other :: other != siteId ==>
      Filter(Relinked(links, siteId, tagIds, now), LinkOf(other)) == Filter(links, LinkOf(other))
    ensures UniqueLinks(links) && Distinct(tagIds) ==> UniqueLinks(Relinked(links, siteId, tagIds, now))
  {
    RelinkedOwn(links, siteId, tagIds, now);
    forall other | other != siteId
      ensures Filter(Relinked(links, siteId, tagIds, now), LinkOf(other)) == Filter(links, LinkOf(other))
    {
      RelinkedOther(links, siteId, tagIds, now, other);
    }
    if UniqueLinks(links) && Distinct(tagIds) {
      RelinkedUnique(links, siteId, tagIds, now);
    }
  }

  lemma RelinkedOwn(links: seq<SiteTag>, siteId: Guid, tagIds: seq<Guid>, now: Timestamp)
    ensures Map(Filter(Relinked(links, siteId, tagIds, now), LinkOf(siteId)), LinkTag) == tagIds
  {
    var kept := Filter(links, NotLinkOf(siteId));
    var added := Map(tagIds, NewLink(siteId, now));
    FilterAppend(kept, added, LinkOf(siteId));
    FilterNone(kept, LinkOf(siteId));
    FilterKeepsAll(added, LinkOf(siteId));
    MapTagIds(tagIds, siteId, now);
  }

  lemma RelinkedOther(links: seq<SiteTag>, siteId: Guid, tagIds: seq<Guid>, now: Timestamp, other: Guid)
    requires other != siteId
    ensures Filter(Relinked(links, siteId, tagIds, now), LinkOf(other)) == Filter(links, LinkOf(other))
  {
    var kept := Filter(links, NotLinkOf(siteId));
    var added := Map(tagIds, NewLink(siteId, now));
    FilterAppend(kept, added, LinkOf(other));
    FilterNone(added, LinkOf(other));
    FilterComposed(links, siteId, other);
  }

  lemma RelinkedUnique(links: seq<SiteTag>, siteId: Guid, tagIds: seq<Guid>, now: Timestamp)
    requires UniqueLinks(links) && Distinct(tagIds)
    ensures UniqueLinks(Relinked(links, siteId, tagIds, now))
  {
    var kept := Filter(links, NotLinkOf(siteId));
    var added := Map(tagIds, NewLink(siteId, now));
    FilterUniqueLinks(links, NotLinkOf(siteId));
    var all := kept + added;
    forall i, j | 0 <= i < j < |all|
      ensures all[i].siteId != all[j].siteId || all[i].tagId != all[j].tagId
    {
      if i < |kept| && j >= |kept| {
        assert NotLinkOf(siteId)(kept[i]);
      }
    }
  }

  lemma MapTagIds(tagIds: seq<Guid>, siteId: Guid, now: Timestamp)
    ensures Map(Map(tagIds, NewLink(siteId, now)), LinkTag) == tagIds
  {
  }

  /** Keeping the links of `other` after dropping those of `siteId` keeps the links of `other`. */
  lemma {:induction false} FilterComposed(links: seq<SiteTag>, siteId: Guid, other: Guid)
    requires other != siteId
    ensures Filter(Filter(links, NotLinkOf(siteId)), LinkOf(other)) == Filter(links, LinkOf(other))
  {
    if links != [] {
      var h, t := links[0], links[1..];
      FilterComposed(t, siteId, other);
      var rest := Filter(t, NotLinkOf(siteId));
      if h.siteId != siteId {
        assert Filter(links, NotLinkOf(siteId)) == [h] + rest;
        assert ([h] + rest)[1..] == rest;
      } else {
        assert Filter(links, NotLinkOf(siteId)) == rest;
      }
    }
  }

  /** The outcome of replacing a site's tags: the site must be the user's, and the
      requested ids must all be the user's tags, each requested once. */
  function SiteTagsOutcome(sites: seq<Site>, tags: seq<Tag>, userId: Guid, siteId: Guid,
                           tagIds: seq<Guid>): Result<bool>
  {
    if FirstIndex(sites, OwnedSite(siteId, userId)).None? then Failure("Site not found")
    else if |Filter(tags, RequestedTag(userId, tagIds))| != |tagIds| then Failure("Some tags not found")
    else Success(true)
  }

  /** The replacement fails exactly for a site that is not the user's, and then for a
      requested id that is unknown, another user's, or requested twice; an empty list of
      ids succeeds. */
  lemma SiteTagsOutcomeSpec(sites: seq<Site>, tags: seq<Tag>, userId: Guid, siteId: Guid,
                            tagIds: seq<Guid>)
    requires UniqueTags(tags)
    ensures var r := SiteTagsOutcome(sites, tags, userId, siteId, tagIds);
      && (r == Failure("Site not found") <==> !exists s :: s in sites && s.id == siteId && s.userId == userId)
      && (r.Success? <==>
            (exists s :: s in sites && s.id == siteId && s.userId == userId)
            && AllUserTags(tags, userId, tagIds) && Distinct(tagIds))
  {
    var found := FirstIndex(sites, OwnedSite(siteId, userId));
    if found.None? {
      assert forall s :: s in sites ==> !OwnedSite(siteId, userId)(s);
    } else {
      assert OwnedSite(siteId, userId)(sites[found.value]);
    }
    TagCountCheck(tags, userId, tagIds);
  }

  /** The loop adding one link per requested id. */
  method AddLinks(links: seq<SiteTag>, siteId: Guid, tagIds: seq<Guid>, now: Timestamp)
    returns (r: seq<SiteTag>)
    ensures r == links + Map(tagIds, NewLink(siteId, now))
  {
    r := links;
    var k := 0;
    while k < |tagIds|
      invariant 0 <= k <= |tagIds|
      invariant r == links + Map(tagIds[..k], NewLink(siteId, now))
    {
      TakeOneMore(tagIds, k);
      MapAppend(tagIds[..k], [tagIds[k]], NewLink(siteId, now));
      r := r + [SiteTag(siteId, tagIds[k], now)];
      k := k + 1;
    }
    assert tagIds[..k] == tagIds;
  }

  /** `UpdateSiteTagsHandler.HandleAsync`. `now` is `DateTime.UtcNow`. */
  method UpdateSiteTags(db: Database, userId: Guid, siteId: Guid, tagIds: seq<Guid>, now: Timestamp)
    returns (r: Result<bool>)
    requires db.Valid()
    modifies db
    ensures db.Valid()
    ensures r == SiteTagsOutcome(old(db.sites), old(db.tags), userId, siteId, tagIds)
    ensures !r.Success? ==> unchanged(db)
    ensures r.Success? ==> db.siteTags == Relinked(old(db.siteTags), siteId, tagIds, now)
    ensures db.users == old(db.users) && db.groups == old(db.groups) && db.tags == old(db.tags)
      && db.sites == old(db.sites) && db.metrics == old(db.metrics)
      && db.preferences == old(db.preferences) && db.nextId == old(db.nextId)
  {
    var found := FirstIndex(db.sites, OwnedSite(siteId, userId));
    if found.None? {
      return Failure("Site not found");
    }
    var valid := Filter(db.tags, RequestedTag(userId, tagIds));
    if |valid| != |tagIds| {
      return Failure("Some tags not found");
    }
    TagCountCheck(db.tags, userId, tagIds);
    RelinkedUnique(db.siteTags, siteId, tagIds, now);
    var links := AddLinks(Filter(db.siteTags, NotLinkOf(siteId)), siteId, tagIds, now);
    db.siteTags := links;
    return Success(true);
  }

  // ----- Favourite -----

  /** The sites after marking the user's site `siteId` favourite or not; no change when the
      user has no such site. */
  function SetFavorite(sites: seq<Site>, userId: Guid, siteId: Guid, isFavorite: bool): seq<Site> {
    match FirstIndex(sites, OwnedSite(siteId, userId)) {
      case None => sites
      case Some(i) => sites[i := sites[i].(isFavorite := isFavorite)]
    }
  }

  /** Marking changes only the flag, only of the user's site `siteId` (of every one of its
      rows when the ids are unique), to the requested value; marking again with the same
      value changes nothing. */
  lemma SetFavoriteSpec(sites: seq<Site>, userId: Guid, siteId: Guid, isFavorite: bool)
    ensures var r := SetFavorite(sites, userId, siteId, isFavorite);
      && |r| == |sites|
      && (forall i :: 0 <= i < |sites| ==> r[i].(isFavorite := sites[i].isFavorite) == sites[i])
      && (forall i :: 0 <= i < |sites| && !(sites[i].id == siteId && sites[i].userId == userId) ==> r[i] == sites[i])
    ensures var r := SetFavorite(sites, userId, siteId, isFavorite);
      UniqueSites(sites) ==>
        forall i :: 0 <= i < |sites| && sites[i].id == siteId && sites[i].userId == userId ==>
          r[i].isFavorite == isFavorite
    ensures SetFavorite(SetFavorite(sites, userId, siteId, isFavorite), userId, siteId, isFavorite)
         == SetFavorite(sites, userId, siteId, isFavorite)
  {
    var r := SetFavorite(sites, userId, siteId, isFavorite);
    FirstIndexSame(sites, r, OwnedSite(siteId, userId));
    var found := FirstIndex(sites, OwnedSite(siteId, userId));
    if found.None? {
      assert forall i :: 0 <= i < |sites| ==> !OwnedSite(siteId, userId)(sites[i]);
    }
  }

  /** Lists that agree on a predicate have the same first match. */
  lemma {:induction false} FirstIndexSame<X>(xs: seq<X>, ys: seq<X>, p: X -> bool)
    requires |xs| == |ys|
    requires forall j :: 0 <= j < |xs| ==> p(xs[j]) == p(ys[j])
    ensures FirstIndex(xs, p) == FirstIndex(ys, p)
  {
    if xs != [] {
      FirstIndexSame(xs[1..], ys[1..], p);
    }
  }

  /** `ToggleFavoriteHandler.HandleAsync`. */
  method ToggleFavorite(db: Database, userId: Guid, siteId: Guid, isFavorite: bool) returns (r: Result<bool>)
    requires db.Valid()
    modifies db
    ensures db.Valid()
    ensures r.Success? <==> exists s :: s in old(db.sites) && s.id == siteId && s.userId == userId
    ensures !r.Success? ==> r == Failure("Site not found") && unchanged(db)
    ensures db.sites == SetFavorite(old(db.sites), userId, siteId, isFavorite)
    ensures db.users == old(db.users) && db.groups == old(db.groups) && db.tags == old(db.tags)
      && db.siteTags == old(db.siteTags) && db.metrics == old(db.metrics)
      && db.preferences == old(db.preferences) && db.nextId == old(db.nextId)
  {
    var found := FirstIndex(db.sites, OwnedSite(siteId, userId));
    if found.None? {
      assert forall s :: s in db.sites ==> !OwnedSite(siteId, userId)(s);
      return Failure("Site not found");
    }
    var i := found.value;
    assert OwnedSite(siteId, userId)(db.sites[i]);
    db.sites := db.sites[i := db.sites[i].(isFavorite := isFavorite)];
    return Success(true);
  }

  // ----- Export -----

  /** The rows of one site whose day lies in the inclusive range. */
  function InRange(siteId: Guid, from: Date, to: Date): SiteMetric -> bool {
    (m: SiteMetric) => m.siteId == siteId && from <= m.date && m.date <= to
  }

  /** `ExportSiteDataHandler.HandleAsync`: the user's site's rows in the range, ordered by
      day, as points. */
  function ExportSiteData(sites: seq<Site>, metrics: seq<SiteMetric>, userId: Guid, siteId: Guid,
                          from: Date, to: Date): Result<seq<TimeSeriesPoint>>
  {
    if FirstIndex(sites, OwnedSite(siteId, userId)).None? then Failure("Site not found")
    else Success(SiteSeries(Filter(metrics, InRange(siteId, from, to))))
  }

  /** A foreign or unknown site is not found. Otherwise the export holds one point per row
      of the site with its day in the range, each copying the row's figures, ordered by
      day; with unique (site, day) rows the days strictly increase. */
  lemma ExportSpec(sites: seq<Site>, metrics: seq<SiteMetric>, userId: Guid, siteId: Guid,
                   from: Date, to: Date)
    ensures var r := ExportSiteData(sites, metrics, userId, siteId, from, to);
      r.Success? <==> exists s :: s in sites && s.id == siteId && s.userId == userId
    ensures var r := ExportSiteData(sites, metrics, userId, siteId, from, to);
      !r.Success? ==> r == Failure("Site not found")
    ensures var r := ExportSiteData(sites, metrics, userId, siteId, from, to);
      r.Success? ==>
        && |r.value| == |Filter(metrics, InRange(siteId, from, to))|
        && (forall p :: p in r.value <==>
              exists m :: m in metrics && m.siteId == siteId && from <= m.date <= to && p == PointOf(m))
        && (forall i, j :: 0 <= i < j < |r.value| ==> r.value[i].date <= r.value[j].date)
    ensures var r := ExportSiteData(sites, metrics, userId, siteId, from, to);
      r.Success? && UniqueMetrics(metrics) ==>
        forall i, j :: 0 <= i < j < |r.value| ==> r.value[i].date < r.value[j].date
  {
    var found := FirstIndex(sites, OwnedSite(siteId, userId));
    if found.None? {
      assert forall s :: s in sites ==> !OwnedSite(siteId, userId)(s);
    } else {
      assert OwnedSite(siteId, userId)(sites[found.value]);
      var rows := Filter(metrics, InRange(siteId, from, to));
      SiteSeriesSpec(rows);
      if UniqueMetrics(metrics) {
        ExportDaysDistinct(metrics, siteId, from, to);
        SiteSeriesStrict(rows);
      }
    }
  }

  lemma ExportDaysDistinct(metrics: seq<SiteMetric>, siteId: Guid, from: Date, to: Date)
    requires UniqueMetrics(metrics)
    ensures DistinctKeys(Filter(metrics, InRange(siteId, from, to)), RowDate)
  {
    var rows := Filter(metrics, InRange(siteId, from, to));
    forall i, j | 0 <= i < j < |rows|
      ensures RowDate(rows[i]) != RowDate(rows[j])
    {
      assert InRange(siteId, from, to)(rows[i]) && InRange(siteId, from, to)(rows[j]);
    }
  }
}
