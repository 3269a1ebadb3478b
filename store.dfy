/** The database: one table per entity set, with the unique indexes and primary keys of
    the schema as the invariant `Valid`. A save that would break one of them is rejected
    by the database; the handlers below model that rejection explicitly. */
module Store {
  import opened Common
  import opened Entities
  import opened Seqs

  /** Users: primary key `Id`, unique `Email`, unique `GoogleId`. */
  predicate UniqueUsers(users: seq<User>) {
    forall i, j :: 0 <= i < j < |users| ==>
      users[i].id != users[j].id && users[i].email != users[j].email
      && users[i].googleId != users[j].googleId
  }

  /** Groups: primary key `Id` (the (UserId, DisplayName) index is not unique). */
  predicate UniqueGroups(groups: seq<Group>) {
    forall i, j :: 0 <= i < j < |groups| ==> groups[i].id != groups[j].id
  }

  /** Tags: primary key `Id`, unique (UserId, Name). */
  predicate UniqueTags(tags: seq<Tag>) {
    forall i, j :: 0 <= i < j < |tags| ==>
      tags[i].id != tags[j].id
      && (tags[i].userId != tags[j].userId || tags[i].name != tags[j].name)
  }

  /** Sites: primary key `Id`, unique (UserId, PropertyId). */
  predicate UniqueSites(sites: seq<Site>) {
    forall i, j :: 0 <= i < j < |sites| ==>
      sites[i].id != sites[j].id
      && (sites[i].userId != sites[j].userId || sites[i].propertyId != sites[j].propertyId)
  }

  /** Site–tag links: primary key (SiteId, TagId). */
  predicate UniqueLinks(links: seq<SiteTag>) {
    forall i, j :: 0 <= i < j < |links| ==>
      links[i].siteId != links[j].siteId || links[i].tagId != links[j].tagId
  }

  function LinkKey(l: SiteTag): (Guid, Guid) {
    (l.siteId, l.tagId)
  }

  /** Removing links keeps the (SiteId, TagId) key unique. */
  lemma FilterUniqueLinks(links: seq<SiteTag>, p: SiteTag -> bool)
    requires UniqueLinks(links)
    ensures UniqueLinks(Filter(links, p))
  {
    assert DistinctKeys(links, LinkKey) by {
      forall i, j | 0 <= i < j < |links|
        ensures LinkKey(links[i]) != LinkKey(links[j])
      {
      }
    }
    FilterDistinctKeys(links, LinkKey, p);
    var r := Filter(links, p);
    forall i, j | 0 <= i < j < |r|
      ensures r[i].siteId != r[j].siteId || r[i].tagId != r[j].tagId
    {
      assert LinkKey(r[i]) != LinkKey(r[j]);
    }
  }

  /** Metric rows: unique (SiteId, Date). */
  predicate UniqueMetrics(rows: seq<SiteMetric>) {
    forall i, j :: 0 <= i < j < |rows| ==>
      rows[i].siteId != rows[j].siteId || rows[i].date != rows[j].date
  }

  /** Preferences: primary key `Id`, unique `UserId`. */
  predicate UniquePreferences(prefs: seq<UserPreference>) {
    forall i, j :: 0 <= i < j < |prefs| ==>
      prefs[i].id != prefs[j].id && prefs[i].userId != prefs[j].userId
  }

  class Database {
    var users: seq<User>
    var groups: seq<Group>
    var tags: seq<Tag>
    var sites: seq<Site>
    var siteTags: seq<SiteTag>
    var metrics: seq<SiteMetric>
    var preferences: seq<UserPreference>
    /** The supply of fresh identifiers (`Guid.NewGuid()`): every stored id is below it. */
    var nextId: nat

    /** The schema's keys and unique indexes hold, and every stored id is a non-empty Guid
        that the supply has already handed out. */
    ghost predicate Valid()
      reads this
    {
      UniqueUsers(users) && UniqueGroups(groups) && UniqueTags(tags) && UniqueSites(sites)
      && UniqueLinks(siteTags) && UniqueMetrics(metrics) && UniquePreferences(preferences)
      && nextId > 0
      && (forall i :: 0 <= i < |users| ==> 0 < users[i].id < nextId)
      && (forall i :: 0 <= i < |groups| ==> 0 < groups[i].id < nextId)
      && (forall i :: 0 <= i < |tags| ==> 0 < tags[i].id < nextId)
      && (forall i :: 0 <= i < |sites| ==> 0 < sites[i].id < nextId)
      && (forall i :: 0 <= i < |preferences| ==> 0 < preferences[i].id < nextId)
    }

    /** An empty database. */
    constructor ()
      ensures Valid()
      ensures users == [] && groups == [] && tags == [] && sites == []
      ensures siteTags == [] && metrics == [] && preferences == []
    {
      users, groups, tags, sites := [], [], [], [];
      siteTags, metrics, preferences := [], [], [];
      nextId := 1;
    }

    /** `Guid.NewGuid()`: an identifier different from `Guid.Empty` and from every stored id. */
    method NewId() returns (id: Guid)
      requires Valid()
      modifies this`nextId
      ensures Valid()
      ensures id == old(nextId) && nextId == id + 1 && id != EmptyGuid
    {
      id := nextId;
      nextId := nextId + 1;
    }
  }

  /** The site `siteId` if it belongs to `userId`. */
  function OwnedSite(siteId: Guid, userId: Guid): Site -> bool {
    (s: Site) => s.id == siteId && s.userId == userId
  }

  /** The user `userId`. */
  function UserIdIs(userId: Guid): User -> bool {
    (u: User) => u.id == userId
  }

  /** The sites of a user. */
  function SiteOf(userId: Guid): Site -> bool {
    (s: Site) => s.userId == userId
  }

  /** The tag links of a site. */
  function LinkOf(siteId: Guid): SiteTag -> bool {
    (l: SiteTag) => l.siteId == siteId
  }
}
