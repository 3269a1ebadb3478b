/** Site discovery (`DiscoverSitesHandler`): the Search Console properties the user can
    see that are not yet stored become new sites in the user's default group. */
module Discovery {
  import opened Common
  import opened Entities
  import opened Seqs
  import opened Store

  /** The message of the exception `SaveChanges` throws when the database rejects the
      changes (here: a unique index that the new rows would break). */
  const SaveFailed := "An error occurred while saving the entity changes. See the inner exception for details."

  /** The message of the exception `First()` throws on an empty sequence. */
  const NoElements := "Sequence contains no elements"

  function PropertyIdOf(s: Site): string {
    s.propertyId
  }

  /** The property ids of the user's stored sites (`localSites`). */
  function LocalIds(sites: seq<Site>, userId: Guid): seq<string> {
    Map(Filter(sites, SiteOf(userId)), PropertyIdOf)
  }

  function NotIn(local: seq<string>): string -> bool {
    (url: string) => url !in local
  }

  /** The remote entries that are not stored locally, in remote order, repetitions kept:
      the entries the loop inserts. */
  function Missing(remote: seq<string>, local: seq<string>): (m: seq<string>)
    ensures |m| <= |remote|
    ensures forall url :: url in m <==> url in remote && url !in local
  {
    Filter(remote, NotIn(local))
  }

  /** The group new sites go into: the user's first default group, or else the user's
      first group; none when the user has no group (where `First()` throws). */
  function TargetGroup(groups: seq<Group>, userId: Guid): (g: Option<Group>)
    ensures g.Some? ==> g.value in groups && g.value.userId == userId
    ensures g.Some? && !g.value.isDefault ==>
      forall h :: h in groups && h.userId == userId ==> !h.isDefault
    ensures g.None? <==> forall h :: h in groups ==> h.userId != userId
  {
    var own := Filter(groups, GroupOf(userId));
    match FirstIndex(own, IsDefaultGroup) {
      case Some(i) => Some(own[i])
      case None => if own == [] then None else Some(own[0])
    }
  }

  function GroupOf(userId: Guid): Group -> bool {
    (g: Group) => g.userId == userId
  }

  predicate IsDefaultGroup(g: Group) {
    g.isDefault
  }

  /** The site inserted for a remote entry. */
  function NewSite(id: Guid, userId: Guid, groupId: Guid, url: string, hostOf: string -> string,
                   now: Timestamp): Site {
    Site(id, userId, Some(groupId), url, hostOf(url), false, None, None, now)
  }

  /** The sites inserted for the entries `urls`, with consecutive fresh ids from `firstId`. */
  function NewSites(urls: seq<string>, userId: Guid, groupId: Guid, firstId: Guid,
                    hostOf: string -> string, now: Timestamp): (r: seq<Site>)
    ensures |r| == |urls|
    ensures forall k :: 0 <= k < |urls| ==>
      r[k] == NewSite(firstId + k, userId, groupId, urls[k], hostOf, now)
  {
    seq(|urls|, k requires 0 <= k < |urls| => NewSite(firstId + k, userId, groupId, urls[k], hostOf, now))
  }

  /** The database accepts the new sites exactly when no entry is inserted twice: their
      ids are fresh, and none of their property ids is among the user's stored ones. */
  lemma SaveAccepted(sites: seq<Site>, userId: Guid, groupId: Guid, firstId: Guid,
                     urls: seq<string>, hostOf: string -> string, now: Timestamp)
    requires UniqueSites(sites)
    requires forall i :: 0 <= i < |sites| ==> sites[i].id < firstId
    requires forall url :: url in urls ==> url !in LocalIds(sites, userId)
    ensures UniqueSites(sites + NewSites(urls, userId, groupId, firstId, hostOf, now)) <==> Distinct(urls)
  {
    var added := NewSites(urls, userId, groupId, firstId, hostOf, now);
    var all := sites + added;
    if Distinct(urls) {
      forall i, j | 0 <= i < j < |all|
        ensures all[i].id != all[j].id
        ensures all[i].userId != all[j].userId || all[i].propertyId != all[j].propertyId
      {
        if j >= |sites| && i < |sites| {
          if all[i].userId == userId {
            OwnedIdIsLocal(sites, userId, i);
          }
        }
      }
    } else {
      var i, j :| 0 <= i < j < |urls| && urls[i] == urls[j];
      assert all[|sites| + i].propertyId == all[|sites| + j].propertyId;
    }
  }

  /** The property id of a stored site of the user is one of the local ids. */
  lemma OwnedIdIsLocal(sites: seq<Site>, userId: Guid, i: nat)
    requires i < |sites| && sites[i].userId == userId
    ensures sites[i].propertyId in LocalIds(sites, userId)
  {
    var own := Filter(sites, SiteOf(userId));
    assert sites[i] in own;
    var k :| 0 <= k < |own| && own[k] == sites[i];
    assert LocalIds(sites, userId)[k] == sites[i].propertyId;
  }

  /** Inserting sites for the user extends the local ids by their property ids. */
  lemma {:induction false} LocalIdsAppend(sites: seq<Site>, added: seq<Site>, userId: Guid)
    requires forall s :: s in added ==> s.userId == userId
    ensures LocalIds(sites + added, userId) == LocalIds(sites, userId) + Map(added, PropertyIdOf)
  {
    FilterAppend(sites, added, SiteOf(userId));
    FilterKeepsAll(added, SiteOf(userId));
    MapAppend(Filter(sites, SiteOf(userId)), added, PropertyIdOf);
  }

  /** Discovery is idempotent: once the missing entries are stored, the same remote list
      has nothing missing, so a second run inserts nothing. */
  lemma SecondRunAddsNothing(sites: seq<Site>, userId: Guid, groupId: Guid, firstId: Guid,
                             remote: seq<string>, hostOf: string -> string, now: Timestamp)
    ensures var m := Missing(remote, LocalIds(sites, userId));
      Missing(remote, LocalIds(sites + NewSites(m, userId, groupId, firstId, hostOf, now), userId)) == []
  {
    var local := LocalIds(sites, userId);
    var m := Missing(remote, local);
    var added := NewSites(m, userId, groupId, firstId, hostOf, now);
    LocalIdsAppend(sites, added, userId);
    NewSitesIds(m, userId, groupId, firstId, hostOf, now);
    forall url | url in remote
      ensures url in local + m
    {
      if url !in local {
        assert url in m;
      }
    }
    MissingNone(remote, local + m);
  }

  lemma NewSitesSnoc(urls: seq<string>, url: string, userId: Guid, groupId: Guid, firstId: Guid,
                     hostOf: string -> string, now: Timestamp)
    ensures NewSites(urls + [url], userId, groupId, firstId, hostOf, now)
         == NewSites(urls, userId, groupId, firstId, hostOf, now)
            + [NewSite(firstId + |urls|, userId, groupId, url, hostOf, now)]
  {
  }

  /** The new sites carry the remote entries as their property ids. */
  lemma NewSitesIds(urls: seq<string>, userId: Guid, groupId: Guid, firstId: Guid,
                    hostOf: string -> string, now: Timestamp)
    ensures Map(NewSites(urls, userId, groupId, firstId, hostOf, now), PropertyIdOf) == urls
  {
    var ids := Map(NewSites(urls, userId, groupId, firstId, hostOf, now), PropertyIdOf);
    assert |ids| == |urls|;
    forall k | 0 <= k < |urls|
      ensures ids[k] == urls[k]
    {
    }
  }

  /** Nothing is missing when every remote entry is stored. */
  lemma MissingNone(remote: seq<string>, local: seq<string>)
    requires forall url :: url in remote ==> url in local
    ensures Missing(remote, local) == []
  {
    FilterNone(remote, NotIn(local));
  }

  /** The outcome of `DiscoverSitesHandler.HandleAsync` on a database holding `users`,
      `groups` and `sites`: a failure for a missing user or token, the caught exception
      of the Search Console call, 0 for an empty remote list, the caught exception of
      `First()` when the user has no group, and otherwise the number of inserted sites,
      or the caught exception of a save the database rejects. */
  function Discovery(users: seq<User>, groups: seq<Group>, sites: seq<Site>, userId: Guid,
                     remote: Result<seq<string>>): Result<int>
  {
    var u := FirstIndex(users, UserIdIs(userId));
    if u.None? || users[u.value].googleRefreshToken == "" then
      Failure("User or refresh token not found")
    else if !remote.Success? then Failure("Discovery failed: " + remote.error)
    else if remote.value == [] then Success(0)
    else if TargetGroup(groups, userId).None? then Failure("Discovery failed: " + NoElements)
    else
      var m := Missing(remote.value, LocalIds(sites, userId));
      if Distinct(m) then Success(|m|) else Failure("Discovery failed: " + SaveFailed)
  }

  /** A successful discovery reports how many remote entries were not stored, each of which
      occurs once in the remote list; a failure never comes from a missing user with a
      token. */
  lemma DiscoveryCount(users: seq<User>, groups: seq<Group>, sites: seq<Site>, userId: Guid,
                       remote: Result<seq<string>>)
    ensures var r := Discovery(users, groups, sites, userId, remote);
      r.Success? ==>
        && remote.Success?
        && r.value == |Missing(remote.value, LocalIds(sites, userId))|
        && Distinct(Missing(remote.value, LocalIds(sites, userId)))
        && (r.value > 0 ==> TargetGroup(groups, userId).Some?)
    ensures (forall u :: u in users ==> u.id != userId) ==>
      Discovery(users, groups, sites, userId, remote) == Failure("User or refresh token not found")
  {
    var u := FirstIndex(users, UserIdIs(userId));
    if remote.Success? && remote.value == [] {
      assert Missing(remote.value, LocalIds(sites, userId)) == [];
    }
    if forall v :: v in users ==> v.id != userId {
      assert u.None?;
    }
  }

  /** One more remote entry is missing exactly when it is not stored locally. */
  lemma MissingStep(urls: seq<string>, k: nat, local: seq<string>)
    requires k < |urls|
    ensures Missing(urls[..k + 1], local)
         == Missing(urls[..k], local) + if urls[k] in local then [] else [urls[k]]
  {
    TakeOneMore(urls, k);
    FilterAppend(urls[..k], [urls[k]], NotIn(local));
  }

  /** Collects the sites to insert, in remote order (the `foreach` over `remoteSites`),
      with their count (`newlyAdded`). */
  method CollectNew(urls: seq<string>, local: seq<string>, userId: Guid, groupId: Guid,
                    firstId: Guid, hostOf: string -> string, now: Timestamp)
    returns (pending: seq<Site>, newlyAdded: nat)
    ensures newlyAdded == |Missing(urls, local)|
    ensures pending == NewSites(Missing(urls, local), userId, groupId, firstId, hostOf, now)
  {
    pending := [];
    newlyAdded := 0;
    ghost var missing: seq<string> := [];
    var k := 0;
    while k < |urls|
      invariant 0 <= k <= |urls|
      invariant missing == Missing(urls[..k], local)
      invariant newlyAdded == |missing|
      invariant pending == NewSites(missing, userId, groupId, firstId, hostOf, now)
    {
      MissingStep(urls, k, local);
      if urls[k] !in local {
        var site := NewSite(firstId + newlyAdded, userId, groupId, urls[k], hostOf, now);
        NewSitesSnoc(missing, urls[k], userId, groupId, firstId, hostOf, now);
        assert pending + [site] == NewSites(missing + [urls[k]], userId, groupId, firstId, hostOf, now);
        pending := pending + [site];
        newlyAdded := newlyAdded + 1;
        missing := missing + [urls[k]];
      }
      k := k + 1;
    }
    assert urls[..k] == urls;
  }

  /** `DiscoverSitesHandler.HandleAsync`. `remote` is the Search Console answer (a failure
      carries the exception message), `hostOf` stands for `new Uri(url).Host`, and `now`
      for `DateTime.UtcNow`. Only a run that inserts something changes the database. */
  method DiscoverSites(db: Database, userId: Guid, remote: Result<seq<string>>,
                       hostOf: string -> string, now: Timestamp) returns (r: Result<int>)
    requires db.Valid()
    modifies db
    ensures db.Valid()
    ensures r == Discovery(old(db.users), old(db.groups), old(db.sites), userId, remote)
    ensures r.Success? && r.value > 0 ==>
      db.sites == old(db.sites)
        + NewSites(Missing(remote.value, LocalIds(old(db.sites), userId)), userId,
                   TargetGroup(old(db.groups), userId).value.id, old(db.nextId), hostOf, now)
      && db.nextId == old(db.nextId) + r.value
      && db.users == old(db.users) && db.groups == old(db.groups) && db.tags == old(db.tags)
      && db.siteTags == old(db.siteTags) && db.metrics == old(db.metrics)
      && db.preferences == old(db.preferences)
    ensures !(r.Success? && r.value > 0) ==> unchanged(db)
  {
    var u := FirstIndex(db.users, UserIdIs(userId));
    if u.None? || db.users[u.value].googleRefreshToken == "" {
      return Failure("User or refresh token not found");
    }
    if !remote.Success? {
      return Failure("Discovery failed: " + remote.error);
    }
    var urls := remote.value;
    if |urls| == 0 {
      return Success(0);
    }
    var group := TargetGroup(db.groups, userId);
    if group.None? {
      return Failure("Discovery failed: " + NoElements);
    }
    var newlyAdded, saved := AddDiscovered(db, urls, userId, group.value.id, hostOf, now);
    if !saved {
      return Failure("Discovery failed: " + SaveFailed);
    }
    return Success(newlyAdded);
  }

  /** The loop over the remote entries and, when it found any, `SaveChanges`: the new
      sites are stored unless one entry is missing twice. */
  method AddDiscovered(db: Database, urls: seq<string>, userId: Guid, groupId: Guid,
                       hostOf: string -> string, now: Timestamp) returns (newlyAdded: nat, saved: bool)
    requires db.Valid()
    modifies db
    ensures db.Valid()
    ensures var m := Missing(urls, LocalIds(old(db.sites), userId));
      newlyAdded == |m| && saved == Distinct(m)
    ensures newlyAdded > 0 && saved ==>
      && db.sites == old(db.sites)
           + NewSites(Missing(urls, LocalIds(old(db.sites), userId)), userId, groupId, old(db.nextId), hostOf, now)
      && db.nextId == old(db.nextId) + newlyAdded
      && db.users == old(db.users) && db.groups == old(db.groups) && db.tags == old(db.tags)
      && db.siteTags == old(db.siteTags) && db.metrics == old(db.metrics)
      && db.preferences == old(db.preferences)
    ensures !(newlyAdded > 0 && saved) ==> unchanged(db)
  {
    var local := LocalIds(db.sites, userId);
    var pending;
    pending, newlyAdded := CollectNew(urls, local, userId, groupId, db.nextId, hostOf, now);
    SaveAccepted(db.sites, userId, groupId, db.nextId, Missing(urls, local), hostOf, now);
    if newlyAdded > 0 {
      saved := SaveSites(db, pending);
    } else {
      assert Missing(urls, local) == [];
      saved := true;
    }
  }

  /** `SaveChanges` with the sites `pending` added, their ids handed out from the supply
      in order: the database stores them unless they break the unique index on
      (UserId, PropertyId), and otherwise rejects the save and keeps its state. */
  method SaveSites(db: Database, pending: seq<Site>) returns (saved: bool)
    requires db.Valid()
    requires forall k :: 0 <= k < |pending| ==> pending[k].id == db.nextId + k
    modifies db
    ensures db.Valid()
    ensures saved == UniqueSites(old(db.sites) + pending)
    ensures saved ==>
      && db.sites == old(db.sites) + pending && db.nextId == old(db.nextId) + |pending|
      && db.users == old(db.users) && db.groups == old(db.groups) && db.tags == old(db.tags)
      && db.siteTags == old(db.siteTags) && db.metrics == old(db.metrics)
      && db.preferences == old(db.preferences)
    ensures !saved ==> unchanged(db)
  {
    if !UniqueSites(db.sites + pending) {
      return false;
    }
    db.sites := db.sites + pending;
    db.nextId := db.nextId + |pending|;
    return true;
  }
}
