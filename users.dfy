/** The account queries (`GetUserInfoHandler`, `GetUserPreferencesHandler`) and the
    preference command (`UpdateUserPreferencesHandler`). */
module Users {
  import opened Common
  import opened Entities
  import opened Seqs
  import opened Text
  import opened Store

  /** `UserDto`. */
  datatype UserView = UserView(email: string, name: string, avatar: Option<string>, plan: string)

  /** `UserInfoResponse`. */
  datatype UserInfo = UserInfo(user: UserView, promotions: seq<string>)

  /** `PlanType.ToString()`. */
  function PlanName(plan: PlanType): string {
    match plan
    case FREE => "FREE"
    case TRIAL => "TRIAL"
    case PRO => "PRO"
  }

  const AnnualDiscount := "-20% annual"

  /** `GetActivePromotions`: the annual discount is offered during the trial only. */
  function ActivePromotions(plan: PlanType): seq<string> {
    if plan == TRIAL then [AnnualDiscount] else []
  }

  /** `GetUserInfoHandler.HandleAsync`. */
  function GetUserInfo(users: seq<User>, userId: Guid): (r: Result<UserInfo>)
    ensures r.Failure? <==> forall u :: u in users ==> u.id != userId
    ensures r.Failure? ==> r.error == "User not found"
    ensures r.Success? ==>
      exists u :: u in users && u.id == userId && r.value.user == UserView(u.email, u.name, u.avatar, PlanName(u.plan))
    ensures r.Success? ==>
      (r.value.promotions == [AnnualDiscount] <==> r.value.user.plan == "TRIAL")
      && (r.value.promotions == [] <==> r.value.user.plan != "TRIAL")
  {
    match FirstIndex(users, UserIdIs(userId))
    case None =>
      assert forall u :: u in users ==> !UserIdIs(userId)(u);
      Failure("User not found")
    case Some(i) =>
      var u := users[i];
      Success(UserInfo(UserView(u.email, u.name, u.avatar, PlanName(u.plan)), ActivePromotions(u.plan)))
  }

  /** `UserPreferencesDto`: what the client reads back. */
  datatype PreferencesView = PreferencesView(
    selectedMetrics: seq<string>,
    lastRangePreset: string,
    lastGroupId: Option<Guid>,
    lastTagId: Option<Guid>)

  const DefaultMetrics := ["clicks", "impressions"]
  const DefaultRangePreset := "last28days"

  /** The selection stored in a new preference row. */
  const StoredDefaultMetrics := "clicks" + "," + "impressions"

  /** The answer for a user without a preference row. */
  const DefaultView := PreferencesView(DefaultMetrics, DefaultRangePreset, None, None)

  function PreferenceOf(userId: Guid): UserPreference -> bool {
    (p: UserPreference) => p.userId == userId
  }

  /** A stored row as the client sees it: the selection is split at commas. */
  function ViewOf(p: UserPreference): PreferencesView {
    PreferencesView(Split(p.selectedMetrics, ','), p.lastRangePreset, p.lastGroupId, p.lastTagId)
  }

  /** `GetUserPreferencesHandler.HandleAsync`: always a success. */
  function GetPreferences(prefs: seq<UserPreference>, userId: Guid): (r: Result<PreferencesView>)
    ensures r.Success?
    ensures (forall p :: p in prefs ==> p.userId != userId) ==> r.value == DefaultView
    ensures (exists p :: p in prefs && p.userId == userId) ==>
      exists p :: p in prefs && p.userId == userId && r.value == ViewOf(p)
  {
    match FirstIndex(prefs, PreferenceOf(userId))
    case None => Success(DefaultView)
    case Some(i) =>
      assert prefs[i] in prefs && prefs[i].userId == userId;
      Success(ViewOf(prefs[i]))
  }

  /** A user without a row reads back what a freshly created row holds: the default
      answer and the default row agree. */
  lemma DefaultRowView(id: Guid, userId: Guid, now: Timestamp)
    ensures ViewOf(NewPreference(id, userId, now)) == DefaultView
  {
    assert StoredDefaultMetrics == Join(',', DefaultMetrics) by {
      assert DefaultMetrics[1..] == ["impressions"];
    }
    assert ',' !in "clicks" && ',' !in "impressions";
    SplitJoinPieces(DefaultMetrics, ',');
  }

  /** `UpdateUserPreferencesCommand`: absent fields are left as they are. */
  datatype PreferencesUpdate = PreferencesUpdate(
    selectedMetrics: Option<seq<string>>,
    lastRangePreset: Option<string>,
    lastGroupId: Option<Guid>,
    lastTagId: Option<Guid>)

  /** The row made for a user who has none. */
  function NewPreference(id: Guid, userId: Guid, now: Timestamp): UserPreference {
    UserPreference(id, userId, StoredDefaultMetrics, DefaultRangePreset, None, None, now)
  }

  /** The given fields written over a row, with the update time. */
  function Applied(p: UserPreference, u: PreferencesUpdate, now: Timestamp): (r: UserPreference)
    ensures r.id == p.id && r.userId == p.userId && r.updatedAt == now
    ensures u.selectedMetrics.Some? ==> r.selectedMetrics == Join(',', u.selectedMetrics.value)
    ensures u.selectedMetrics.None? ==> r.selectedMetrics == p.selectedMetrics
    ensures r.lastRangePreset == OrElse(u.lastRangePreset, p.lastRangePreset)
    ensures r.lastGroupId == (if u.lastGroupId.Some? then u.lastGroupId else p.lastGroupId)
    ensures r.lastTagId == (if u.lastTagId.Some? then u.lastTagId else p.lastTagId)
  {
    p.(selectedMetrics := if u.selectedMetrics.Some? then Join(',', u.selectedMetrics.value) else p.selectedMetrics,
       lastRangePreset := OrElse(u.lastRangePreset, p.lastRangePreset),
       lastGroupId := if u.lastGroupId.Some? then u.lastGroupId else p.lastGroupId,
       lastTagId := if u.lastTagId.Some? then u.lastTagId else p.lastTagId,
       updatedAt := now)
  }

  /** The preference table after the command: the user's row updated, or a new row with
      identifier `newId` created and updated. */
  function UpdatedPreferences(prefs: seq<UserPreference>, userId: Guid, u: PreferencesUpdate,
                              newId: Guid, now: Timestamp): (r: seq<UserPreference>)
    ensures |r| == |prefs| || |r| == |prefs| + 1
    ensures forall i :: 0 <= i < |prefs| && prefs[i].userId != userId ==> r[i] == prefs[i]
  {
    match FirstIndex(prefs, PreferenceOf(userId))
    case None => prefs + [Applied(NewPreference(newId, userId, now), u, now)]
    case Some(i) => prefs[i := Applied(prefs[i], u, now)]
  }

  /** The command keeps one row per user and fresh row identifiers unique. */
  lemma UpdatedPreferencesUnique(prefs: seq<UserPreference>, userId: Guid, u: PreferencesUpdate,
                                 newId: Guid, now: Timestamp)
    requires UniquePreferences(prefs)
    requires forall i :: 0 <= i < |prefs| ==> prefs[i].id < newId
    ensures UniquePreferences(UpdatedPreferences(prefs, userId, u, newId, now))
  {
    var r := UpdatedPreferences(prefs, userId, u, newId, now);
    if FirstIndex(prefs, PreferenceOf(userId)).None? {
      forall i | 0 <= i < |prefs|
        ensures prefs[i].userId != userId
      {
        assert !PreferenceOf(userId)(prefs[i]);
      }
    }
  }

  /** `UpdateUserPreferencesHandler.HandleAsync`: always a success. */
  method UpdatePreferences(db: Database, userId: Guid, u: PreferencesUpdate, now: Timestamp)
    returns (r: Result<bool>)
    requires db.Valid()
    modifies db
    ensures db.Valid()
    ensures r == Success(true)
    ensures db.preferences == UpdatedPreferences(old(db.preferences), userId, u, old(db.nextId), now)
    ensures db.users == old(db.users) && db.groups == old(db.groups) && db.tags == old(db.tags)
    ensures db.sites == old(db.sites) && db.siteTags == old(db.siteTags) && db.metrics == old(db.metrics)
  {
    var found := FirstIndex(db.preferences, PreferenceOf(userId));
    var prefs := UpdatedPreferences(db.preferences, userId, u, db.nextId, now);
    UpdatedPreferencesUnique(db.preferences, userId, u, db.nextId, now);
    if found.None? {
      var id := db.NewId();
      assert prefs == db.preferences + [Applied(NewPreference(id, userId, now), u, now)];
    } else {
      var i := found.value;
      assert prefs == db.preferences[i := Applied(db.preferences[i], u, now)];
    }
    SavePreferences(db, prefs);
    return Success(true);
  }

  /** `SaveChanges` of the preference table `prefs`. */
  method SavePreferences(db: Database, prefs: seq<UserPreference>)
    requires db.Valid() && UniquePreferences(prefs)
    requires forall i :: 0 <= i < |prefs| ==> 0 < prefs[i].id < db.nextId
    modifies db
    ensures db.Valid()
    ensures db.preferences == prefs
    ensures db.users == old(db.users) && db.groups == old(db.groups) && db.tags == old(db.tags)
    ensures db.sites == old(db.sites) && db.siteTags == old(db.siteTags) && db.metrics == old(db.metrics)
    ensures db.nextId == old(db.nextId)
  {
    db.preferences := prefs;
  }

  /** The user's row is found at the same place after the command, or at the end when it
      was created. */
  lemma UpdatedRowFound(prefs: seq<UserPreference>, userId: Guid, u: PreferencesUpdate,
                        newId: Guid, now: Timestamp)
    ensures var after := UpdatedPreferences(prefs, userId, u, newId, now);
      match FirstIndex(prefs, PreferenceOf(userId)) {
        case None =>
          FirstIndex(after, PreferenceOf(userId)) == Some(|prefs|)
          && after[|prefs|] == Applied(NewPreference(newId, userId, now), u, now)
        case Some(i) =>
          FirstIndex(after, PreferenceOf(userId)) == Some(i) && after[i] == Applied(prefs[i], u, now)
      }
  {
    var after := UpdatedPreferences(prefs, userId, u, newId, now);
    var p := PreferenceOf(userId);
    match FirstIndex(prefs, p)
    case None =>
      assert after == prefs + [Applied(NewPreference(newId, userId, now), u, now)];
      forall j | 0 <= j < |prefs|
        ensures !p(after[j])
      {
        assert after[j] == prefs[j];
      }
      FirstIndexAt(after, p, |prefs|);
    case Some(i) =>
      assert after == prefs[i := Applied(prefs[i], u, now)];
      forall j | 0 <= j < i
        ensures !p(after[j])
      {
        assert after[j] == prefs[j];
      }
      FirstIndexAt(after, p, i);
  }

  /** Reading the preferences back after the command: every field given is what the user
      sees, every field left out is as it was, and a given selection reads back unchanged
      exactly when it is not empty and no metric name holds a comma. */
  lemma UpdateThenGet(prefs: seq<UserPreference>, userId: Guid, u: PreferencesUpdate,
                      newId: Guid, now: Timestamp)
    ensures var before := GetPreferences(prefs, userId).value;
      var after := GetPreferences(UpdatedPreferences(prefs, userId, u, newId, now), userId).value;
      && after.lastRangePreset == OrElse(u.lastRangePreset, before.lastRangePreset)
      && after.lastGroupId == (if u.lastGroupId.Some? then u.lastGroupId else before.lastGroupId)
      && after.lastTagId == (if u.lastTagId.Some? then u.lastTagId else before.lastTagId)
      && (u.selectedMetrics.None? ==> after.selectedMetrics == before.selectedMetrics)
      && (u.selectedMetrics.Some? ==>
            (after.selectedMetrics == u.selectedMetrics.value
             <==> u.selectedMetrics.value != []
                  && forall k :: 0 <= k < |u.selectedMetrics.value| ==> ',' !in u.selectedMetrics.value[k]))
  {
    UpdatedRowFound(prefs, userId, u, newId, now);
    if FirstIndex(prefs, PreferenceOf(userId)).None? {
      DefaultRowView(newId, userId, now);
    }
    if u.selectedMetrics.Some? {
      SplitJoin(u.selectedMetrics.value, ',');
    }
  }
}
