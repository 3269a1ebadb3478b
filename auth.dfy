/** The account provisioning of the Google sign-in callback (`SignInGoogleCallback`): the
    first sign-in creates the user with a default group, the "All" tag and a preference
    row; later sign-ins refresh the profile. Site discovery then runs for a user holding a
    refresh token. */
module Auth {
  import opened Common
  import opened Entities
  import opened Seqs
  import opened Store
  import opened Discovery
  import opened Users

  /** The claims the callback reads. `googleId` is the name-identifier claim, or the
      `sub` claim when that is absent. */
  datatype Claims = Claims(googleId: Option<string>, email: Option<string>, name: Option<string>,
                           picture: Option<string>)

  const ClaimsMissing := "Required claims missing"
  const DefaultGroupName := "My sites"
  const AllTagName := "All"

  function GoogleIdIs(googleId: string): User -> bool {
    (u: User) => u.googleId == googleId
  }

  /** The user made at first sign-in: on trial, named by the name claim or else the e-mail,
      holding the supplied refresh token or else the empty one. */
  function NewAccount(id: Guid, googleId: string, email: string, c: Claims, refreshToken: Option<string>,
                      now: Timestamp): (u: User)
    ensures u.id == id && u.googleId == googleId && u.email == email && u.plan == TRIAL
    ensures u.name == (if c.name.Some? then c.name.value else email)
    ensures u.picture == c.picture && u.avatar.None? && u.lastLoginAt.None?
    ensures u.googleRefreshToken == (if refreshToken.Some? then refreshToken.value else "")
  {
    User(id, googleId, email, OrElse(c.name, email), c.picture, None, TRIAL,
         OrElse(refreshToken, ""), now, now, None)
  }

  function DefaultGroup(id: Guid, userId: Guid, email: string, now: Timestamp): Group {
    Group(id, userId, DefaultGroupName, email, true, now)
  }

  function AllTag(id: Guid, userId: Guid, now: Timestamp): Tag {
    Tag(id, userId, AllTagName, false, now)
  }

  /** A later sign-in: the login time is recorded, a missing name or picture claim keeps
      the stored value, and the refresh token is replaced only by a non-empty one. */
  function SignedInAgain(u: User, c: Claims, refreshToken: Option<string>, now: Timestamp): (r: User)
    ensures r.id == u.id && r.googleId == u.googleId && r.email == u.email && r.plan == u.plan
    ensures r.avatar == u.avatar && r.createdAt == u.createdAt
    ensures r.lastLoginAt == Some(now) && r.updatedAt == now
    ensures c.name.None? ==> r.name == u.name
    ensures c.picture.None? ==> r.picture == u.picture
    ensures !IsNullOrEmpty(refreshToken) ==> r.googleRefreshToken == refreshToken.value
    ensures IsNullOrEmpty(refreshToken) ==> r.googleRefreshToken == u.googleRefreshToken
    ensures u.googleRefreshToken != "" ==> r.googleRefreshToken != ""
  {
    u.(lastLoginAt := Some(now), updatedAt := now, name := OrElse(c.name, u.name),
       picture := if c.picture.Some? then c.picture else u.picture,
       googleRefreshToken := if !IsNullOrEmpty(refreshToken) then refreshToken.value else u.googleRefreshToken)
  }

  /** The first-sign-in save is accepted: the user, tag and preference indexes all hold. */
  predicate FirstLoginAccepted(users: seq<User>, tags: seq<Tag>, prefs: seq<UserPreference>,
                               u: User, t: Tag, p: UserPreference) {
    UniqueUsers(users + [u]) && UniqueTags(tags + [t]) && UniquePreferences(prefs + [p])
  }

  /** With fresh identifiers and an unused Google id, the first-sign-in save is accepted
      exactly when no other account has the e-mail and no tag or preference row already
      refers to the new user's identifier. */
  lemma FirstLoginAcceptedWhen(users: seq<User>, tags: seq<Tag>, prefs: seq<UserPreference>,
                               id: Guid, googleId: string, email: string, c: Claims,
                               refreshToken: Option<string>, now: Timestamp)
    requires UniqueUsers(users) && UniqueTags(tags) && UniquePreferences(prefs)
    requires forall i :: 0 <= i < |users| ==> users[i].id < id && users[i].googleId != googleId
    requires forall i :: 0 <= i < |tags| ==> tags[i].id < id + 2
    requires forall i :: 0 <= i < |prefs| ==> prefs[i].id < id + 3
    ensures FirstLoginAccepted(users, tags, prefs, NewAccount(id, googleId, email, c, refreshToken, now),
                               AllTag(id + 2, id, now), NewPreference(id + 3, id, now))
      <==> ((forall x :: x in users ==> x.email != email)
            && (forall t :: t in tags ==> t.userId != id || t.name != AllTagName)
            && (forall p :: p in prefs ==> p.userId != id))
  {
    var u := NewAccount(id, googleId, email, c, refreshToken, now);
    var t := AllTag(id + 2, id, now);
    var p := NewPreference(id + 3, id, now);
    UsersAppend(users, u);
    TagsAppend(tags, t);
    PrefsAppend(prefs, p);
  }

  lemma UsersAppend(users: seq<User>, u: User)
    requires UniqueUsers(users)
    requires forall i :: 0 <= i < |users| ==> users[i].id != u.id && users[i].googleId != u.googleId
    ensures UniqueUsers(users + [u]) <==> forall x :: x in users ==> x.email != u.email
  {
    if exists x :: x in users && x.email == u.email {
      var x :| x in users && x.email == u.email;
      var i :| 0 <= i < |users| && users[i] == x;
      assert (users + [u])[i] == x && (users + [u])[|users|] == u;
    }
  }

  lemma TagsAppend(tags: seq<Tag>, t: Tag)
    requires UniqueTags(tags)
    requires forall i :: 0 <= i < |tags| ==> tags[i].id != t.id
    ensures UniqueTags(tags + [t]) <==> forall x :: x in tags ==> x.userId != t.userId || x.name != t.name
  {
    if exists x :: x in tags && x.userId == t.userId && x.name == t.name {
      var x :| x in tags && x.userId == t.userId && x.name == t.name;
      var i :| 0 <= i < |tags| && tags[i] == x;
      assert (tags + [t])[i] == x && (tags + [t])[|tags|] == t;
    }
  }

  lemma PrefsAppend(prefs: seq<UserPreference>, p: UserPreference)
    requires UniquePreferences(prefs)
    requires forall i :: 0 <= i < |prefs| ==> prefs[i].id != p.id
    ensures UniquePreferences(prefs + [p]) <==> forall x :: x in prefs ==> x.userId != p.userId
  {
    if exists x :: x in prefs && x.userId == p.userId {
      var x :| x in prefs && x.userId == p.userId;
      var i :| 0 <= i < |prefs| && prefs[i] == x;
      assert (prefs + [p])[i] == x && (prefs + [p])[|prefs|] == p;
    }
  }

  /** A later sign-in keeps the user keys unique: it changes no key. */
  lemma SignedInAgainUnique(users: seq<User>, i: nat, c: Claims, refreshToken: Option<string>, now: Timestamp)
    requires UniqueUsers(users) && i < |users|
    ensures UniqueUsers(users[i := SignedInAgain(users[i], c, refreshToken, now)])
  {
  }

  /** The first-sign-in branch of `SignInGoogleCallback`, with its save: the user, the
      default group, the "All" tag and the preference row, each under a fresh id. The save
      is rejected when it would break a unique index. */
  method CreateAccount(db: Database, googleId: string, email: string, c: Claims,
                       refreshToken: Option<string>, now: Timestamp) returns (r: Result<Guid>)
    requires db.Valid()
    modifies db
    ensures db.Valid()
    ensures var id := old(db.nextId);
      var u := NewAccount(id, googleId, email, c, refreshToken, now);
      var t := AllTag(id + 2, id, now);
      var p := NewPreference(id + 3, id, now);
      if !FirstLoginAccepted(old(db.users), old(db.tags), old(db.preferences), u, t, p) then
        r == Thrown(SaveFailed) && unchanged(db)
      else
        && r == Success(id)
        && db.users == old(db.users) + [u]
        && db.groups == old(db.groups) + [DefaultGroup(id + 1, id, email, now)]
        && db.tags == old(db.tags) + [t]
        && db.preferences == old(db.preferences) + [p]
        && db.nextId == id + 4
    ensures db.sites == old(db.sites) && db.siteTags == old(db.siteTags) && db.metrics == old(db.metrics)
  {
    var id := db.nextId;
    var u := NewAccount(id, googleId, email, c, refreshToken, now);
    var g := DefaultGroup(id + 1, id, email, now);
    var t := AllTag(id + 2, id, now);
    var p := NewPreference(id + 3, id, now);
    if !FirstLoginAccepted(db.users, db.tags, db.preferences, u, t, p) {
      return Thrown(SaveFailed);
    }
    db.users := db.users + [u];
    db.groups := db.groups + [g];
    db.tags := db.tags + [t];
    db.preferences := db.preferences + [p];
    db.nextId := id + 4;
    return Success(id);
  }

  /** The provisioning block of `SignInGoogleCallback`, up to its save. It answers the
      signed-in user's id (the JWT subject). */
  method Provision(db: Database, c: Claims, refreshToken: Option<string>, now: Timestamp)
    returns (r: Result<Guid>)
    requires db.Valid()
    modifies db
    ensures db.Valid()
    ensures IsNullOrEmpty(c.googleId) || IsNullOrEmpty(c.email) ==> r == Failure(ClaimsMissing)
    ensures !IsNullOrEmpty(c.googleId) && !IsNullOrEmpty(c.email) ==>
      match FirstIndex(old(db.users), GoogleIdIs(c.googleId.value)) {
        case None =>
          var id := old(db.nextId);
          var u := NewAccount(id, c.googleId.value, c.email.value, c, refreshToken, now);
          var t := AllTag(id + 2, id, now);
          var p := NewPreference(id + 3, id, now);
          if !FirstLoginAccepted(old(db.users), old(db.tags), old(db.preferences), u, t, p) then
            r == Thrown(SaveFailed)
          else
            && r == Success(id)
            && db.users == old(db.users) + [u]
            && db.groups == old(db.groups) + [DefaultGroup(id + 1, id, c.email.value, now)]
            && db.tags == old(db.tags) + [t]
            && db.preferences == old(db.preferences) + [p]
        case Some(i) =>
          && r == Success(old(db.users)[i].id)
          && db.users == old(db.users)[i := SignedInAgain(old(db.users)[i], c, refreshToken, now)]
          && db.groups == old(db.groups) && db.tags == old(db.tags) && db.preferences == old(db.preferences)
      }
    ensures !r.Success? ==> unchanged(db)
    ensures db.sites == old(db.sites) && db.siteTags == old(db.siteTags) && db.metrics == old(db.metrics)
  {
    if IsNullOrEmpty(c.googleId) || IsNullOrEmpty(c.email) {
      return Failure(ClaimsMissing);
    }
    var found := FirstIndex(db.users, GoogleIdIs(c.googleId.value));
    if found.None? {
      r := CreateAccount(db, c.googleId.value, c.email.value, c, refreshToken, now);
    } else {
      var i := found.value;
      SignedInAgainUnique(db.users, i, c, refreshToken, now);
      db.users := db.users[i := SignedInAgain(db.users[i], c, refreshToken, now)];
      return Success(db.users[i].id);
    }
  }

  /** The signed-in user's stored refresh token, if the user is stored. */
  function TokenOf(users: seq<User>, userId: Guid): string {
    match FirstIndex(users, UserIdIs(userId))
    case None => ""
    case Some(i) => users[i].googleRefreshToken
  }

  /** `SignInGoogleCallback` without its HTTP and JWT parts: provisioning, then discovery
      for a user whose stored refresh token is not empty. `discovered` holds the result of
      that discovery, if it ran; the callback itself ignores it. */
  method SignIn(db: Database, c: Claims, refreshToken: Option<string>, remote: Result<seq<string>>,
                hostOf: string -> string, now: Timestamp) returns (r: Result<Guid>, discovered: Option<Result<int>>)
    requires db.Valid()
    modifies db
    ensures db.Valid()
    ensures !r.Success? ==> discovered.None? && unchanged(db)
    ensures discovered.Some? <==> r.Success? && TokenOf(db.users, r.value) != ""
    ensures discovered.Some? ==>
      discovered.value == Discovery.Discovery(db.users, db.groups, old(db.sites), r.value, remote)
    ensures discovered.None? ==> db.sites == old(db.sites)
    ensures old(db.sites) <= db.sites
    ensures db.siteTags == old(db.siteTags) && db.metrics == old(db.metrics)
  {
    r := Provision(db, c, refreshToken, now);
    if r.Success? && TokenOf(db.users, r.value) != "" {
      var d := DiscoverSites(db, r.value, remote, hostOf, now);
      discovered := Some(d);
    } else {
      discovered := None;
    }
  }

  function GroupOf(userId: Guid): Group -> bool {
    (g: Group) => g.userId == userId
  }

  function TagOf(userId: Guid): Tag -> bool {
    (t: Tag) => t.userId == userId
  }

  /** After a first sign-in for an identifier no row refers to yet, the user owns exactly
      one group, the default "My sites", exactly one tag, the non-deletable "All", and
      exactly one preference row. That no row refers to the new id is what a fresh
      `Guid.NewGuid()` and the database's foreign keys give; `Valid()` does not carry
      foreign keys, so it is a precondition here rather than a consequence of `Valid()`. */
  lemma {:induction false} FirstLoginRows(groups: seq<Group>, tags: seq<Tag>, prefs: seq<UserPreference>,
                                          id: Guid, email: string, now: Timestamp)
    requires forall g :: g in groups ==> g.userId != id
    requires forall t :: t in tags ==> t.userId != id
    requires forall p :: p in prefs ==> p.userId != id
    ensures Filter(groups + [DefaultGroup(id + 1, id, email, now)], GroupOf(id))
         == [Group(id + 1, id, DefaultGroupName, email, true, now)]
    ensures Filter(tags + [AllTag(id + 2, id, now)], TagOf(id)) == [Tag(id + 2, id, AllTagName, false, now)]
    ensures Filter(prefs + [NewPreference(id + 3, id, now)], PreferenceOf(id)) == [NewPreference(id + 3, id, now)]
  {
    FilterAppend(groups, [DefaultGroup(id + 1, id, email, now)], GroupOf(id));
    FilterNone(groups, GroupOf(id));
    FilterAppend(tags, [AllTag(id + 2, id, now)], TagOf(id));
    FilterNone(tags, TagOf(id));
    FilterAppend(prefs, [NewPreference(id + 3, id, now)], PreferenceOf(id));
    FilterNone(prefs, PreferenceOf(id));
  }
}
