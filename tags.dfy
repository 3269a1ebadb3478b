/** The tag commands (`CreateTagHandler`, `UpdateTagHandler`, `DeleteTagHandler`) and the
    tag list (`GetTagsHandler`). Names are checked before trimming and stored trimmed. */
module Tags {
  import opened Common
  import opened Entities
  import opened Seqs
  import opened Text
  import opened Store
  import opened Discovery

  /** `CreateTagResponse`: what the commands and the list return for a tag. */
  datatype TagInfo = TagInfo(id: Guid, name: string, isDeletable: bool)

  const MaxTagName := 30
  const NameRequired := "Tag name is required"
  const NameTooLong := "Tag name must be 30 characters or less"
  const NameTaken := "Tag with this name already exists"
  const TagNotFound := "Tag not found"

  function InfoOf(t: Tag): TagInfo {
    TagInfo(t.id, t.name, t.isDeletable)
  }

  /** The user has a tag named exactly `name`, other than tag `except`. */
  predicate NameUsed(tags: seq<Tag>, userId: Guid, name: string, except: Option<Guid>) {
    exists t :: t in tags && t.userId == userId && t.name == name && Some(t.id) != except
  }

  /** The tag `tagId` if it is the user's. */
  function OwnedTag(tagId: Guid, userId: Guid): Tag -> bool {
    (t: Tag) => t.id == tagId && t.userId == userId
  }

  /** Adding a tag with a fresh id keeps the tag keys unique exactly when the user has no
      tag with its name. */
  lemma AddTagUnique(tags: seq<Tag>, t: Tag)
    requires UniqueTags(tags)
    requires forall i :: 0 <= i < |tags| ==> tags[i].id < t.id
    ensures UniqueTags(tags + [t]) <==> !NameUsed(tags, t.userId, t.name, None)
  {
    if NameUsed(tags, t.userId, t.name, None) {
      var u :| u in tags && u.userId == t.userId && u.name == t.name;
      var i :| 0 <= i < |tags| && tags[i] == u;
      assert (tags + [t])[i] == u && (tags + [t])[|tags|] == t;
    }
  }

  /** Renaming tag `i` keeps the tag keys unique exactly when no other tag of its user has
      the new name. */
  lemma RenameTagUnique(tags: seq<Tag>, i: nat, name: string)
    requires UniqueTags(tags) && i < |tags|
    ensures UniqueTags(tags[i := tags[i].(name := name)])
        <==> !NameUsed(tags, tags[i].userId, name, Some(tags[i].id))
  {
    var renamed := tags[i := tags[i].(name := name)];
    if NameUsed(tags, tags[i].userId, name, Some(tags[i].id)) {
      var u :| u in tags && u.userId == tags[i].userId && u.name == name && Some(u.id) != Some(tags[i].id);
      var j :| 0 <= j < |tags| && tags[j] == u;
      assert renamed[j] == u && renamed[i].name == name;
    }
  }

  /** `CreateTagHandler.HandleAsync`. The duplicate check compares the name as given while
      the tag stores it trimmed, so a padded name of an existing tag passes the check and
      the database then rejects the save; that exception is not caught. */
  method CreateTag(db: Database, userId: Guid, name: string, now: Timestamp) returns (r: Result<TagInfo>)
    requires db.Valid()
    modifies db
    ensures db.Valid()
    ensures IsBlank(name) ==> r == Failure(NameRequired)
    ensures !IsBlank(name) && Utf16Length(name) > MaxTagName ==> r == Failure(NameTooLong)
    ensures !IsBlank(name) && Utf16Length(name) <= MaxTagName && NameUsed(old(db.tags), userId, name, None) ==>
      r == Failure(NameTaken)
    ensures !IsBlank(name) && Utf16Length(name) <= MaxTagName && !NameUsed(old(db.tags), userId, name, None) ==>
      if NameUsed(old(db.tags), userId, Trim(name), None) then r == Thrown(SaveFailed)
      else r == Success(TagInfo(old(db.nextId), Trim(name), true))
    ensures r.Success? ==>
      && db.tags == old(db.tags) + [Tag(old(db.nextId), userId, Trim(name), true, now)]
      && db.nextId == old(db.nextId) + 1
      && db.users == old(db.users) && db.groups == old(db.groups) && db.sites == old(db.sites)
      && db.siteTags == old(db.siteTags) && db.metrics == old(db.metrics)
      && db.preferences == old(db.preferences)
    ensures !r.Success? ==> unchanged(db)
  {
    if IsBlank(name) {
      return Failure(NameRequired);
    }
    if Utf16Length(name) > MaxTagName {
      return Failure(NameTooLong);
    }
    if NameUsed(db.tags, userId, name, None) {
      return Failure(NameTaken);
    }
    var tag := Tag(db.nextId, userId, Trim(name), true, now);
    AddTagUnique(db.tags, tag);
    var saved := AddTag(db, tag);
    if !saved {
      return Thrown(SaveFailed);
    }
    return Success(InfoOf(tag));
  }

  /** `Tags.Add` with a fresh id and `SaveChanges`: the database stores the tag unless it
      breaks the (UserId, Name) index. */
  method AddTag(db: Database, tag: Tag) returns (saved: bool)
    requires db.Valid() && tag.id == db.nextId
    modifies db
    ensures db.Valid()
    ensures saved == UniqueTags(old(db.tags) + [tag])
    ensures saved ==>
      && db.tags == old(db.tags) + [tag]
      && db.nextId == old(db.nextId) + 1
      && db.users == old(db.users) && db.groups == old(db.groups) && db.sites == old(db.sites)
      && db.siteTags == old(db.siteTags) && db.metrics == old(db.metrics)
      && db.preferences == old(db.preferences)
    ensures !saved ==> unchanged(db)
  {
    if !UniqueTags(db.tags + [tag]) {
      return false;
    }
    var id := db.NewId();
    db.tags := db.tags + [tag];
    return true;
  }

  /** A trimmed name passes the duplicate check exactly when the save accepts it: the
      uncaught rejection needs leading or trailing white space. */
  lemma CreateThrowsOnlyForPadded(tags: seq<Tag>, userId: Guid, name: string)
    requires !NameUsed(tags, userId, name, None)
    requires NameUsed(tags, userId, Trim(name), None)
    ensures Trim(name) != name
  {
  }

  /** `UpdateTagHandler.HandleAsync`. */
  method UpdateTag(db: Database, userId: Guid, tagId: Guid, name: string) returns (r: Result<TagInfo>)
    requires db.Valid()
    modifies db
    ensures db.Valid()
    ensures IsBlank(name) ==> r == Failure(NameRequired)
    ensures !IsBlank(name) && Utf16Length(name) > MaxTagName ==> r == Failure(NameTooLong)
    ensures !IsBlank(name) && Utf16Length(name) <= MaxTagName ==>
      match FirstIndex(old(db.tags), OwnedTag(tagId, userId)) {
        case None => r == Failure(TagNotFound)
        case Some(i) =>
          if !old(db.tags)[i].isDeletable then r == Failure("Cannot rename system tag")
          else if NameUsed(old(db.tags), userId, name, Some(tagId)) then r == Failure(NameTaken)
          else if NameUsed(old(db.tags), userId, Trim(name), Some(tagId)) then r == Thrown(SaveFailed)
          else r == Success(TagInfo(tagId, Trim(name), true))
      }
    ensures r.Success? ==>
      var i := FirstIndex(old(db.tags), OwnedTag(tagId, userId)).value;
      && db.tags == old(db.tags)[i := old(db.tags)[i].(name := Trim(name))]
      && db.users == old(db.users) && db.groups == old(db.groups) && db.sites == old(db.sites)
      && db.siteTags == old(db.siteTags) && db.metrics == old(db.metrics)
      && db.preferences == old(db.preferences) && db.nextId == old(db.nextId)
    ensures !r.Success? ==> unchanged(db)
  {
    if IsBlank(name) {
      return Failure(NameRequired);
    }
    if Utf16Length(name) > MaxTagName {
      return Failure(NameTooLong);
    }
    var found := FirstIndex(db.tags, OwnedTag(tagId, userId));
    if found.None? {
      return Failure(TagNotFound);
    }
    var i := found.value;
    var tag := db.tags[i];
    if !tag.isDeletable {
      return Failure("Cannot rename system tag");
    }
    if NameUsed(db.tags, userId, name, Some(tagId)) {
      return Failure(NameTaken);
    }
    RenameTagUnique(db.tags, i, Trim(name));
    if !UniqueTags(db.tags[i := tag.(name := Trim(name))]) {
      return Thrown(SaveFailed);
    }
    db.tags := db.tags[i := tag.(name := Trim(name))];
    return Success(InfoOf(db.tags[i]));
  }

  /** Renaming a deletable tag to its own, already trimmed, name passes every check: the
      duplicate check leaves the tag itself out. */
  lemma RenameToOwnName(tags: seq<Tag>, i: nat)
    requires UniqueTags(tags) && i < |tags|
    ensures !NameUsed(tags, tags[i].userId, tags[i].name, Some(tags[i].id))
  {
  }

  function TagIdIsNot(tagId: Guid): Tag -> bool {
    (t: Tag) => t.id != tagId
  }

  function LinkTagIsNot(tagId: Guid): SiteTag -> bool {
    (l: SiteTag) => l.tagId != tagId
  }

  /** `DeleteTagHandler.HandleAsync`: the tag and every link to it are removed. */
  method DeleteTag(db: Database, userId: Guid, tagId: Guid) returns (r: Result<bool>)
    requires db.Valid()
    modifies db
    ensures db.Valid()
    ensures match FirstIndex(old(db.tags), OwnedTag(tagId, userId)) {
      case None => r == Failure(TagNotFound)
      case Some(i) =>
        if !old(db.tags)[i].isDeletable then r == Failure("Cannot delete system tag")
        else r == Success(true)
    }
    ensures r.Success? ==>
      && db.tags == Filter(old(db.tags), TagIdIsNot(tagId))
      && db.siteTags == Filter(old(db.siteTags), LinkTagIsNot(tagId))
      && db.users == old(db.users) && db.groups == old(db.groups) && db.sites == old(db.sites)
      && db.metrics == old(db.metrics) && db.preferences == old(db.preferences)
      && db.nextId == old(db.nextId)
    ensures !r.Success? ==> unchanged(db)
  {
    var found := FirstIndex(db.tags, OwnedTag(tagId, userId));
    if found.None? {
      return Failure(TagNotFound);
    }
    if !db.tags[found.value].isDeletable {
      return Failure("Cannot delete system tag");
    }
    RemoveTag(db, tagId);
    return Success(true);
  }

  /** The `RemoveRange` of the tag's links and the `Remove` of the tag, saved together. */
  method RemoveTag(db: Database, tagId: Guid)
    requires db.Valid()
    modifies db
    ensures db.Valid()
    ensures db.tags == Filter(old(db.tags), TagIdIsNot(tagId))
    ensures db.siteTags == Filter(old(db.siteTags), LinkTagIsNot(tagId))
    ensures db.users == old(db.users) && db.groups == old(db.groups) && db.sites == old(db.sites)
    ensures db.metrics == old(db.metrics) && db.preferences == old(db.preferences)
    ensures db.nextId == old(db.nextId)
  {
    DeleteKeepsKeys(db.tags, db.siteTags, tagId);
    var tags := Filter(db.tags, TagIdIsNot(tagId));
    assert forall i :: 0 <= i < |tags| ==> tags[i] in db.tags;
    db.siteTags := Filter(db.siteTags, LinkTagIsNot(tagId));
    db.tags := tags;
  }

  /** After the deletion no link refers to the tag and the tag is gone, every other tag and
      link is kept in order, and the keys stay unique. */
  lemma DeleteKeepsKeys(tags: seq<Tag>, links: seq<SiteTag>, tagId: Guid)
    requires UniqueTags(tags) && UniqueLinks(links)
    ensures forall l :: l in Filter(links, LinkTagIsNot(tagId)) <==> l in links && l.tagId != tagId
    ensures forall t :: t in Filter(tags, TagIdIsNot(tagId)) <==> t in tags && t.id != tagId
    ensures UniqueTags(Filter(tags, TagIdIsNot(tagId))) && UniqueLinks(Filter(links, LinkTagIsNot(tagId)))
  {
    FilterUniqueTags(tags, TagIdIsNot(tagId));
    FilterUniqueLinks(links, LinkTagIsNot(tagId));
  }

  function TagKey(t: Tag): Guid {
    t.id
  }

  function TagNameKey(t: Tag): (Guid, string) {
    (t.userId, t.name)
  }

  /** Removing tags keeps the primary key and the (UserId, Name) index unique. */
  lemma FilterUniqueTags(tags: seq<Tag>, p: Tag -> bool)
    requires UniqueTags(tags)
    ensures UniqueTags(Filter(tags, p))
  {
    assert DistinctKeys(tags, TagKey) && DistinctKeys(tags, TagNameKey) by {
      forall i, j | 0 <= i < j < |tags|
        ensures TagKey(tags[i]) != TagKey(tags[j]) && TagNameKey(tags[i]) != TagNameKey(tags[j])
      {
      }
    }
    FilterDistinctKeys(tags, TagKey, p);
    FilterDistinctKeys(tags, TagNameKey, p);
    var r := Filter(tags, p);
    forall i, j | 0 <= i < j < |r|
      ensures r[i].id != r[j].id && (r[i].userId != r[j].userId || r[i].name != r[j].name)
    {
      assert TagKey(r[i]) != TagKey(r[j]) && TagNameKey(r[i]) != TagNameKey(r[j]);
    }
  }

  function TagOf(userId: Guid): Tag -> bool {
    (t: Tag) => t.userId == userId
  }

  predicate CreatedLe(a: Tag, b: Tag) {
    a.createdAt <= b.createdAt
  }

  lemma CreatedLeTotal()
    ensures TotalPreorder(CreatedLe)
  {
  }

  /** The user's tags in order of creation. */
  function UserTags(tags: seq<Tag>, userId: Guid): (r: seq<Tag>)
    ensures multiset(r) == multiset(Filter(tags, TagOf(userId)))
    ensures Sorted(r, CreatedLe)
  {
    SortByPermutes(Filter(tags, TagOf(userId)), CreatedLe);
    CreatedLeTotal();
    SortBySorted(Filter(tags, TagOf(userId)), CreatedLe);
    SortBy(Filter(tags, TagOf(userId)), CreatedLe)
  }

  /** The tag list holds each of the user's tags and no other, oldest first. */
  lemma UserTagsSpec(tags: seq<Tag>, userId: Guid)
    ensures forall t :: t in UserTags(tags, userId) <==> t in tags && t.userId == userId
    ensures forall i, j :: 0 <= i < j < |UserTags(tags, userId)| ==>
      UserTags(tags, userId)[i].createdAt <= UserTags(tags, userId)[j].createdAt
  {
    var r := UserTags(tags, userId);
    forall t
      ensures t in r <==> t in tags && t.userId == userId
    {
      assert t in r <==> t in multiset(r);
      assert t in Filter(tags, TagOf(userId)) <==> t in multiset(Filter(tags, TagOf(userId)));
    }
    forall i, j | 0 <= i < j < |r|
      ensures r[i].createdAt <= r[j].createdAt
    {
      assert CreatedLe(r[i], r[j]);
    }
  }

  /** `GetTagsHandler.HandleAsync`: always a success. */
  function GetTags(tags: seq<Tag>, userId: Guid): (r: Result<seq<TagInfo>>)
    ensures r.Success?
    ensures |r.value| == |Filter(tags, TagOf(userId))|
    ensures forall i :: 0 <= i < |r.value| ==> r.value[i] == InfoOf(UserTags(tags, userId)[i])
  {
    Success(Map(UserTags(tags, userId), InfoOf))
  }
}
