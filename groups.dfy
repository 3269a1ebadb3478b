/** The group list (`GetGroupsHandler`) and the rename command (`UpdateGroupHandler`). */
module Groups {
  import opened Common
  import opened Entities
  import opened Seqs
  import opened Text
  import opened Store

  /** `GroupDto`. */
  datatype GroupInfo = GroupInfo(id: Guid, displayName: string, emailOwner: string, isDefault: bool)

  const MaxGroupName := 40

  /** The virtual group that stands for every site; it is never stored. */
  const AllGroup := GroupInfo(EmptyGuid, "All", "", true)

  function InfoOf(g: Group): GroupInfo {
    GroupInfo(g.id, g.displayName, g.emailOwner, g.isDefault)
  }

  function GroupOf(userId: Guid): Group -> bool {
    (g: Group) => g.userId == userId
  }

  /** The list order: default groups first, then by creation time. */
  predicate GroupLe(a: Group, b: Group) {
    (a.isDefault && !b.isDefault) || (a.isDefault == b.isDefault && a.createdAt <= b.createdAt)
  }

  lemma GroupLeTotal()
    ensures TotalPreorder(GroupLe)
  {
  }

  /** The user's stored groups in list order. */
  function UserGroups(groups: seq<Group>, userId: Guid): (r: seq<Group>)
    ensures multiset(r) == multiset(Filter(groups, GroupOf(userId)))
    ensures Sorted(r, GroupLe)
  {
    SortByPermutes(Filter(groups, GroupOf(userId)), GroupLe);
    GroupLeTotal();
    SortBySorted(Filter(groups, GroupOf(userId)), GroupLe);
    SortBy(Filter(groups, GroupOf(userId)), GroupLe)
  }

  /** `GetGroupsHandler.HandleAsync`: "All" followed by the user's groups; always a success. */
  function GetGroups(groups: seq<Group>, userId: Guid): (r: Result<seq<GroupInfo>>)
    ensures r.Success? && |r.value| == |Filter(groups, GroupOf(userId))| + 1
    ensures r.value[0] == AllGroup
  {
    Success([AllGroup] + Map(UserGroups(groups, userId), InfoOf))
  }

  /** After "All" come exactly the user's groups, every default group before every other
      one, and groups of the same kind oldest first. */
  lemma GetGroupsSpec(groups: seq<Group>, userId: Guid)
    ensures forall i :: 1 <= i < |GetGroups(groups, userId).value| ==>
      GetGroups(groups, userId).value[i] == InfoOf(UserGroups(groups, userId)[i - 1])
    ensures forall g :: g in UserGroups(groups, userId) <==> g in groups && g.userId == userId
    ensures forall i, j :: 0 <= i < j < |UserGroups(groups, userId)| ==>
      var a, b := UserGroups(groups, userId)[i], UserGroups(groups, userId)[j];
      (b.isDefault ==> a.isDefault) && (a.isDefault == b.isDefault ==> a.createdAt <= b.createdAt)
  {
    UserGroupsMembers(groups, userId);
    UserGroupsOrder(groups, userId);
  }

  lemma UserGroupsMembers(groups: seq<Group>, userId: Guid)
    ensures forall g :: g in UserGroups(groups, userId) <==> g in groups && g.userId == userId
  {
    var r := UserGroups(groups, userId);
    forall g
      ensures g in r <==> g in groups && g.userId == userId
    {
      assert g in r <==> g in multiset(r);
      assert g in Filter(groups, GroupOf(userId)) <==> g in multiset(Filter(groups, GroupOf(userId)));
    }
  }

  lemma UserGroupsOrder(groups: seq<Group>, userId: Guid)
    ensures forall i, j :: 0 <= i < j < |UserGroups(groups, userId)| ==>
      var a, b := UserGroups(groups, userId)[i], UserGroups(groups, userId)[j];
      (b.isDefault ==> a.isDefault) && (a.isDefault == b.isDefault ==> a.createdAt <= b.createdAt)
  {
    var r := UserGroups(groups, userId);
    forall i, j | 0 <= i < j < |r|
      ensures (r[j].isDefault ==> r[i].isDefault)
        && (r[i].isDefault == r[j].isDefault ==> r[i].createdAt <= r[j].createdAt)
    {
      assert GroupLe(r[i], r[j]);
    }
  }

  function OwnedGroup(groupId: Guid, userId: Guid): Group -> bool {
    (g: Group) => g.id == groupId && g.userId == userId
  }

  /** `UpdateGroupHandler.HandleAsync`. The name is checked before trimming and stored
      trimmed; group names need not be unique, so the save is never rejected. */
  method UpdateGroup(db: Database, userId: Guid, groupId: Guid, name: string) returns (r: Result<GroupInfo>)
    requires db.Valid()
    modifies db
    ensures db.Valid()
    ensures IsBlank(name) ==> r == Failure("Group name is required")
    ensures !IsBlank(name) && Utf16Length(name) > MaxGroupName ==> r == Failure("Group name must be 40 characters or less")
    ensures !IsBlank(name) && Utf16Length(name) <= MaxGroupName ==>
      match FirstIndex(old(db.groups), OwnedGroup(groupId, userId)) {
        case None => r == Failure("Group not found")
        case Some(i) =>
          if old(db.groups)[i].isDefault then r == Failure("Cannot rename default group")
          else r == Success(GroupInfo(groupId, Trim(name), old(db.groups)[i].emailOwner, false))
      }
    ensures r.Success? ==>
      var i := FirstIndex(old(db.groups), OwnedGroup(groupId, userId)).value;
      && db.groups == old(db.groups)[i := old(db.groups)[i].(displayName := Trim(name))]
      && db.users == old(db.users) && db.tags == old(db.tags) && db.sites == old(db.sites)
      && db.siteTags == old(db.siteTags) && db.metrics == old(db.metrics)
      && db.preferences == old(db.preferences) && db.nextId == old(db.nextId)
    ensures !r.Success? ==> unchanged(db)
  {
    if IsBlank(name) {
      return Failure("Group name is required");
    }
    if Utf16Length(name) > MaxGroupName {
      return Failure("Group name must be 40 characters or less");
    }
    var found := FirstIndex(db.groups, OwnedGroup(groupId, userId));
    if found.None? {
      return Failure("Group not found");
    }
    var i := found.value;
    if db.groups[i].isDefault {
      return Failure("Cannot rename default group");
    }
    db.groups := db.groups[i := db.groups[i].(displayName := Trim(name))];
    return Success(InfoOf(db.groups[i]));
  }
}
