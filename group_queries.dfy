/** The read-only half of the group service: membership and existence
    checks (used by the message service) and the listing and analytics
    queries. It is a module of its own because the message service imports
    these checks while the group lifecycle imports the message purge. */
module GroupQueries {
  import opened Domain
  import opened Seqs
  import opened Store

  /** `checkUserExistInGroup`: fails when the group is missing, otherwise
      answers whether `u` is listed among its members. */
  function CheckUserExistInGroup(s: State, gid: GroupId, u: UserId): (r: Result<bool>)
    ensures r.Err? <==> !IsGroupExist(s, gid)
    ensures r.Err? ==> r.error == NotFound
    ensures r == Ok(true) <==> IsMember(s, gid, u)
  {
    if !IsGroupExist(s, gid) then Err(NotFound)
    else Ok(Includes(s.groups[gid].members, u))
  }

  /** `isGroupExist`: a lookup by id that never fails. In a consistent
      store a group exists exactly when somebody is a member of it (its
      admin at least), and only ids already issued can exist. */
  function IsGroupExist(s: State, gid: GroupId): (r: bool)
    ensures Valid(s) ==> (r <==> exists u :: IsMember(s, gid, u))
    ensures Valid(s) && r ==> gid < s.nextGroupId
  {
    if gid in s.groups then
      assert Valid(s) ==> IsMember(s, gid, s.groups[gid].admin);
      true
    else false
  }

  /** The ids below `n` of stored groups satisfying `p`, ascending: a
      collection scan in id order. */
  function Select(groups: map<GroupId, Group>, p: Group -> bool, n: nat): (r: seq<GroupId>)
    ensures forall i :: 0 <= i < |r| ==> r[i] < n && r[i] in groups && p(groups[r[i]])
    ensures forall g :: g < n && g in groups && p(groups[g]) ==> g in r
    ensures forall i, j :: 0 <= i < j < |r| ==> r[i] < r[j]
  {
    if n == 0 then []
    else Select(groups, p, n - 1) + (if n - 1 in groups && p(groups[n - 1]) then [n - 1] else [])
  }

  function IsPublic(): Group -> bool {
    (g: Group) => g.kind == Public
  }

  function AdminIs(u: UserId): Group -> bool {
    (g: Group) => g.admin == u
  }

  /** `getPublicGroups`: every public group document, each once. */
  function GetPublicGroups(s: State): (r: seq<(GroupId, Group)>)
    ensures forall i :: 0 <= i < |r| ==> r[i].0 in s.groups && r[i].1 == s.groups[r[i].0] && r[i].1.kind == Public
    ensures forall i, j :: 0 <= i < j < |r| ==> r[i].0 < r[j].0
    ensures Valid(s) ==> forall g :: g in s.groups && s.groups[g].kind == Public ==> (g, s.groups[g]) in r
  {
    var ids := Select(s.groups, IsPublic(), s.nextGroupId);
    var r := seq(|ids|, i requires 0 <= i < |ids| => (ids[i], s.groups[ids[i]]));
    assert forall g :: g in s.groups && s.groups[g].kind == Public && g < s.nextGroupId ==>
      exists i :: 0 <= i < |ids| && ids[i] == g && r[i] == (g, s.groups[g]);
    r
  }

  datatype GroupCount = GroupCount(groupId: GroupId, name: string, totalMembers: nat)

  datatype Report = Report(totalGroupsCreated: nat, groupUserCounts: seq<GroupCount>)

  /** `countDocuments({ admin: u })`. */
  function CountAdministered(s: State, u: UserId): nat {
    |set g | g in s.groups && s.groups[g].admin == u|
  }

  /** `analytics`: how many groups the caller administers, and for each of
      them its member count. */
  function Analytics(s: State, user: Option<UserId>): (r: Result<Report>)
    ensures r.Err? <==> user.None?
    ensures r.Err? ==> r.error == Unauthorized
    ensures r.Ok? ==> r.value.totalGroupsCreated == CountAdministered(s, user.value)
    ensures r.Ok? ==> forall i :: 0 <= i < |r.value.groupUserCounts| ==>
      var c := r.value.groupUserCounts[i];
      c.groupId in s.groups && s.groups[c.groupId].admin == user.value
      && c.name == s.groups[c.groupId].name && c.totalMembers == |s.groups[c.groupId].members|
    ensures r.Ok? && Valid(s) ==> forall g :: g in s.groups && s.groups[g].admin == user.value ==>
      GroupCount(g, s.groups[g].name, |s.groups[g].members|) in r.value.groupUserCounts
  {
    if user.None? then Err(Unauthorized)
    else
      var ids := Select(s.groups, AdminIs(user.value), s.nextGroupId);
      var counts := seq(|ids|, i requires 0 <= i < |ids| =>
        GroupCount(ids[i], s.groups[ids[i]].name, |s.groups[ids[i]].members|));
      assert forall g :: g in s.groups && s.groups[g].admin == user.value && g < s.nextGroupId ==>
        exists i :: 0 <= i < |ids| && ids[i] == g && counts[i] == GroupCount(g, s.groups[g].name, |s.groups[g].members|);
      Ok(Report(CountAdministered(s, user.value), counts))
  }

  /** The groups below `n` satisfying `p`, as a set. */
  ghost function Matching(groups: map<GroupId, Group>, p: Group -> bool, n: nat): set<GroupId> {
    set g | g in groups && g < n && p(groups[g])
  }

  lemma MatchingStep(groups: map<GroupId, Group>, p: Group -> bool, n: nat)
    requires n > 0
    ensures |Matching(groups, p, n)| == |Matching(groups, p, n - 1)| + (if n - 1 in groups && p(groups[n - 1]) then 1 else 0)
  {
    var below := Matching(groups, p, n - 1);
    if n - 1 in groups && p(groups[n - 1]) {
      assert Matching(groups, p, n) == below + {n - 1};
    } else {
      assert Matching(groups, p, n) == below;
    }
  }

  /** The scan below `n` finds exactly as many groups as the set of such
      groups has elements. */
  lemma {:induction false} SelectCount(groups: map<GroupId, Group>, p: Group -> bool, n: nat)
    ensures |Select(groups, p, n)| == |Matching(groups, p, n)|
  {
    if n == 0 {
      assert Matching(groups, p, n) == {};
    } else {
      SelectCount(groups, p, n - 1);
      MatchingStep(groups, p, n);
    }
  }

  /** In a consistent store the two analytics queries agree: the count
      equals the number of per-group entries. */
  lemma AnalyticsConsistent(s: State, u: UserId)
    requires Valid(s)
    ensures Analytics(s, Some(u)).Ok?
    ensures Analytics(s, Some(u)).value.totalGroupsCreated == |Analytics(s, Some(u)).value.groupUserCounts|
  {
    SelectCount(s.groups, AdminIs(u), s.nextGroupId);
    assert Matching(s.groups, AdminIs(u), s.nextGroupId)
        == (set g | g in s.groups && s.groups[g].admin == u);
  }
}
