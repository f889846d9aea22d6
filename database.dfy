/** The services as they run against the stores: one object whose fields
    are the group collection, the users' back-references, the message
    collection and the user directory. Each service call loads a group
    document, checks its guards, changes the document and saves it, and
    calls the user service for the back-references. Every method is proved
    to do exactly what the matching transition of GroupService or
    MessageService describes. */
module Database {
  import opened Domain
  import opened Seqs
  import opened Store
  import GroupQueries
  import MessageService
  import GroupService

  class ChatDb {
    var groups: map<GroupId, Group>
    var userGroups: map<UserId, set<GroupId>>
    var messages: seq<Message>
    var emails: map<Email, UserId>
    var nextGroupId: GroupId

    /** The stores' contents as one value. */
    function Snapshot(): State
      reads this
    {
      State(groups, userGroups, messages, emails, nextGroupId)
    }

    ghost predicate Valid()
      reads this
    {
      Store.Valid(Snapshot())
    }

    /** Empty collections over a given user directory. */
    constructor (directory: map<Email, UserId>)
      ensures Snapshot() == Empty(directory) && Valid()
    {
      groups, userGroups, messages := map[], map[], [];
      emails, nextGroupId := directory, 0;
      EmptyValid(directory);
    }

    /** The user service's `updateUserGroup(u, g)`. */
    method UpdateUserGroup(u: UserId, g: GroupId)
      modifies this
      ensures Snapshot() == old(Snapshot()).(userGroups := AddRef(old(userGroups), u, g))
    {
      var listed := if u in userGroups then userGroups[u] else {};
      userGroups := userGroups[u := listed + {g}];
    }

    /** The user service's `removeGroupIdFromEachMember(group)`. */
    method RemoveGroupIdFromEachMember(members: seq<UserId>, g: GroupId)
      modifies this
      ensures Snapshot() == old(Snapshot()).(userGroups := Detach(old(userGroups), members, g))
    {
      userGroups := Detach(userGroups, members, g);
    }

    method CreateGroup(user: Option<UserId>, name: string, kind: GroupType) returns (r: Result<(GroupId, Group)>)
      requires Valid()
      modifies this
      ensures Valid()
      ensures Step(Snapshot(), r) == GroupService.CreateGroup(old(Snapshot()), user, name, kind)
    {
      GroupService.CreateGroupPreservesValid(Snapshot(), user, name, kind);
      if user.None? {
        return Err(Unauthorized);
      }
      var u := user.value;
      var gid := nextGroupId;
      var group := Group(name, kind, u, [u], []);
      groups := groups[gid := group];
      nextGroupId := nextGroupId + 1;
      UpdateUserGroup(u, gid);
      r := Ok((gid, group));
    }

    method JoinPublicGroup(user: Option<UserId>, gid: GroupId) returns (r: Result<string>)
      requires Valid()
      modifies this
      ensures Valid()
      ensures Step(Snapshot(), r) == GroupService.JoinPublicGroup(old(Snapshot()), user, gid)
    {
      GroupService.JoinPublicGroupPreservesValid(Snapshot(), user, gid);
      if user.None? {
        return Err(Unauthorized);
      }
      if gid !in groups {
        return Err(NotFound);
      }
      var group := groups[gid];
      if group.kind != Public {
        return Err(InvalidState);
      }
      var u := user.value;
      if Includes(group.members, u) {
        return Err(Conflict);
      }
      group := group.(members := group.members + [u]);
      groups := groups[gid := group];
      UpdateUserGroup(u, gid);
      r := Ok(GroupService.JoinedReply);
    }

    /** `token` stands for the fresh random secret, so no ledger holds it. */
    method CreateInvitation(user: Option<UserId>, gid: GroupId, target: UserId, token: Token, now: Time)
      returns (r: Result<string>)
      requires Valid()
      requires forall g :: g in groups ==> !HoldsToken(groups[g], token)
      modifies this
      ensures Valid()
      ensures Step(Snapshot(), r) == GroupService.CreateInvitation(old(Snapshot()), user, gid, target, token, now)
    {
      GroupService.CreateInvitationPreservesValid(Snapshot(), user, gid, target, token, now);
      if user.None? {
        return Err(Unauthorized);
      }
      if gid !in groups {
        return Err(NotFound);
      }
      var group := groups[gid];
      if group.admin != user.value {
        return Err(Forbidden);
      }
      if Includes(group.members, target) {
        return Err(Conflict);
      }
      var expiresAt := now + InvitationLifetime;
      group := group.(inviteToken := group.inviteToken + [Invitation(target, token, expiresAt)]);
      groups := groups[gid := group];
      r := Ok(GroupService.InvitationLink(token));
    }

    method AcceptInvitation(token: Token, email: Email, now: Time) returns (r: Result<string>)
      requires Valid()
      modifies this
      ensures Valid()
      ensures Step(Snapshot(), r) == GroupService.AcceptInvitation(old(Snapshot()), token, email, now)
    {
      GroupService.AcceptInvitationPreservesValid(Snapshot(), token, email, now);
      if email !in emails {
        return Err(Unauthorized);
      }
      var u := emails[email];
      var holder := GroupService.FindHolder(groups, token, 0, nextGroupId);
      if holder.None? {
        return Err(NotFound);
      }
      var gid := holder.value;
      var group := groups[gid];
      var invitation := FindInvitation(group.inviteToken, token);
      if invitation.None? || now > invitation.value.expiresAt {
        return Err(Expired);
      }
      if invitation.value.userId != u {
        return Err(Forbidden);
      }
      if Includes(group.members, u) {
        return Err(Conflict);
      }
      group := group.(members := group.members + [u]);
      group := group.(inviteToken := Filter(group.inviteToken, GroupService.TokenIsNot(token)));
      groups := groups[gid := group];
      UpdateUserGroup(u, gid);
      r := Ok(GroupService.JoinedReply);
    }

    method EditGroup(gid: GroupId, name: string) returns (r: Option<Group>)
      requires Valid()
      modifies this
      ensures Valid()
      ensures Step(Snapshot(), r) == GroupService.EditGroup(old(Snapshot()), gid, name)
    {
      GroupService.EditGroupPreservesValid(Snapshot(), gid, name);
      if gid !in groups {
        return None;
      }
      var group := groups[gid].(name := name);
      groups := groups[gid := group];
      r := Some(group);
    }

    /** The cascade runs in the service's order: back-references, then
        messages, then the group record. */
    method DeleteGroup(gid: GroupId, user: UserId) returns (r: Result<()>)
      requires Valid()
      modifies this
      ensures Valid()
      ensures Step(Snapshot(), r) == GroupService.DeleteGroup(old(Snapshot()), gid, user)
    {
      GroupService.DeleteGroupPreservesValid(Snapshot(), gid, user);
      if gid !in groups {
        return Err(NotFound);
      }
      var group := groups[gid];
      if group.admin != user {
        return Err(Forbidden);
      }
      RemoveGroupIdFromEachMember(group.members, gid);
      DeleteMessageAssociateWithGroup(gid);
      groups := groups - {gid};
      r := Ok(());
    }

    method CreateMessage(user: Option<UserId>, gid: GroupId, content: string, now: Time) returns (r: Result<Message>)
      requires Valid()
      modifies this
      ensures Valid()
      ensures Step(Snapshot(), r) == MessageService.CreateMessage(old(Snapshot()), user, gid, content, now)
    {
      MessageService.CreateMessagePreservesValid(Snapshot(), user, gid, content, now);
      if user.None? {
        return Err(Unauthorized);
      }
      var inGroup := GroupQueries.CheckUserExistInGroup(Snapshot(), gid, user.value);
      if inGroup.Err? {
        return Err(inGroup.error);
      }
      if !inGroup.value {
        return Err(NotMember);
      }
      var m := Message(gid, user.value, content, now);
      messages := messages + [m];
      r := Ok(m);
    }

    /** Also called half-way through `DeleteGroup`'s cascade, where the
        back-references are already detached, so the invariant is kept
        rather than demanded. */
    method DeleteMessageAssociateWithGroup(gid: GroupId)
      modifies this
      ensures Snapshot() == old(Snapshot()).(messages := MessageService.DeleteMessageAssociateWithGroup(old(messages), gid))
      ensures old(Valid()) ==> Valid()
    {
      if Valid() {
        MessageService.PurgePreservesValid(Snapshot(), gid);
      }
      messages := MessageService.DeleteMessageAssociateWithGroup(messages, gid);
    }
  }
}
