/** The message service: posting is gated on group membership, reading
    returns a group's messages oldest first, and a group's messages are
    purged in bulk when the group is deleted. */
module MessageService {
  import opened Domain
  import opened Seqs
  import opened Store
  import opened Chronology
  import GroupQueries

  function InGroup(gid: GroupId): Message -> bool {
    (m: Message) => m.groupId == gid
  }

  function OutsideGroup(gid: GroupId): Message -> bool {
    (m: Message) => m.groupId != gid
  }

  /** `createMessage`: a member posts `content` to a group, stamped `now`. */
  function CreateMessage(s: State, user: Option<UserId>, gid: GroupId, content: string, now: Time): (r: Step<Result<Message>>)
    ensures r.result.Err? ==> r.state == s
    ensures r.result == Err(Unauthorized) <==> user.None?
    ensures r.result == Err(NotFound) <==> user.Some? && gid !in s.groups
    ensures r.result == Err(NotMember) <==> user.Some? && gid in s.groups && user.value !in s.groups[gid].members
    ensures r.result.Ok? <==> user.Some? && IsMember(s, gid, user.value)
    ensures r.result.Ok? ==>
      && r.result.value == Message(gid, user.value, content, now)
      && r.state == s.(messages := s.messages + [r.result.value])
  {
    if user.None? then Step(s, Err(Unauthorized))
    else
      match GroupQueries.CheckUserExistInGroup(s, gid, user.value)
      case Err(e) => Step(s, Err(e))
      case Ok(isMember) =>
        if !isMember then Step(s, Err(NotMember))
        else
          var m := Message(gid, user.value, content, now);
          Step(s.(messages := s.messages + [m]), Ok(m))
  }

  /** `getAllMessages`: the group's messages, oldest first. */
  function GetAllMessages(s: State, user: Option<UserId>, gid: GroupId): (r: Result<seq<Message>>)
    ensures r == Err(Unauthorized) <==> user.None?
    ensures r == Err(NotFound) <==> user.Some? && gid !in s.groups
    ensures r.Ok? <==> user.Some? && gid in s.groups
    ensures r.Ok? ==> multiset(r.value) == multiset(Filter(s.messages, InGroup(gid)))
    ensures r.Ok? ==> forall i :: 0 <= i < |r.value| ==> r.value[i].groupId == gid
    ensures r.Ok? ==> Chronological(r.value)
  {
    if user.None? then Err(Unauthorized)
    else if !GroupQueries.IsGroupExist(s, gid) then Err(NotFound)
    else
      var found := Filter(s.messages, InGroup(gid));
      var sorted := SortByTime(found);
      SortPermutes(found);
      assert forall i :: 0 <= i < |sorted| ==> sorted[i] in multiset(found);
      Ok(sorted)
  }

  /** `deleteMessageAssociateWithGroup`: `deleteMany({ groupId })`. */
  function DeleteMessageAssociateWithGroup(ms: seq<Message>, gid: GroupId): (r: seq<Message>)
    ensures forall i :: 0 <= i < |r| ==> r[i].groupId != gid && r[i] in ms
    ensures forall i :: 0 <= i < |ms| && ms[i].groupId != gid ==> ms[i] in r
  {
    Filter(ms, OutsideGroup(gid))
  }

  /** Purging twice is purging once. */
  lemma PurgeIdempotent(ms: seq<Message>, gid: GroupId)
    ensures DeleteMessageAssociateWithGroup(DeleteMessageAssociateWithGroup(ms, gid), gid)
         == DeleteMessageAssociateWithGroup(ms, gid)
  {
    FilterAbsorb(ms, OutsideGroup(gid), OutsideGroup(gid));
  }

  /** Purging a group's messages keeps the store consistent. */
  lemma PurgePreservesValid(s: State, gid: GroupId)
    requires Valid(s)
    ensures Valid(s.(messages := DeleteMessageAssociateWithGroup(s.messages, gid)))
  {
    var s' := s.(messages := DeleteMessageAssociateWithGroup(s.messages, gid));
    forall i | 0 <= i < |s'.messages|
      ensures IsMember(s', s'.messages[i].groupId, s'.messages[i].senderId)
    {
      var k :| 0 <= k < |s.messages| && s.messages[k] == s'.messages[i];
    }
    SameGroupsValid(s, s');
  }

  /** Purging one group leaves every other group's messages exactly as they
      were, in their original order. */
  lemma PurgeKeepsOtherGroups(ms: seq<Message>, gid: GroupId, other: GroupId)
    requires other != gid
    ensures Filter(DeleteMessageAssociateWithGroup(ms, gid), InGroup(other)) == Filter(ms, InGroup(other))
  {
    FilterAbsorb(ms, OutsideGroup(gid), InGroup(other));
  }

  /** Reading keeps, for every instant, the group's messages stamped with it
      in the order they were stored. */
  lemma GetAllMessagesStable(s: State, user: UserId, gid: GroupId, t: Time)
    requires gid in s.groups
    ensures GetAllMessages(s, Some(user), gid).Ok?
    ensures Filter(GetAllMessages(s, Some(user), gid).value, At(t)) == Filter(Filter(s.messages, InGroup(gid)), At(t))
  {
    SortStable(Filter(s.messages, InGroup(gid)), t);
  }

  /** Posting keeps the store consistent: the sender is a member. */
  lemma CreateMessagePreservesValid(s: State, user: Option<UserId>, gid: GroupId, content: string, now: Time)
    requires Valid(s)
    ensures Valid(CreateMessage(s, user, gid, content, now).state)
  {
    var step := CreateMessage(s, user, gid, content, now);
    if step.result.Ok? {
      var s' := step.state;
      forall i | 0 <= i < |s'.messages|
        ensures IsMember(s', s'.messages[i].groupId, s'.messages[i].senderId)
      {
        if i < |s.messages| {
          assert s'.messages[i] == s.messages[i];
          assert IsMember(s, s.messages[i].groupId, s.messages[i].senderId);
        }
      }
      SameGroupsValid(s, s');
    }
  }

  /** A message just posted is among those the group's reader gets back. */
  lemma PostedMessageIsListed(s: State, user: UserId, gid: GroupId, content: string, now: Time)
    requires CreateMessage(s, Some(user), gid, content, now).result.Ok?
    ensures var step := CreateMessage(s, Some(user), gid, content, now);
      && GetAllMessages(step.state, Some(user), gid).Ok?
      && step.result.value in GetAllMessages(step.state, Some(user), gid).value
  {
    var step := CreateMessage(s, Some(user), gid, content, now);
    var m := step.result.value;
    FilterAppend(s.messages, [m], InGroup(gid));
    assert Filter([m], InGroup(gid)) == [m];
    var listed := GetAllMessages(step.state, Some(user), gid).value;
    assert m in multiset(Filter(step.state.messages, InGroup(gid)));
    assert m in multiset(listed);
  }
}
