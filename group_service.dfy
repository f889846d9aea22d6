/** The group lifecycle: creating a group, joining a public one, admin
    invitations and their acceptance, renaming, and deletion with its
    cascade over back-references and messages. Every guard runs before any
    write, so a failing call leaves the store as it was. */
module GroupService {
  import opened Domain
  import opened Seqs
  import opened Store
  import opened MessageService

  /** The reply to a successful join or acceptance. */
  const JoinedReply: string := "Joined the group successfully"

  /** The route an invitation link points at; the token follows it. */
  const AcceptRoute: string := "/api/groups/accept-invitation/"

  /** The `invitationLink` handed back by `createInvitation`. */
  function InvitationLink(t: Token): (link: string)
    ensures TokenOfLink(link) == Some(t)
  {
    assert (AcceptRoute + t)[..|AcceptRoute|] == AcceptRoute;
    assert (AcceptRoute + t)[|AcceptRoute|..] == t;
    AcceptRoute + t
  }

  /** What the acceptance route reads back out of a link. */
  function TokenOfLink(link: string): Option<Token> {
    if |AcceptRoute| <= |link| && link[..|AcceptRoute|] == AcceptRoute
    then Some(link[|AcceptRoute|..])
    else None
  }

  /** Ledger entries that do not carry `t`. */
  function TokenIsNot(t: Token): Invitation -> bool {
    (inv: Invitation) => inv.token != t
  }

  /** `s` with `u` appended to the members of `gid`, the ledger of `gid`
      replaced by `ledger`, and `gid` added to `u`'s back-references: the
      common tail of a join and an acceptance. */
  function Admit(s: State, gid: GroupId, u: UserId, ledger: seq<Invitation>): (r: State)
    requires gid in s.groups
    ensures forall g, v :: IsMember(r, g, v) <==> IsMember(s, g, v) || (g == gid && v == u)
    ensures forall g, v :: HasRef(r, v, g) <==> HasRef(s, v, g) || (g == gid && v == u)
    ensures r.groups.Keys == s.groups.Keys
    ensures forall g :: g in s.groups && g != gid ==> r.groups[g] == s.groups[g]
    ensures r.groups[gid] == s.groups[gid].(members := s.groups[gid].members + [u], inviteToken := ledger)
    ensures r.messages == s.messages && r.emails == s.emails && r.nextGroupId == s.nextGroupId
  {
    var g := s.groups[gid];
    s.(groups := s.groups[gid := g.(members := g.members + [u], inviteToken := ledger)],
       userGroups := AddRef(s.userGroups, u, gid))
  }

  /** `createGroup`: the caller becomes admin and sole member. */
  function CreateGroup(s: State, user: Option<UserId>, name: string, kind: GroupType): (r: Step<Result<(GroupId, Group)>>)
    ensures r.result.Err? <==> user.None?
    ensures r.result.Err? ==> r.state == s && r.result.error == Unauthorized
    ensures r.result.Ok? ==>
      var gid := r.result.value.0;
      var g := r.result.value.1;
      && g == Group(name, kind, user.value, [user.value], [])
      && r.state.groups == s.groups[gid := g]
      && (Valid(s) ==> gid !in s.groups)
      && Refs(r.state.userGroups, user.value) == Refs(s.userGroups, user.value) + {gid}
      && (forall v :: v != user.value ==> Refs(r.state.userGroups, v) == Refs(s.userGroups, v))
      && r.state.messages == s.messages && r.state.emails == s.emails
  {
    if user.None? then Step(s, Err(Unauthorized))
    else
      var u := user.value;
      var gid := s.nextGroupId;
      var g := Group(name, kind, u, [u], []);
      Step(s.(groups := s.groups[gid := g], userGroups := AddRef(s.userGroups, u, gid), nextGroupId := gid + 1),
           Ok((gid, g)))
  }

  /** `joinPublicGroup`: guards in the order the service checks them. */
  function JoinPublicGroup(s: State, user: Option<UserId>, gid: GroupId): (r: Step<Result<string>>)
    ensures r.result.Err? ==> r.state == s
    ensures r.result == Err(Unauthorized) <==> user.None?
    ensures r.result == Err(NotFound) <==> user.Some? && gid !in s.groups
    ensures r.result == Err(InvalidState) <==> user.Some? && gid in s.groups && s.groups[gid].kind != Public
    ensures r.result == Err(Conflict) <==>
      user.Some? && gid in s.groups && s.groups[gid].kind == Public && user.value in s.groups[gid].members
    ensures r.result.Ok? <==>
      user.Some? && gid in s.groups && s.groups[gid].kind == Public && user.value !in s.groups[gid].members
    ensures r.result.Ok? ==>
      r.result.value == JoinedReply && r.state == Admit(s, gid, user.value, s.groups[gid].inviteToken)
  {
    if user.None? then Step(s, Err(Unauthorized))
    else if gid !in s.groups then Step(s, Err(NotFound))
    else if s.groups[gid].kind != Public then Step(s, Err(InvalidState))
    else if Includes(s.groups[gid].members, user.value) then Step(s, Err(Conflict))
    else Step(Admit(s, gid, user.value, s.groups[gid].inviteToken), Ok(JoinedReply))
  }

  /** `createInvitation`: only the admin may invite, and only a non-member.
      The token is the caller's fresh secret; the link embeds it. */
  function CreateInvitation(s: State, user: Option<UserId>, gid: GroupId, target: UserId, token: Token, now: Time)
    : (r: Step<Result<string>>)
    ensures r.result.Err? ==> r.state == s
    ensures r.result == Err(Unauthorized) <==> user.None?
    ensures r.result == Err(NotFound) <==> user.Some? && gid !in s.groups
    ensures r.result == Err(Forbidden) <==> user.Some? && gid in s.groups && s.groups[gid].admin != user.value
    ensures r.result == Err(Conflict) <==>
      user.Some? && gid in s.groups && s.groups[gid].admin == user.value && target in s.groups[gid].members
    ensures r.result.Ok? <==>
      user.Some? && gid in s.groups && s.groups[gid].admin == user.value && target !in s.groups[gid].members
    ensures r.result.Ok? ==>
      var g := s.groups[gid];
      && TokenOfLink(r.result.value) == Some(token)
      && r.state == s.(groups := s.groups[gid := g.(inviteToken := g.inviteToken + [Invitation(target, token, now + InvitationLifetime)])])
  {
    if user.None? then Step(s, Err(Unauthorized))
    else if gid !in s.groups then Step(s, Err(NotFound))
    else if s.groups[gid].admin != user.value then Step(s, Err(Forbidden))
    else if Includes(s.groups[gid].members, target) then Step(s, Err(Conflict))
    else
      var g := s.groups[gid];
      var inv := Invitation(target, token, now + InvitationLifetime);
      Step(s.(groups := s.groups[gid := g.(inviteToken := g.inviteToken + [inv])]), Ok(InvitationLink(token)))
  }

  /** `findOne({ "inviteToken.token": t })`: the first group, in id order
      from `i` up to `n`, whose ledger holds `t`. */
  function FindHolder(groups: map<GroupId, Group>, t: Token, i: nat, n: nat): (r: Option<GroupId>)
    decreases n - i
    ensures r.Some? ==> i <= r.value < n && r.value in groups && HoldsToken(groups[r.value], t)
    ensures r.None? <==> forall g :: i <= g < n && g in groups ==> !HoldsToken(groups[g], t)
    ensures r.Some? ==> forall g :: i <= g < r.value && g in groups ==> !HoldsToken(groups[g], t)
  {
    if i >= n then None
    else if i in groups && HoldsToken(groups[i], t) then Some(i)
    else FindHolder(groups, t, i + 1, n)
  }

  /** `acceptInvitation`: resolve the user by e-mail, find the group holding
      the token, then check expiry (strictly after `expiresAt`), identity and
      membership; on success the user joins and every entry with the token
      leaves the ledger. */
  function AcceptInvitation(s: State, token: Token, email: Email, now: Time): (r: Step<Result<string>>)
    ensures r.result.Err? ==> r.state == s
    ensures r.result == Err(Unauthorized) <==> email !in s.emails
    ensures r.result == Err(NotFound) <==>
      email in s.emails && FindHolder(s.groups, token, 0, s.nextGroupId).None?
    ensures Valid(s) ==>
      (r.result == Err(NotFound) <==> email in s.emails && forall g :: g in s.groups ==> !HoldsToken(s.groups[g], token))
    ensures email in s.emails && FindHolder(s.groups, token, 0, s.nextGroupId).Some? ==>
      var gid := FindHolder(s.groups, token, 0, s.nextGroupId).value;
      var inv := FindInvitation(s.groups[gid].inviteToken, token).value;
      var u := s.emails[email];
      && (r.result == Err(Expired) <==> now > inv.expiresAt)
      && (r.result == Err(Forbidden) <==> now <= inv.expiresAt && inv.userId != u)
      && (r.result == Err(Conflict) <==> now <= inv.expiresAt && inv.userId == u && u in s.groups[gid].members)
      && (r.result.Ok? <==> now <= inv.expiresAt && inv.userId == u && u !in s.groups[gid].members)
      && (r.result.Ok? ==>
            r.result.value == JoinedReply
            && r.state == Admit(s, gid, u, Filter(s.groups[gid].inviteToken, TokenIsNot(token))))
  {
    if email !in s.emails then Step(s, Err(Unauthorized))
    else
      var u := s.emails[email];
      match FindHolder(s.groups, token, 0, s.nextGroupId)
      case None => Step(s, Err(NotFound))
      case Some(gid) =>
        var g := s.groups[gid];
        var inv := FindInvitation(g.inviteToken, token);
        if inv.None? || now > inv.value.expiresAt then Step(s, Err(Expired))
        else if inv.value.userId != u then Step(s, Err(Forbidden))
        else if Includes(g.members, u) then Step(s, Err(Conflict))
        else Step(Admit(s, gid, u, Filter(g.inviteToken, TokenIsNot(token))), Ok(JoinedReply))
  }

  /** `editGroup`: renames without any authority check; a missing id
      yields no group and no error. */
  function EditGroup(s: State, gid: GroupId, name: string): (r: Step<Option<Group>>)
    ensures r.result.None? <==> gid !in s.groups
    ensures r.result.None? ==> r.state == s
    ensures r.result.Some? ==>
      && r.result.value == s.groups[gid].(name := name)
      && r.state == s.(groups := s.groups[gid := r.result.value])
  {
    if gid !in s.groups then Step(s, None)
    else
      var g := s.groups[gid].(name := name);
      Step(s.(groups := s.groups[gid := g]), Some(g))
  }

  /** `deleteGroup`: only the admin may delete; the cascade detaches the
      group from every member, purges its messages, and then the group
      record goes. */
  function DeleteGroup(s: State, gid: GroupId, user: UserId): (r: Step<Result<()>>)
    ensures r.result.Err? ==> r.state == s
    ensures r.result == Err(NotFound) <==> gid !in s.groups
    ensures r.result == Err(Forbidden) <==> gid in s.groups && s.groups[gid].admin != user
    ensures r.result.Ok? <==> gid in s.groups && s.groups[gid].admin == user
    ensures r.result.Ok? ==>
      && r.state.groups == s.groups - {gid}
      && (forall v :: Refs(r.state.userGroups, v)
            == if v in s.groups[gid].members then Refs(s.userGroups, v) - {gid} else Refs(s.userGroups, v))
      && r.state.messages == DeleteMessageAssociateWithGroup(s.messages, gid)
      && r.state.emails == s.emails && r.state.nextGroupId == s.nextGroupId
  {
    if gid !in s.groups then Step(s, Err(NotFound))
    else if s.groups[gid].admin != user then Step(s, Err(Forbidden))
    else
      var detached := s.(userGroups := Detach(s.userGroups, s.groups[gid].members, gid));
      var purged := detached.(messages := DeleteMessageAssociateWithGroup(detached.messages, gid));
      Step(purged.(groups := purged.groups - {gid}), Ok(()))
  }

  // ---------------------------------------------------------------------
  // The invariant is kept by every operation.

  lemma CreateGroupPreservesValid(s: State, user: Option<UserId>, name: string, kind: GroupType)
    requires Valid(s)
    ensures Valid(CreateGroup(s, user, name, kind).state)
  {
    var r := CreateGroup(s, user, name, kind);
    if r.result.Ok? {
      var s', gid, u := r.state, s.nextGroupId, user.value;
      forall g, v ensures HasRef(s', v, g) <==> IsMember(s', g, v) {
        assert HasRef(s, v, g) <==> IsMember(s, g, v);
      }
      forall i | 0 <= i < |s'.messages|
        ensures IsMember(s', s'.messages[i].groupId, s'.messages[i].senderId)
      {
        assert IsMember(s, s.messages[i].groupId, s.messages[i].senderId);
      }
      forall g, h, t | Holds(s', g, t) && Holds(s', h, t) ensures g == h {
        if g != gid && h != gid {
          assert Holds(s, g, t) && Holds(s, h, t);
        }
      }
    }
  }

  /** Adding one non-member, with a ledger that only loses entries, keeps
      the invariant. */
  lemma AdmitPreservesValid(s: State, gid: GroupId, u: UserId, ledger: seq<Invitation>)
    requires Valid(s) && gid in s.groups && u !in s.groups[gid].members
    requires forall i :: 0 <= i < |ledger| ==> ledger[i] in s.groups[gid].inviteToken
    ensures Valid(Admit(s, gid, u, ledger))
  {
    var s' := Admit(s, gid, u, ledger);
    var m := s.groups[gid].members;
    assert s'.groups[gid].members == m + [u];
    assert forall i :: 0 <= i < |m| ==> m[i] != u;
    assert WellFormed(s'.groups[gid]);
    forall i | 0 <= i < |s'.messages|
      ensures IsMember(s', s'.messages[i].groupId, s'.messages[i].senderId)
    {
      assert IsMember(s, s.messages[i].groupId, s.messages[i].senderId);
    }
    forall g, t | Holds(s', g, t) ensures Holds(s, g, t) {
      if g == gid {
        var i :| 0 <= i < |ledger| && ledger[i].token == t;
        var k :| 0 <= k < |s.groups[gid].inviteToken| && s.groups[gid].inviteToken[k] == ledger[i];
      }
    }
  }

  lemma JoinPublicGroupPreservesValid(s: State, user: Option<UserId>, gid: GroupId)
    requires Valid(s)
    ensures Valid(JoinPublicGroup(s, user, gid).state)
  {
    if JoinPublicGroup(s, user, gid).result.Ok? {
      AdmitPreservesValid(s, gid, user.value, s.groups[gid].inviteToken);
    }
  }

  /** With a token no ledger holds yet, issuing an invitation keeps the
      invariant, in particular that no two groups share a token. */
  lemma CreateInvitationPreservesValid(s: State, user: Option<UserId>, gid: GroupId, target: UserId, token: Token, now: Time)
    requires Valid(s)
    requires forall g :: g in s.groups ==> !HoldsToken(s.groups[g], token)
    ensures Valid(CreateInvitation(s, user, gid, target, token, now).state)
  {
    var r := CreateInvitation(s, user, gid, target, token, now);
    if r.result.Ok? {
      var s' := r.state;
      var ledger := s.groups[gid].inviteToken;
      assert s'.groups[gid].members == s.groups[gid].members;
      forall g, v ensures HasRef(s', v, g) <==> IsMember(s', g, v) {
        assert HasRef(s, v, g) <==> IsMember(s, g, v);
      }
      forall i | 0 <= i < |s'.messages|
        ensures IsMember(s', s'.messages[i].groupId, s'.messages[i].senderId)
      {
        assert IsMember(s, s.messages[i].groupId, s.messages[i].senderId);
      }
      forall g, t | Holds(s', g, t) ensures Holds(s, g, t) || (g == gid && t == token) {
        if g == gid && t != token {
          var i :| 0 <= i < |s'.groups[gid].inviteToken| && s'.groups[gid].inviteToken[i].token == t;
          assert i < |ledger|;
          assert ledger[i].token == t;
        }
      }
    }
  }

  lemma AcceptInvitationPreservesValid(s: State, token: Token, email: Email, now: Time)
    requires Valid(s)
    ensures Valid(AcceptInvitation(s, token, email, now).state)
  {
    var r := AcceptInvitation(s, token, email, now);
    if r.result.Ok? {
      var gid := FindHolder(s.groups, token, 0, s.nextGroupId).value;
      var ledger := s.groups[gid].inviteToken;
      AdmitPreservesValid(s, gid, s.emails[email], Filter(ledger, TokenIsNot(token)));
    }
  }

  lemma EditGroupPreservesValid(s: State, gid: GroupId, name: string)
    requires Valid(s)
    ensures Valid(EditGroup(s, gid, name).state)
  {
    var r := EditGroup(s, gid, name);
    if r.result.Some? {
      var s' := r.state;
      forall g, v ensures HasRef(s', v, g) <==> IsMember(s', g, v) {
        assert HasRef(s, v, g) <==> IsMember(s, g, v);
      }
      forall i | 0 <= i < |s'.messages|
        ensures IsMember(s', s'.messages[i].groupId, s'.messages[i].senderId)
      {
        assert IsMember(s, s.messages[i].groupId, s.messages[i].senderId);
      }
      forall g, h, t | Holds(s', g, t) && Holds(s', h, t) ensures g == h {
        assert Holds(s, g, t) && Holds(s, h, t);
      }
    }
  }

  lemma DeleteGroupPreservesValid(s: State, gid: GroupId, user: UserId)
    requires Valid(s)
    ensures Valid(DeleteGroup(s, gid, user).state)
  {
    var r := DeleteGroup(s, gid, user);
    if r.result.Ok? {
      var s' := r.state;
      var members := s.groups[gid].members;
      forall g, v ensures HasRef(s', v, g) <==> IsMember(s', g, v) {
        assert HasRef(s, v, g) <==> IsMember(s, g, v);
      }
      forall i | 0 <= i < |s'.messages|
        ensures IsMember(s', s'.messages[i].groupId, s'.messages[i].senderId)
      {
        var m := s'.messages[i];
        var k :| 0 <= k < |s.messages| && s.messages[k] == m;
        assert IsMember(s, m.groupId, m.senderId);
      }
      forall g, h, t | Holds(s', g, t) && Holds(s', h, t) ensures g == h {
        assert Holds(s, g, t) && Holds(s, h, t);
      }
    }
  }

  // ---------------------------------------------------------------------
  // Properties of sequences of calls.

  /** Joining is not silently idempotent: the second join is a conflict. */
  lemma JoinTwiceConflicts(s: State, u: UserId, gid: GroupId)
    requires JoinPublicGroup(s, Some(u), gid).result.Ok?
    ensures JoinPublicGroup(JoinPublicGroup(s, Some(u), gid).state, Some(u), gid).result == Err(Conflict)
  {
  }

  /** An accepted token is consumed: any later acceptance of it by a known
      user finds no group. */
  lemma AcceptTwiceNotFound(s: State, token: Token, email: Email, now: Time, email': Email, now': Time)
    requires Valid(s)
    requires AcceptInvitation(s, token, email, now).result.Ok?
    requires email' in s.emails
    ensures AcceptInvitation(AcceptInvitation(s, token, email, now).state, token, email', now').result == Err(NotFound)
  {
    var s' := AcceptInvitation(s, token, email, now).state;
    var gid := FindHolder(s.groups, token, 0, s.nextGroupId).value;
    assert Holds(s, gid, token);
    forall g | 0 <= g < s'.nextGroupId && g in s'.groups
      ensures !HoldsToken(s'.groups[g], token)
    {
      if g == gid {
        var ledger := Filter(s.groups[gid].inviteToken, TokenIsNot(token));
        assert s'.groups[gid].inviteToken == ledger;
        assert forall i :: 0 <= i < |ledger| ==> TokenIsNot(token)(ledger[i]);
      } else {
        assert s'.groups[g] == s.groups[g];
        assert !Holds(s, g, token);
      }
    }
  }

  /** An invitation is honoured by its invitee up to and including its
      expiry instant, refused as expired strictly after it, and refused to
      anybody else while it is live. */
  lemma InvitationLifecycle(s: State, admin: UserId, gid: GroupId, target: UserId, token: Token, issued: Time,
                            email: Email, now: Time)
    requires Valid(s)
    requires forall g :: g in s.groups ==> !HoldsToken(s.groups[g], token)
    requires CreateInvitation(s, Some(admin), gid, target, token, issued).result.Ok?
    requires email in s.emails
    ensures var s1 := CreateInvitation(s, Some(admin), gid, target, token, issued).state;
            var r := AcceptInvitation(s1, token, email, now).result;
            && (now > issued + InvitationLifetime ==> r == Err(Expired))
            && (now <= issued + InvitationLifetime && s.emails[email] != target ==> r == Err(Forbidden))
            && (now <= issued + InvitationLifetime && s.emails[email] == target ==> r == Ok(JoinedReply))
  {
    var s1 := CreateInvitation(s, Some(admin), gid, target, token, issued).state;
    CreateInvitationPreservesValid(s, Some(admin), gid, target, token, issued);
    var ledger := s.groups[gid].inviteToken;
    var inv := Invitation(target, token, issued + InvitationLifetime);
    assert s1.groups[gid].inviteToken == ledger + [inv];
    assert s1.groups[gid].inviteToken[|ledger|] == inv;
    assert Holds(s1, gid, token);
    var found := FindHolder(s1.groups, token, 0, s1.nextGroupId);
    assert found == Some(gid) by {
      if found.Some? {
        assert Holds(s1, found.value, token);
      }
    }
    var first := FindInvitation(ledger + [inv], token);
    assert first == Some(inv) by {
      var x := first.value;
      var k :| 0 <= k < |ledger + [inv]| && (ledger + [inv])[k] == x;
      assert k == |ledger|;
    }
  }

  /** After a deletion nothing refers to the group: no record, no message,
      no user's back-reference. */
  lemma DeleteGroupLeavesNoTrace(s: State, gid: GroupId, user: UserId)
    requires Valid(s)
    requires DeleteGroup(s, gid, user).result.Ok?
    ensures var s' := DeleteGroup(s, gid, user).state;
      && gid !in s'.groups
      && (forall i :: 0 <= i < |s'.messages| ==> s'.messages[i].groupId != gid)
      && (forall v :: gid !in Refs(s'.userGroups, v))
  {
    var s' := DeleteGroup(s, gid, user).state;
    forall v ensures gid !in Refs(s'.userGroups, v) {
      assert HasRef(s, v, gid) <==> IsMember(s, gid, v);
    }
  }

  /** Deleting a group leaves every other group, and what a reader of it
      gets back, as it was. */
  lemma DeleteGroupKeepsOthers(s: State, gid: GroupId, user: UserId, other: GroupId, reader: Option<UserId>)
    requires DeleteGroup(s, gid, user).result.Ok?
    requires other != gid
    ensures var s' := DeleteGroup(s, gid, user).state;
      && (other in s'.groups <==> other in s.groups)
      && (other in s.groups ==> s'.groups[other] == s.groups[other])
      && GetAllMessages(s', reader, other) == GetAllMessages(s, reader, other)
  {
    PurgeKeepsOtherGroups(s.messages, gid, other);
  }
}
