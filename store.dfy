/** The persisted state both services work on: the group collection, the
    users' group back-references (kept by the user service), the message
    collection and the e-mail directory used to resolve an invitee. */
module Store {
  import opened Domain
  import opened Seqs

  datatype State = State(
    groups: map<GroupId, Group>,
    userGroups: map<UserId, set<GroupId>>,
    messages: seq<Message>,
    emails: map<Email, UserId>,
    nextGroupId: GroupId)

  /** What an operation leaves behind and what it answers. */
  datatype Step<R> = Step(state: State, result: R)

  /** An empty database over a given user directory. */
  function Empty(emails: map<Email, UserId>): State {
    State(map[], map[], [], emails, 0)
  }

  /** The groups a user record lists; a missing record lists none. */
  function Refs(refs: map<UserId, set<GroupId>>, u: UserId): set<GroupId> {
    if u in refs then refs[u] else {}
  }

  /** The user service's `updateUserGroup(u, g)`: `g` joins `u`'s list. */
  function AddRef(refs: map<UserId, set<GroupId>>, u: UserId, g: GroupId): (r: map<UserId, set<GroupId>>)
    ensures Refs(r, u) == Refs(refs, u) + {g}
    ensures forall v :: v != u ==> Refs(r, v) == Refs(refs, v)
  {
    refs[u := Refs(refs, u) + {g}]
  }

  /** The user service's `removeGroupIdFromEachMember(group)`: every listed
      member's record drops `g`; missing records are skipped. */
  function Detach(refs: map<UserId, set<GroupId>>, members: seq<UserId>, g: GroupId): (r: map<UserId, set<GroupId>>)
    ensures forall v :: Refs(r, v) == if v in members then Refs(refs, v) - {g} else Refs(refs, v)
  {
    map v | v in refs :: if v in members then refs[v] - {g} else refs[v]
  }

  /** `group.inviteToken.find(inv => inv.token === t)`. */
  function FindInvitation(ledger: seq<Invitation>, t: Token): (r: Option<Invitation>)
    ensures r.None? <==> forall i :: 0 <= i < |ledger| ==> ledger[i].token != t
    ensures r.Some? ==> r.value in ledger && r.value.token == t
    ensures r.Some? ==>
      exists k :: 0 <= k < |ledger| && ledger[k] == r.value && (forall j :: 0 <= j < k ==> ledger[j].token != t)
  {
    if ledger == [] then None
    else if ledger[0].token == t then Some(ledger[0])
    else FindInvitation(ledger[1..], t)
  }

  /** The group's ledger has an entry carrying `t`. */
  predicate HoldsToken(g: Group, t: Token) {
    exists i :: 0 <= i < |g.inviteToken| && g.inviteToken[i].token == t
  }

  ghost predicate IsMember(s: State, g: GroupId, u: UserId) {
    g in s.groups && u in s.groups[g].members
  }

  ghost predicate HasRef(s: State, u: UserId, g: GroupId) {
    g in Refs(s.userGroups, u)
  }

  ghost predicate Holds(s: State, g: GroupId, t: Token) {
    g in s.groups && HoldsToken(s.groups[g], t)
  }

  /** The admin is a member and nobody is listed twice. */
  predicate WellFormed(g: Group) {
    g.admin in g.members && NoDup(g.members)
  }

  ghost predicate GroupsWellFormed(s: State) {
    forall g :: g in s.groups ==> g < s.nextGroupId && WellFormed(s.groups[g])
  }

  /** A user's back-references name exactly the groups listing the user. */
  ghost predicate RefsMirrorMembers(s: State) {
    forall g, u :: HasRef(s, u, g) <==> IsMember(s, g, u)
  }

  /** Every stored message belongs to a live group its sender is a member of. */
  ghost predicate MessagesFromMembers(s: State) {
    forall i :: 0 <= i < |s.messages| ==> IsMember(s, s.messages[i].groupId, s.messages[i].senderId)
  }

  /** No token sits in two groups' ledgers. */
  ghost predicate TokensUnique(s: State) {
    forall g, h, t :: Holds(s, g, t) && Holds(s, h, t) ==> g == h
  }

  ghost predicate Valid(s: State) {
    && GroupsWellFormed(s)
    && RefsMirrorMembers(s)
    && MessagesFromMembers(s)
    && TokensUnique(s)
  }

  lemma EmptyValid(emails: map<Email, UserId>)
    ensures Valid(Empty(emails))
  {
  }

  /** Changing only the message collection keeps the group-side parts of
      the invariant. */
  lemma SameGroupsValid(s: State, s': State)
    requires Valid(s)
    requires s'.groups == s.groups && s'.userGroups == s.userGroups && s'.nextGroupId == s.nextGroupId
    requires MessagesFromMembers(s')
    ensures Valid(s')
  {
    forall g, u ensures HasRef(s', u, g) <==> IsMember(s', g, u) {
      assert HasRef(s, u, g) <==> IsMember(s, g, u);
    }
    forall g, h, t | Holds(s', g, t) && Holds(s', h, t) ensures g == h {
      assert Holds(s, g, t) && Holds(s, h, t);
    }
  }
}
