/** Values shared by the group and message services: identifiers, the
    group document, its invitation ledger entries, messages and the error
    kinds the services throw. */
module Domain {

  /** Document identifiers. The stores hand out fresh ones; nothing else
      about an id is observable. */
  type UserId = nat
  type GroupId = nat

  /** The opaque invitation secret and the e-mail a caller claims. */
  type Token = string
  type Email = string

  /** A clock reading in milliseconds, as a JavaScript `Date` holds it. */
  type Time = int

  /** How long an invitation stays valid after it is issued: 24 hours. */
  const InvitationLifetime: int := 24 * 60 * 60 * 1000

  datatype Option<T> = None | Some(value: T)

  /** Field `type` of a group document. */
  datatype GroupType = Public | Private

  /** One entry of a group's `inviteToken` ledger. */
  datatype Invitation = Invitation(userId: UserId, token: Token, expiresAt: Time)

  datatype Group = Group(
    name: string,
    kind: GroupType,
    admin: UserId,
    members: seq<UserId>,
    inviteToken: seq<Invitation>)

  datatype Message = Message(groupId: GroupId, senderId: UserId, content: string, createdAt: Time)

  /** The distinct failures the services raise, one per guard. */
  datatype Error =
    | Unauthorized   // no caller, or an e-mail no user has
    | NotFound       // no such group, or no group holds the token
    | InvalidState   // joining a group that is not public
    | Conflict       // the user is already a member
    | Forbidden      // caller is not the admin, or not the invitee
    | Expired        // the invitation is past its expiry
    | NotMember      // posting to a group one is not a member of

  datatype Result<T> = Ok(value: T) | Err(error: Error)
}
