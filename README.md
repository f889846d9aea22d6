# Group membership, invitations and the membership-gated message store

This Dafny project models the core of a group-chat backend: the group
service (`app/group/group.service.ts`) and the message service
(`app/message/message.service.ts`). It covers the following operations:

- **create:** creating a group, whose creator becomes its admin and sole member;
- **join:** joining a public group;
- **invite:** an admin issuing an invitation bound to one user that expires after 24 hours;
- **accept:** accepting an invitation, which consumes its token;
- **edit:** renaming a group;
- **delete:** deleting a group, which detaches it from every member's back-references and purges its messages;
- **post:** posting a message, which only a member may do;
- **read:** reading a group's messages oldest first;
- **queries:** the read-only group queries (public groups, analytics, membership and existence checks).

The three collections are modelled as one abstract state, `Store.State`:

- the group documents, keyed by id;
- each user's back-references, a set of group ids kept by the user service;
- the message collection;
- the e-mail directory used to resolve an invitee.

`Store.Valid` is the invariant the operations keep:

- the admin is a member;
- members are duplicate-free;
- a user's back-references name exactly the groups listing that user;
- every stored message was posted by a member of a live group;
- no token sits in two groups' ledgers.

The project has three layers:

- **Pure transition functions** (`GroupService`, `MessageService`): each returns the new state and the result (`Step`). Their `ensures` give the guard order, the error kinds and the new state. The lemmas beside them prove the invariant and the multi-call properties.
- **Pure queries** (`GroupQueries`, and `MessageService.GetAllMessages`).
- **`Database.ChatDb`:** a class whose fields are the collections. Its methods follow the source statement by statement: guard, load the document, push, save, call the user service. Each service method requires and keeps `Valid` and is proved equal to its transition function. The two user-service steps (`UpdateUserGroup`, `RemoveGroupIdFromEachMember`) are proved equal to `AddRef` and `Detach` and keep no invariant on their own, since each is one step of a cascade. The message purge keeps `Valid` when it held before.

Modules follow the program, with one exception. `group.service.ts` and `message.service.ts` import each other, which Dafny does not allow. So the read-only half of the group service (`checkUserExistInGroup`, `isGroupExist`, `getPublicGroups`, `analytics`) is the module `GroupQueries`. `MessageService` uses it, and `GroupService` uses `MessageService`'s purge.

Modelling choices:

- **Error kinds:** a thrown HTTP error is an `Err` of one of these kinds:
  - `Unauthorized`
  - `NotFound`
  - `InvalidState` ("Cannot join a private group directly")
  - `Conflict` ("Already a member")
  - `Forbidden`
  - `Expired`
  - `NotMember` ("User is not in the group")
- **Absent caller:** a missing caller (`!user`) is `None`.
- **Clock:** time is an integer clock in milliseconds, passed in as `now`. The invitation expiry is `now + 86 400 000`. Acceptance fails only when `now > expiresAt`, so an invitation used at exactly its expiry instant is still honoured.
- **Tokens:** the random token is an input. `ChatDb.CreateInvitation` requires that no ledger already holds it, which stands for the 256 bits of randomness. That freshness is what keeps tokens unique across groups. Uniqueness in turn makes a second acceptance of a token fail `NotFound` (`GroupService.AcceptTwiceNotFound`).
- **Group ids:** new group ids come from a counter (`nextGroupId`), standing for a fresh document id.
- **Token lookup:** `findOne({"inviteToken.token": t})` is the lowest group id holding `t` (`GroupService.FindHolder`). Since tokens are unique, the order does not matter in a consistent store.
- **User service:** its calls are modelled by the contract their call sites imply.
  - `getUserByEmail` is a lookup in the e-mail directory.
  - `updateUserGroup(u, g)` adds `g` to `u`'s set, creating the record's set if there was none.
  - `removeGroupIdFromEachMember(group)` drops the id from every listed member that has a record.
- **Message ordering:** `getAllMessages` sorts with a stable insertion sort on `createdAt`. Its result is ordered and is a permutation of the group's stored messages. The query itself leaves the order of equal timestamps open; the model fixes store order, one of the orders the query allows (see `MessageService.GetAllMessagesStable` under "## Left out").

Where the code and the written design differ, the model follows the code:

- **Expired invitations:** the design describes expired invitations as "removed lazily on next use". The code never removes an entry when acceptance fails as `Expired`, or with any other error. Ledger entries leave only on a successful acceptance, which drops every entry with that token.
- **Posting to a missing group:** the design gives posting to a missing group as `MembershipRequired`. The code's `checkUserExistInGroup` throws "Group not found" first, so the model answers `NotFound` there and `NotMember` only for an existing group.
- **Renaming:** `editGroup` has no admin check and answers no group (not an error) for a missing id. This is kept as written. `GroupService.EditGroup` states that only the name changes.
- **Invitee existence:** `createInvitation` does not check that the invitee exists. That is only found out at acceptance (an unknown e-mail fails `Unauthorized`).

## Model

| member | source | states |
|---|---|---|
| Seqs.Includes | app/group/group.service.ts:51 | `members.includes(u)` is true exactly when `u` is in the member list |
| Seqs.Filter | app/group/group.service.ts:121-122 | the filtered ledger holds only entries passing the test, and every passing entry of the input survives |
| Seqs.FilterAppend | app/group/group.service.ts:121-122 | filtering distributes over concatenation, so the surviving entries keep their original relative order |
| Seqs.FilterAbsorb | app/message/message.service.ts:52 | filtering first by a weaker condition changes nothing; this gives idempotence of a purge and that a purge leaves other groups' messages alone |
| Chronology.Insert | app/message/message.service.ts:46 | inserting a message lengthens the list by exactly one |
| Chronology.InsertPermutes | app/message/message.service.ts:46 | inserting a message adds exactly that message to the multiset and nothing else |
| Chronology.InsertChronological | app/message/message.service.ts:46 | inserting into a list ordered by `createdAt` keeps it ordered |
| Chronology.SortByTime | app/message/message.service.ts:46 | `.sort({ createdAt: 1 })` returns its input in non-decreasing `createdAt` order |
| Chronology.SortPermutes | app/message/message.service.ts:46 | the sort is a permutation: it neither loses, duplicates nor invents a message |
| Chronology.InsertAt | app/message/message.service.ts:46 | insertion keeps the messages of every instant in order and puts the new one first among its own instant |
| Chronology.SortStable | app/message/message.service.ts:46 | the sort is stable: for every timestamp, the messages carrying it come out in store order |
| Store.AddRef | app/group/group.service.ts:32 | `updateUserGroup(u, g)`: `u`'s back-references gain exactly `g`, nobody else's change |
| Store.Detach | app/group/group.service.ts:207-208 | `removeGroupIdFromEachMember`: every listed member loses the group id, every other user's references are untouched |
| Store.FindInvitation | app/group/group.service.ts:105 | `inviteToken.find` finds nothing exactly when no entry carries the token, and otherwise the first entry of the ledger carrying it (a ledger may hold the token twice) |
| Store.SameGroupsValid | app/message/message.service.ts:25-31 | writing only messages (all from members) keeps the group-side invariant |
| GroupQueries.IsGroupExist | app/group/group.service.ts:173-182 | in a consistent store, a group exists exactly when somebody is a member of it, and only an id already issued can exist |
| GroupQueries.CheckUserExistInGroup | app/group/group.service.ts:163-182 | fails `NotFound` exactly when `isGroupExist` is false; answers true exactly when the user is a member of that group |
| GroupQueries.Select | app/group/group.service.ts:136-138 | a scan of the group collection returns, ascending and once each, exactly the stored ids below the bound whose group passes the filter |
| GroupQueries.GetPublicGroups | app/group/group.service.ts:12-14 | every returned document is a stored public group, each once; in a consistent store every public group is returned |
| GroupQueries.Analytics | app/group/group.service.ts:132-146 | no caller fails `Unauthorized`; the total is the number of groups the caller administers; each entry is a group the caller administers with its name and member count; in a consistent store every such group has an entry |
| GroupQueries.MatchingStep | app/group/group.service.ts:136 | raising the scan bound by one adds one to the count exactly when that id matches |
| GroupQueries.SelectCount | app/group/group.service.ts:136-138 | the scan finds as many groups as `countDocuments` counts below the bound |
| GroupQueries.AnalyticsConsistent | app/group/group.service.ts:136-145 | in a consistent store `totalGroupsCreated` equals the number of per-group entries |
| MessageService.CreateMessage | app/message/message.service.ts:11-32 | no caller gives `Unauthorized`, a missing group `NotFound`, a non-member `NotMember`, each leaving the store as it was; a member's post appends exactly one message with that group, sender, content and time |
| MessageService.GetAllMessages | app/message/message.service.ts:34-47 | no caller gives `Unauthorized`, a missing group `NotFound`; otherwise the result is a permutation of exactly the group's stored messages, in non-decreasing `createdAt` order |
| MessageService.DeleteMessageAssociateWithGroup | app/message/message.service.ts:49-53 | afterwards no message has that group id, every message of another group remains, nothing new appears |
| MessageService.PurgeIdempotent | app/message/message.service.ts:49-53 | purging twice equals purging once |
| MessageService.PurgePreservesValid | app/message/message.service.ts:49-53 | purging a group's messages keeps the invariant: what remains still comes from members |
| MessageService.PurgeKeepsOtherGroups | app/message/message.service.ts:52 | every other group's messages are exactly as before, in their original order |
| MessageService.GetAllMessagesStable | app/message/message.service.ts:46 | in the model's read, messages with the same timestamp come back in the order they were stored (the tie order the model fixes) |
| MessageService.CreateMessagePreservesValid | app/message/message.service.ts:19-31 | posting keeps the invariant: every stored message comes from a member of its group |
| MessageService.PostedMessageIsListed | app/message/message.service.ts:25-46 | a message just posted is among those returned when the group is read |
| GroupService.InvitationLink | app/group/group.service.ts:88-91 | the invitation link embeds the token so that the acceptance route reads back exactly that token |
| GroupService.Admit | app/group/group.service.ts:114-126 | appending a member: the membership relation and the back-reference relation each grow by exactly the pair (group, user); every other group and collection is unchanged |
| GroupService.CreateGroup | app/group/group.service.ts:17-35 | no caller fails `Unauthorized` with nothing changed; otherwise a new group (fresh id in a consistent store) with `admin` = caller and `members` = [caller] is stored and the caller's back-references gain its id |
| GroupService.JoinPublicGroup | app/group/group.service.ts:38-60 | fails in order `Unauthorized`, `NotFound`, `InvalidState` (not public), `Conflict` (already a member), each leaving the store unchanged; otherwise appends exactly the caller and records the back-reference |
| GroupService.CreateInvitation | app/group/group.service.ts:63-92 | fails in order `Unauthorized`, `NotFound`, `Forbidden` (caller is not exactly the admin), `Conflict` (target already a member), nothing changed; otherwise appends exactly one entry (target, token, now + 24 h) to that group's ledger, changes nothing else, and returns a link carrying the token |
| GroupService.FindHolder | app/group/group.service.ts:102-103 | finds a group whose ledger holds the token and no group of a lower id holds it, or nothing exactly when no group holds it |
| GroupService.AcceptInvitation | app/group/group.service.ts:95-129 | fails in order `Unauthorized` (unknown e-mail), `NotFound` (no issued group id holds the token, which in a consistent store means no group at all), `Expired` (strictly after `expiresAt`), `Forbidden` (invitee is someone else), `Conflict` (already a member), nothing changed; otherwise appends the user, drops every ledger entry with the token (others kept in order) and records the back-reference |
| GroupService.EditGroup | app/group/group.service.ts:184-191 | with no authority check, a stored group gets the new name and nothing else of it or of any other group changes; a missing id yields no group and no change |
| GroupService.DeleteGroup | app/group/group.service.ts:193-218 | fails `NotFound` or `Forbidden` (caller is not the admin) with nothing changed; otherwise the members lose the back-reference, the group's messages are purged and the record removed, other groups untouched |
| GroupService.CreateGroupPreservesValid | app/group/group.service.ts:23-32 | creation establishes admin ∈ members and keeps the whole invariant |
| GroupService.AdmitPreservesValid | app/group/group.service.ts:114-126 | a guarded append of a non-member whose ledger only loses entries keeps the invariant (admin ∈ members, no duplicates, back-references mirror membership) |
| GroupService.JoinPublicGroupPreservesValid | app/group/group.service.ts:50-57 | joining keeps the invariant |
| GroupService.CreateInvitationPreservesValid | app/group/group.service.ts:81-86 | with a fresh token, issuing keeps the invariant, in particular that tokens are unique across groups |
| GroupService.AcceptInvitationPreservesValid | app/group/group.service.ts:114-126 | acceptance keeps the invariant |
| GroupService.EditGroupPreservesValid | app/group/group.service.ts:188 | renaming keeps the invariant |
| GroupService.DeleteGroupPreservesValid | app/group/group.service.ts:207-215 | the cascade keeps the invariant: no back-reference or message is left pointing at the deleted group |
| GroupService.JoinTwiceConflicts | app/group/group.service.ts:50-54 | an immediate second join by the same user fails `Conflict` |
| GroupService.AcceptTwiceNotFound | app/group/group.service.ts:102-122 | once a token is accepted, any later acceptance of it by a known user fails `NotFound` |
| GroupService.InvitationLifecycle | app/group/group.service.ts:81-119 | a freshly issued invitation is accepted by its invitee at any time up to and including `now + 24 h`, fails `Expired` strictly after, and fails `Forbidden` for anyone else while live |
| GroupService.DeleteGroupLeavesNoTrace | app/group/group.service.ts:207-215 | after deletion no group record, no message and no user's back-reference names the group |
| GroupService.DeleteGroupKeepsOthers | app/group/group.service.ts:207-215 | every other group is unchanged, and reading its messages gives the same answer as before |
| Database.ChatDb.UpdateUserGroup | app/group/group.service.ts:57 | the caller's back-references gain the group; no other collection changes |
| Database.ChatDb.RemoveGroupIdFromEachMember | app/group/group.service.ts:208 | every member's back-references lose the group id; no other collection changes |
| Database.ChatDb.CreateGroup | app/group/group.service.ts:17-35 | saves the new group then updates the creator's back-references, exactly as `GroupService.CreateGroup`, keeping the invariant |
| Database.ChatDb.JoinPublicGroup | app/group/group.service.ts:38-60 | pushes the caller onto the loaded document, saves it and updates back-references, exactly as `GroupService.JoinPublicGroup`, keeping the invariant |
| Database.ChatDb.CreateInvitation | app/group/group.service.ts:63-92 | pushes one ledger entry and saves, exactly as `GroupService.CreateInvitation`, keeping the invariant |
| Database.ChatDb.AcceptInvitation | app/group/group.service.ts:95-129 | pushes the user, reassigns the filtered ledger, saves and updates back-references, exactly as `GroupService.AcceptInvitation`, keeping the invariant |
| Database.ChatDb.EditGroup | app/group/group.service.ts:184-191 | updates the name in place, exactly as `GroupService.EditGroup` |
| Database.ChatDb.DeleteGroup | app/group/group.service.ts:193-218 | runs the cascade in source order (back-references, messages, record), exactly as `GroupService.DeleteGroup`, keeping the invariant |
| Database.ChatDb.CreateMessage | app/message/message.service.ts:11-32 | checks membership then saves one message, exactly as `MessageService.CreateMessage`, keeping the invariant |
| Database.ChatDb.DeleteMessageAssociateWithGroup | app/message/message.service.ts:49-53 | replaces the message collection by its purge, and keeps the invariant when it held before |

## Left out

- MessageService.GetAllMessagesStable: `.sort({ createdAt: 1 })` leaves the order of messages with equal `createdAt` unspecified. The model fixes store order as one allowed order, so this lemma is about the model's read and not a promise of the query.
- Express routing, request validators and the passport/JWT wiring (`group.route.ts`, `message.route.ts`, `user.route.ts`) carry no logic of their own. The model starts where a service function is called.
- Mongoose persistence, query execution and `save`: a save is a map update. Every operation runs to completion on its own, so concurrent requests and a cascade interrupted half-way are not modelled.
- `crypto.randomBytes(32).toString("hex")`: the token is an input, and its shape (64 hex characters) is not modelled.
- The wall-clock `Date` and the local-time `setHours(getHours() + 24)`: the clock is an integer and expiry is exactly `now + 24 h`. A daylight-saving change, which makes the local-time addition 23 or 25 hours, is not modelled.
- `groupAnalytics`: a lookup whose interest is `.populate` with field projection of user profiles. The user documents are not part of this model.
- The `.select("name members")` projection in `analytics`, and `console.log`.
- The placeholder `frontendLink: "dummy.com"` returned by `createInvitation`.
- The internals of the user service (`getUserByEmail`, `updateUserGroup`, `removeGroupIdFromEachMember`). The user service is not part of this model. They are modelled only by the lookup, add and remove contract their call sites imply.
- HTTP status codes as numbers. Error kinds are modelled instead. "Group not found" is a 400 in `deleteGroup` and `groupAnalytics` and `getAllMessages`, but a 404 in `joinPublicGroup` and `createInvitation`, and `checkUserExistInGroup` throws a plain `Error`.
- `deleteGroup` with no caller: the source dereferences `user._id` without a check (a `TypeError`). The model takes the caller as present.
- `createMessage`'s membership test compares `member.toString()` with `user._id` using `===`. The model assumes the authenticated caller's id is a string, as a JWT payload gives it. If it were an id object the comparison would always be false.
