# MeshProxy chat protocols, verified

A Dafny model of the hand-written protocols in MeshProxy's chat layer, with proofs of what they
guarantee over whole runs. SQL tables are maps, a handler under one lock or transaction is one
atomic step, and cryptography is a set of function values of which only the algebraic laws are
known. `dafny verify dfyconfig.toml` checks everything.

| file | models |
|---|---|
| `GroupLog.dfy` | the controller-sequenced group log: what events do, replay, convergence, run invariants, bootstrap, sync |
| `GroupAuthority.dfy` | who may change what: any envelope from anyone, by signer, by field and by member, and runs of arbitrary envelopes |
| `GroupSystem.dfy` | all replicas of a group together, with transfers of control and late joiners |
| `GroupScenarios.dfy` | runs from creation in which the code falls short: a fork, and an active member without a key |
| `GroupReplica.dfy` | one peer's copy of a group: transactions statement by statement, the event handler, the local commands |
| `GroupMessages.dfy` | group messages, deliveries and revocations |
| `RelayReorder.dfy` | the relay endpoint's reorder buffer |
| `RelayTables.dfy`, `RelayClock.dfy`, `RelayEndpoint.dfy` | the endpoint's three tables: as a state machine with runs, the same with its clock, and as the class that updates them in place |
| `RelaySender.dfy` | the sending side: sessions, handshakes, packet numbers |
| `RelayChannel.dfy` | sender and endpoint together |
| `DirectChat.dfy` | the receive cursor of a direct conversation, all its paths, and catching up |
| `FileFetch.dfy` | session keys and chunked file transfer |
| `OfflineCursor.dfy` | the offline-store poll, its cursor and its workers |
| `ConversationMerge.dfy` | merging duplicate conversation rows; stable conversation IDs |
| `Encodings.dfy` | decimal, big-endian, separated and base64 encodings; signed relay frames; associated data; key IDs |
| `RelayScore.dfy` | the relay uptime score |
| `Basics.dfy`, `Text.dfy` | 64-bit integers, bytes, `TrimSpace`, string order |

Main results, with where the code falls short of what one might expect:

* **Groups converge** (`GroupLog.Convergence`, `ReplicasAgree`): whatever is dropped, duplicated or
  reordered, a replica is at the replay of the log up to its own sequence number. That assumes one
  event per number, which over all runs of all replicas holds exactly when every emitter has seen
  every event (`GroupSystem.NoForkIff`): always, if only controllers emit, across transfers of
  control, with joiners and with any delays (`ControllersNeverFork`); not always, once admins change
  the retention or members revoke messages (`ForkReachable`). A replica made from an invite follows
  the log exactly as far as its member table vouches for the signers (`FollowerCatchesUpIff`): it
  has recorded admins as plain members, and stops at an admin's retention update. Every command
  leaves exactly the state that receiving its own event would have left (`Issued` in
  `GroupReplica`), with two exceptions that are stated as equivalences: the controller may revoke a
  message with an empty ID or from a sender it has no row for, and an invite may hand on an empty
  key, which is left out on the way; other replicas refuse those.
  A rotation hands out keys to the remaining members only, and the epoch row's key column is
  `NOT NULL`; whether a peer can store an event that hands it no key depends on what the database
  driver does with a nil byte slice, so this is a parameter (`nilKeys`). The leave-request handler
  never looks at the leaver's role: where absent keys can be stored, a member whose leave request
  arrives after control was transferred to it leaves and stays controller (`ControllerCanLeave`).
  The log of a fork-free run has exactly one active controller throughout if and only if there is no
  such event (`GroupSystem.LogControllerIff`), and there is none where absent keys cannot be stored.
  Replicas agree with the log on everyone they list if and only if nobody enters by an invite that an
  inactive controller emitted (`MembersAgreeIff`). Then a rotation gives no key to anyone who is not
  active after it, and one to all who are exactly when its emitter lists them (`RunRotations`). A
  controller that entered by an invite need not: a join only updates an existing row, and no sync
  carries members. After a transfer to such a peer the next rotation leaves an active member without a
  key (`GroupScenarios.ActiveMemberGetsNoKey`), and where absent keys cannot be stored that member
  refuses the event and stays behind (`KeylessMemberStaysBehind`).
* **Only the controller directs** (`GroupAuthority`): whatever envelopes arrive, from whomever, what the
  signer is not entitled to is an error and changes nothing (`RefusedUnlessEntitled`); over every run of
  arbitrary envelopes a change of title, controller, epoch or archive state, and every new active member,
  goes back to an event that the controller of that moment signed (`ControlIsHandedOn`,
  `HeaderIsSigned`, `MembersAreAdmitted`). The runs of `GroupSystem` include such envelopes.
* **Revocation absorbs** (`GroupMessages`): a message and its revocation commute exactly when no
  other row rivals the message. Message rows are unique in (group, sender, sender sequence number)
  and inserted with `INSERT OR REPLACE`, so a late copy of a revoked message can erase an unrelated
  one (`ReusedNumberLosesAMessage`).
* **Relay endpoint**: exactly-once in-order delivery inside the full endpoint
  (`RelayTables.SessionStreamInOrder`), nothing dropped exactly when nothing overtakes by more than
  64 (`NothingDroppedIff`), table consistency, caps and the 64-wide window in every reachable state
  whatever a peer sends, one handshake per registration, a receive frontier that goes back exactly
  on a reset, which takes 2^64 - 1 steps (`FrontierDropsIff`, `ResetIsLate`), and no key and packet
  number sealed twice as long as a key seals at most 2^64 packets. With the clock: below the caps a
  registration lasts exactly until it expires or its source's 65th session displaces it (`GoesIff`,
  `LastsUntilExpiry`), and connects of one source are 200 ms apart. Both ends together: what is released
  for a session is the beginning of what its sender was given to send (`RelayChannel.ReleasedIsSent`).
* **Direct chat**: counters committed in order over all interleaved paths, whatever counters are
  offered, because those that do not fit a database column are refused; a sync recovers up to
  64 x 256 messages, and exactly those runs succeed. An offline message above the cursor and an empty
  sync response skip counters, which are lost for good: nothing is missing up to the cursor exactly when
  no event so far skipped (`NothingMissedIff`). Against any responder a sync is a run of such events, so
  the cursor never goes back (`SyncedReaches`). A message whose counter exceeds the peer's
  send counter keeps the handler's gap loop going for ever (`GapClosesIff`).
* **Offline store**: nothing at or below the cursor is ever unhandled, whichever tasks after a
  retryable failure are still queued, a poll drains a store that serves it or uses its 500 batches, and conversations stay in
  order under any worker interleaving. Store numbers are converted to `int64`: the cursor is safe
  exactly below 2^63.
* **Conversation merge**: conserves messages, and leaves one row per duplicated peer exactly when
  none of that peer's row IDs has surrounding space: the migration trims its arguments, so such
  rows are never found. Merging one peer with clean IDs keeps every message with its peer exactly
  unless the stable ID is another peer's row with messages in it (`MergePeer`).

## Model

| member | source | states |
|---|---|---|
| GroupLog.Convergence | internal/chat/group_service.go:1466-1475 | under any schedule of dropped, duplicated and reordered events a replica equals the replay of the log from its base to its own sequence number, which never decreases |
| GroupLog.ReplicasAgree | internal/chat/group_service.go:1664-1698 | two replicas of one base at the same sequence number agree on title, controller, epoch, retention, archive state and every member row |
| GroupLog.ReceiveIsDelivery | internal/chat/group_service.go:1664-1698 | what the handler does with an event is always a delivery in the sense of the convergence theorem |
| GroupLog.HandlerConverges | internal/chat/group_service.go:1664-1698 | every run of the handler itself, with any changes to the replica's own tables between deliveries, stays at the replay up to its own number |
| GroupLog.EmitsKeepsOneController | internal/chat/group_service.go:1741-1793 | an event a command emits keeps exactly one, active, controller if and only if it is not a leave naming the controller, and such a leave is emitted only where an absent key can be stored |
| GroupLog.RotationCoversActive | internal/chat/group_service.go:2625-2655 | each rotation's key map covers exactly the members active right after it by the emitter's own member table, and raises the epoch by one; `GroupSystem.RunRotations` compares it with the members active in the group |
| GroupLog.LogInvariant | internal/chat/group_service.go:257-399 | along every linear log whose events were each emitted on a complete member table, the replay from creation (without a leave naming the controller where the driver stores absent keys, without exception elsewhere): one active controller, epoch = 1 + number of rotations, an epoch row for exactly the epochs so far, and each rotation's key map covers exactly the members active after it; `GroupSystem.RunInvariants` and `RunRotations` are the case of any tables |
| GroupLog.ControllerCanLeave | internal/chat/group_service.go:1741-1793 | a member that signed a leave request and is then made controller removes itself when the request arrives, if absent keys can be stored: its own replica accepts the event, and the group has a controller that is not active |
| GroupLog.EmittedIsAccepted | internal/chat/group_service.go:1198-1288 | a replica in the emitter's state passes the authority and sequence checks and accepts the event exactly when its rows fit |
| GroupLog.BootstrapMatchesInviter | internal/chat/group_service.go:2056-2123 | a replica made from an invite has the inviter's title, controller, epoch, archive state, sequence number, active members and invitee row |
| GroupLog.BootstrapRosterIff | internal/chat/group_service.go:2056-2123 | it also has the inviter's retention and all roles and states exactly when the inviter had no retention, no admins and no member that is not active |
| GroupLog.BootstrapVouchesIff | internal/chat/group_service.go:2056-2123 | of the next retention updates a replica made from an invite accepts exactly the controller's: it has recorded admins as members, and an admin's update is an error to it |
| GroupLog.HeaderFollows | internal/chat/group_service.go:1866-1897 | replicas that agree on the header keep agreeing on it through every later event, whatever their member tables; `FollowerCatchesUpIff` says when they take those events |
| GroupLog.CreatedAgrees | internal/chat/group_service.go:1795-1853 | the state built from a create event is the creator's, except for the creator's inviter |
| GroupLog.InvitersNeverMatter | internal/chat/group_store.go:1132-1161 | no event depends on who invited whom, so that difference never spreads |
| GroupLog.CreatorAndReplicasAgree | internal/chat/group_service.go:53-119 | creator and replicas of the create event agree at every later event, inviters aside |
| GroupLog.FollowerAcceptsIff | internal/chat/group_service.go:1198-1288 | a replica that agrees on the header, whatever its member table, accepts an emitted event exactly when its table vouches for the signer and the rows fit; otherwise it errs and stays |
| GroupLog.NextIsAcceptedIff | internal/chat/group_service.go:1466-1475 | a follower in step with event n of a linear log accepts event n + 1 exactly when it vouches for it, and errs exactly when it does not |
| GroupLog.FollowerCatchesUpIff | internal/chat/group_service.go:905-912 | a sync brings a follower, bootstrapped or not, to the end of the log exactly when it vouches for every event on the way |
| GroupLog.SyncCatchesUp | internal/chat/group_service.go:905-912 | a replica present since creation vouches for everything: sent the events after its own it takes all of them and ends at the last |
| GroupLog.LogStep | internal/chat/group_store.go:1264-1334 | one emitted event keeps the controller invariant, and a rotation adds exactly the next epoch and its row |
| GroupAuthority.OnlyTheControllerDirects | internal/chat/group_service.go:1224-1228 | an invite, join, leave, removal, title, dissolution or transfer not signed by the controller is an error and changes nothing |
| GroupAuthority.ActorsSign | internal/chat/group_service.go:1277-1282 | so is any event but a join or leave whose actor is not its signer |
| GroupAuthority.RetentionNeedsRank | internal/chat/group_service.go:1229-1240 | so is a retention update by a non-member, an inactive member or a plain member |
| GroupAuthority.RevocationNeedsRank | internal/chat/group_service.go:1241-1276 | so is an incomplete revocation, one by anyone not active, and one of another's message by a plain member, by an admin if the sender is a controller, or of an unlisted sender |
| GroupAuthority.CreateChangesNothing | internal/chat/group_service.go:1795-1802 | a create never changes a group that is there |
| GroupAuthority.OutOfTurn | internal/chat/group_service.go:1664-1673 | old events, and in an archived group all but a dissolution, change nothing; a gap is an error; an unknown event is neither |
| GroupAuthority.RefusedUnlessEntitled | internal/chat/group_service.go:1198-1288 | for every envelope: the authority check passes exactly what the signer is entitled to by its standing; all else is an error and changes nothing |
| GroupAuthority.TakenIff | internal/chat/group_service.go:1859-2054 | an entitled event in turn is applied exactly when its rows fit and a retention is in range, and is an error otherwise |
| GroupAuthority.HeaderAfter | internal/chat/group_service.go:1947-2054 | each header field is what the event of its kind says, and stays under every other |
| GroupAuthority.MembersAfter | internal/chat/group_store.go:1132-1334 | only named rows change; a join keeps role and inviter and records the epoch, a leave or removal records the epoch it ends, a transfer swaps two roles |
| GroupAuthority.TablesAfter | internal/chat/group_store.go:1304-1342 | the key handed to this peer is stored under the new epoch, an invite's under its own, and the event's row is added |
| GroupAuthority.MessagesLeft | internal/chat/group_store.go:590-622 | a revocation takes one message of the group, a dissolution all, everything else none |
| GroupAuthority.SameKeyEverywhere | internal/chat/group_service.go:2625-2637 | all who take a rotation and are handed a key have the same key for the new epoch |
| GroupAuthority.ChangesAreSigned | internal/chat/group_service.go:1198-1288 | for every envelope: each field changes only by the kind of event that sets it, in turn, signed by the controller of that moment (the retention also by an active admin) |
| GroupAuthority.MessagesGoSigned | internal/chat/group_service.go:1241-1276 | a message goes only by the controller's dissolution or a revocation signed by its sender or one who outranks it |
| GroupAuthority.ControlIsHandedOn | internal/chat/group_service.go:1664-1698 | over every run of arbitrary envelopes the controller is the first one or was appointed by a transfer the controller of the time signed |
| GroupAuthority.HeaderIsSigned | internal/chat/group_service.go:1664-1698 | likewise every change of title, epoch and archive state was signed by the controller of the time |
| GroupAuthority.MembersAreAdmitted | internal/chat/group_service.go:1664-1698 | and every new active member was admitted by a join it signed |
| GroupAuthority.CreatedRoster | internal/chat/group_service.go:1803-1853 | who is a member after a create event, in which role and state |
| GroupAuthority.BootstrapRoster | internal/chat/group_service.go:2056-2123 | who is a member in the state an invite describes, in which role and state |
| GroupAuthority.NobodyElseFounds | internal/chat/group_service.go:1208-1224 | only a create numbered 1 or an invite, signed by the controller it names, makes a group |
| GroupAuthority.InviteFounds | internal/chat/group_service.go:2056-2123 | such an invite makes the state it describes with itself applied, its key as the only epoch |
| GroupAuthority.CreateFounds | internal/chat/group_service.go:1803-1853 | such a create makes the state it describes, with this peer's key |
| GroupSystem.ForgeryFails | internal/chat/group_service.go:1198-1288 | an envelope its signer is not entitled to changes no replica; every run theorem of the system allows such envelopes at any time |
| GroupSystem.ControllerIsUpToDate | internal/chat/group_service.go:510-568 | a peer that is controller by its own replica has seen every event ever emitted |
| GroupSystem.OneEmitter | internal/chat/group_service.go:510-568 | no two peers are controller by their own replicas at the same time |
| GroupSystem.StepKeepsInv | internal/chat/group_service.go:1664-1698 | emissions by up-to-date peers, deliveries in any order and entries by invite keep every replica's header equal to the log's at its number, and the numbering gapless |
| GroupSystem.ControllersNeverFork | internal/chat/group_service.go:1466-1475 | in every run in which only controllers emit no two events share a number, at most one peer can emit and it is up to date, and peers at the same number agree on title, controller, epoch and archive state |
| GroupSystem.NoForkIff | internal/chat/group_service.go:434-476 | in every run in which any peer emits whatever its replica lets a command emit, no two events share a number if and only if every emitter had seen every event when it emitted |
| GroupSystem.NoForkAgree | internal/chat/group_service.go:1466-1475 | without a fork, peers at the same number agree on title, controller, epoch and archive state |
| GroupSystem.NoForkMembers | internal/chat/group_service.go:2056-2123 | without a fork, and if nobody entered by an invite that an inactive controller emitted, every member a replica lists is in the state the log gives it; it knows all active members exactly when it lists them |
| GroupSystem.NoForkSameMembers | internal/chat/group_service.go:2056-2123 | under the same condition two replicas at the same number agree on the state of every member both list, and on the active members exactly when each lists the other's |
| GroupSystem.GuestAgreesIff | internal/chat/group_service.go:2056-2123 | what an entering peer takes from an invite agrees with the log on all listed states if and only if the controller was active when the invite was emitted |
| GroupSystem.MembersAgreeIff | internal/chat/group_service.go:2056-2123 | in every fork-free run all replicas agree with the log on listed members in all states so far if and only if nobody entered by an invite that an inactive controller emitted |
| GroupSystem.LogControllerIff | internal/chat/group_service.go:1741-1793 | in every fork-free run the log has one active controller at every number if and only if no emitted event was a leave naming the controller, which never happens where absent keys cannot be stored; and then every entry is by an invite of an active controller |
| GroupSystem.RotationCoversIff | internal/chat/group_service.go:2625-2655 | a rotation emitted on a replica that agrees with the log hands keys only to members active after it in the log, and to all of them if and only if the emitter lists them all |
| GroupSystem.RunInvariants | internal/chat/group_service.go:510-568 | in every fork-free run, whoever is given control, the epoch at every number is 1 + the rotations so far, and without a leaving controller there is one active controller |
| GroupSystem.RunRotations | internal/chat/group_service.go:535-563 | in every fork-free run with well-made entries each rotation's keys go only to members active after it, and to all of them if and only if its emitter lists them all |
| GroupScenarios.ActiveMemberGetsNoKey | internal/chat/group_service.go:121-201 | a run from creation in which only controllers emit and none leaves reaches a state where the up-to-date controller, who entered by an invite, can emit a rotation that hands an active member no key |
| GroupScenarios.KeylessMemberStaysBehind | internal/chat/group_store.go:1318-1323 | where absent keys cannot be stored that member's replica, whatever its state, does not change on receiving the rotation |
| GroupSystem.MembersCanFork | internal/chat/group_service.go:577-623 | from every state in which an active member is at the controller's number, the member revoking a message and the controller emitting give two events one number |
| GroupScenarios.ForkReachable | internal/chat/group_service.go:577-623 | such a fork is reached in a run from creation |
| GroupReplica.UniquePeers | internal/chat/group_service.go:2207-2222 | the result lists each trimmed non-empty peer once, at its first occurrence |
| Text.TrimSpaceIs | internal/chat/group_service.go:2207-2222 | trimming takes away a prefix and a suffix of spaces and nothing else |
| GroupReplica.ActivePeerIDsExcluding | internal/chat/group_service.go:2639-2655 | the result lists the active peers not excluded, each once, in the order of the rows |
| GroupReplica.GenerateEpochKeys | internal/chat/group_service.go:2625-2637 | the key map's domain is the listed peers and every value is the one key |
| GroupReplica.Replica.InsertEvent | internal/chat/group_store.go:1336-1342 | succeeds exactly when neither event ID nor sequence number is taken; otherwise changes nothing |
| GroupReplica.Replica.InsertEpoch | internal/chat/group_store.go:1318-1323 | succeeds exactly when the epoch has no row and a key can be stored |
| GroupReplica.Replica.ListMembers | internal/chat/group_store.go:377-389 | lists exactly the member rows |
| GroupReplica.Replica.StoreCreate | internal/chat/group_store.go:1097-1130 | inserts group, members, event and epoch, or rolls back; succeeds exactly when no peer is listed twice, the event ID is new and a key can be stored |
| GroupReplica.Replica.UpsertMember | internal/chat/group_store.go:1132-1161 | upserts the member and stores the event, or rolls back |
| GroupReplica.Replica.ActivateMember | internal/chat/group_store.go:1163-1186 | activates an existing row (an absent one stays absent) and stores the event, or rolls back |
| GroupReplica.Replica.FinishMembershipChange | internal/chat/group_store.go:1304-1334 | marks the member, adds the epoch and stores the event, or rolls back; succeeds exactly when both rows fit |
| GroupReplica.Replica.StoreTransfer | internal/chat/group_store.go:1264-1302 | swaps the roles in order, sets controller and epoch and stores the event, or rolls all of it back |
| GroupReplica.Replica.StoreTitle | internal/chat/group_store.go:1196-1213 | sets title and sequence number and stores the event, or rolls back |
| GroupReplica.Replica.StoreRetention | internal/chat/group_store.go:1215-1233 | refuses out-of-range minutes; otherwise sets retention and stores the event, or rolls back |
| GroupReplica.Replica.StoreDissolve | internal/chat/group_store.go:1242-1262 | archives the group, purges its messages and stores the event, or rolls back |
| GroupReplica.Replica.StoreRevoke | internal/chat/group_store.go:590-622 | removes the message if it is of this group and stores the event, or rolls back |
| GroupReplica.Replica.Verify | internal/chat/group_service.go:1198-1288 | accepts exactly the events their signer is entitled to, and for an unknown group exactly proper creates and invites |
| GroupReplica.Replica.ApplyNext | internal/chat/group_service.go:1859-2054 | applies an authorized event to a known group as `Receive` says, and errs exactly when `Rejects` says |
| GroupReplica.Replica.FirstFromCreate | internal/chat/group_service.go:1795-1853 | an unknown group is made from a create event numbered 1 |
| GroupReplica.Replica.FirstFromInvite | internal/chat/group_service.go:2056-2123 | an unknown group is made from an invite, one event behind it |
| GroupReplica.Replica.Deliver | internal/chat/group_service.go:1664-1698 | the whole handler, errors included: `Receive` on a known group, `FirstContact` on an unknown one; what the signer is not entitled to is an error and changes nothing |
| GroupReplica.Replica.ApplySyncedEvents | internal/chat/group_service.go:905-912 | events of a sync response are handled in order up to the first error |
| GroupReplica.Replica.ActiveMembers | internal/chat/group_service.go:2185-2193 | the active members of the stored group, without the excluded ones |
| GroupReplica.Replica.CreateGroup | internal/chat/group_service.go:53-111 | makes the creator's state and the create event, exactly when the title is valid and the rows fit |
| GroupReplica.NormalizeInitialInvitees | internal/chat/group_service.go:2321-2342 | lists the invitees trimmed, once each, without the creator, exactly when all have a conversation |
| GroupReplica.InviteesFacts | internal/chat/group_service.go:2321-2342 | the invitees are the trimmed non-empty listed peers other than the creator, each once |
| GroupReplica.TitleIs | internal/chat/group_service.go:1126-1135 | a title is accepted exactly if it is 1 to 64 bytes long without surrounding space |
| GroupReplica.InviteRoleIs | internal/chat/group_service.go:1137-1148 | no role and "member" mean a member, "admin" an admin, anything else is an error |
| GroupReplica.Replica.CreateGroupWithMembers | internal/chat/group_service.go:53-119 | creation, exactly under its guards, followed by one member invite per listed peer up to the first that fails; with new event IDs none fails; every invite is emitted on the state its predecessors left, and the group is the result of applying them all |
| GroupReplica.Replica.InviteGroupMember | internal/chat/group_service.go:121-201 | succeeds exactly under its guards and applies its event, which hands on the current epoch's key; this is what receiving the invite gives exactly when that key is not empty or absent keys can be stored |
| GroupReplica.IssuedIsReceived | internal/chat/group_service.go:1664-1698 | what a command issues leaves exactly what receiving the event leaves, without an error |
| GroupReplica.Replica.AcceptGroupInvite | internal/chat/group_service.go:203-255 | the controller emits a join equal to receiving it; any other invitee sends a request and changes nothing |
| GroupReplica.Replica.HandleJoinRequest | internal/chat/group_service.go:1700-1739 | the controller emits a join for an invited peer, equal to receiving it |
| GroupReplica.Replica.LeaveGroup | internal/chat/group_service.go:257-337 | a member asks the controller; under the one-controller invariant it never emits itself; what it emits equals receiving it |
| GroupReplica.Replica.RotateLeaver | internal/chat/group_service.go:1755-1788 | the leave event gives the one new key to all active members but the leaver and equals receiving it |
| GroupReplica.Replica.HandleLeaveRequest | internal/chat/group_service.go:1741-1793 | the controller emits a leave for any active member, itself included, equal to receiving it |
| GroupReplica.Replica.RotateRemoved | internal/chat/group_service.go:364-393 | the removal gives the one new key to all active members but the target and equals receiving it |
| GroupReplica.Replica.RemoveGroupMember | internal/chat/group_service.go:339-399 | succeeds exactly under its guards, and equals receiving the emitted removal |
| GroupReplica.Replica.UpdateGroupTitle | internal/chat/group_service.go:401-432 | sets the trimmed title exactly under its guards, and equals receiving the event |
| GroupReplica.Replica.UpdateGroupRetention | internal/chat/group_service.go:434-476 | an active controller or admin sets a valid retention, and it equals receiving the event |
| GroupReplica.Replica.DissolveGroup | internal/chat/group_service.go:478-508 | the controller archives the group, and it equals receiving the event |
| GroupReplica.Replica.RotateTo | internal/chat/group_service.go:535-563 | the transfer hands the one new key to exactly the active members and equals receiving it |
| GroupReplica.Replica.TransferGroupController | internal/chat/group_service.go:510-568 | succeeds exactly under its guards, and equals receiving the transfer |
| GroupReplica.Replica.RevokeGroupMessage | internal/chat/group_service.go:577-623 | emits exactly under its guards, which `RevokesLocally` describes; deletes an unsent message that has an ID locally; the emitted revocation equals receiving it exactly when message ID and sender are not empty and the sender has a row |
| GroupMessages.MessageTables.AddGroupMessage | internal/chat/group_store.go:455-501 | the row replaces every row it shares a unique key with, and each delivery row is written |
| GroupMessages.MessageTables.HandleIncomingMessage | internal/chat/group_service.go:2354-2466 | a revoked or inadmissible message is ignored, any other stored |
| GroupMessages.MessageTables.RevokeGroupMessage | internal/chat/group_store.go:590-622 | refuses a sender that does not match; otherwise records the revocation and drops message and deliveries |
| GroupMessages.MessageTables.DeleteRows | internal/chat/group_store.go:1426-1450 | deletes rows of one group with their deliveries |
| GroupMessages.AdmittedIsStored | internal/chat/group_service.go:2354-2466 | an admitted message that is not revoked is stored as it is and displaces only rows in its place of the sender's sequence; any other message changes nothing |
| GroupMessages.SentIsStored | internal/chat/group_store.go:455-501 | a local send stores its message as it is, with its deliveries |
| GroupMessages.LastStateWins | internal/chat/group_store.go:455-501 | a recipient ends with the state given last |
| GroupMessages.OtherStatesStay | internal/chat/group_store.go:455-501 | recipients not named and other messages keep their states |
| GroupMessages.RevokedExactly | internal/chat/group_store.go:590-622 | what a revocation records and takes, and what it leaves alone |
| GroupMessages.DeletedExactly | internal/chat/group_store.go:1426-1450 | a deletion takes exactly the listed rows of the group and their deliveries |
| GroupMessages.RevocationMatchesLog | internal/chat/group_store.go:590-622 | the message tables and the group log refuse the same revocations and drop the same rows |
| GroupMessages.DissolutionMatchesLog | internal/chat/group_store.go:1485-1493 | and drop the same rows on dissolution |
| GroupMessages.RevocationCommutesIff | internal/chat/group_service.go:1996-2018 | message and revocation in either order give the same tables exactly when the message is revoked already, inadmissible, or no row rivals it |
| GroupMessages.RevocationWins | internal/chat/group_service.go:1996-2018 | in either order the message is gone with its deliveries and recorded as revoked |
| GroupMessages.ReusedNumberLosesAMessage | internal/chat/group_store.go:443-453 | a reused sender sequence number makes the late copy of a revoked message erase another message |
| GroupMessages.RevokedStaysGone | internal/chat/group_service.go:2359-2365 | once revoked, no run of deliveries, sends, revocations and deletions brings the message back |
| RelayReorder.IngestPacket | internal/chat/relay_v1.go:1005-1075 | the handler's in-place updates compute `Ingest` |
| RelayReorder.IngestIgnores | internal/chat/relay_v1.go:1005-1075 | of any entry: a packet delivered or waiting already, more than 64 ahead, or one too many changes nothing, whatever it carries |
| RelayReorder.IngestTakes | internal/chat/relay_v1.go:1005-1075 | any other waits if it is ahead and is released first if it is the next |
| RelayReorder.FlushReleasesStretch | internal/chat/relay_v1.go:1040-1052 | flushing releases exactly the consecutive buffered payloads |
| RelayReorder.FlushKeepsTheRest | internal/chat/relay_v1.go:1040-1052 | flushing keeps exactly the packets above the new frontier, with their contents |
| RelayReorder.FlushPassesNoHole | internal/chat/relay_v1.go:1040-1052 | flushing passes over no packet that was not buffered |
| RelayReorder.CapNeverRejects | internal/chat/relay_v1.go:1015-1073 | in any buffer within its window there are at most 64 packets, and the cap rejects none that the duplicate and gap checks admit, whatever the contents |
| RelayReorder.FlushRises | internal/chat/relay_v1.go:1040-1052 | a flush moves packets from the buffer to the frontier one for one, stops at a hole, and reaches ^uint64(0) exactly when every packet up to it was waiting |
| RelayReorder.IngestKeepsWindow | internal/chat/relay_v1.go:1005-1075 | any packet at all, whatever its number and content, keeps the buffer in its window; the frontier goes back if and only if it is the next packet and all after it up to ^uint64(0) are waiting |
| RelayReorder.IngestStep | internal/chat/relay_v1.go:1005-1075 | one ingestion releases the stretch the frontier moves over and holds what it held plus the packet, unless it is more than 64 ahead |
| RelayReorder.ReorderExactlyOnce | internal/chat/relay_v1.go:1005-1075 | for every arrival order with duplicates and losses the output is payload 0..n-1, once each, in order |
| RelayReorder.NothingDroppedIff | internal/chat/relay_v1.go:1057-1069 | no arrival is ever dropped if and only if no packet overtakes one more than 64 below it |
| RelayReorder.EverythingComesOut | internal/chat/relay_v1.go:1005-1075 | if moreover packets 0..n-1 all arrive, all come out and nothing stays pending |
| RelayReorder.SentinelRestartsTheStream | internal/chat/relay_v1.go:1015-1023 | after the packets 0..2^64-2 in order, packet ^uint64(0) resets the frontier and packet 0 is released again |
| RelayTables.KeyInjective | internal/chat/relay_v1.go:36-38 | two sessions never share a key entry, sources being NUL-free |
| RelayTables.StepKeepsInv | internal/chat/relay_v1.go:63-171 | every locked step keeps the lists equal to the connect table, key entries backed, and the caps |
| RelayTables.RunKeepsInv | internal/chat/relay_v1.go:63-171 | so does every reachable state: at most 64 sessions per source, at most the total cap plus one that eviction can see |
| RelayTables.HeldThroughout | internal/chat/relay_v1.go:136-171 | a registration held later was held without interruption |
| RelayTables.WindowInEveryRun | internal/chat/relay_v1.go:1015-1073 | in every state of every run, whatever packets were sent, every pending number lies in (next, next + 64], at most 64 wait, the cap rejects nothing admitted, and no more are delivered or waiting than steps were made |
| RelayTables.FrontierDropsIff | internal/chat/relay_v1.go:1005-1075 | across a step that keeps the registration the entry stays and keeps its keys, and the frontier goes back if and only if the step is a packet for it that is a reset |
| RelayTables.ResetIsLate | internal/chat/relay_v1.go:1005-1075 | a reset has at least 2^64 - 1 steps before it |
| RelayTables.EntryStays | internal/chat/relay_v1.go:986-991 | while a registration lasts its key entry stays and keeps its keys, whatever packets arrive |
| RelayTables.FrontierNeverReset | internal/chat/relay_v1.go:986-991 | while a registration lasts and no step is a reset, its receive frontier never moves back |
| RelayTables.FrontierNeverResetEarly | internal/chat/relay_v1.go:986-991 | in the first 2^64 - 1 steps of any run the frontier of a lasting registration never moves back, whatever packets arrive |
| RelayTables.AtMostOneInstall | internal/chat/relay_v1.go:739-799 | in every run, however handshakes interleave between their two locked checks and whatever packets arrive, at most one installs keys per registration |
| RelayTables.InstalledSource | internal/chat/relay_v1.go:786-799 | keys are installed only for the source that registered the session |
| RelayTables.SessionStreamInOrder | internal/chat/relay_v1.go:1005-1075 | inside the full endpoint, with any other activity in between, a session's packets are released once each and in order for as long as its registration lasts |
| RelayClock.TimedIsStep | internal/chat/relay_v1.go:63-171 | a locked section with its clock is a step of the tables, so all run results hold with the clock |
| RelayClock.GoesIff | internal/chat/relay_v1.go:63-171 | below the total cap a registration goes in a section if and only if a purge is due and it has expired, or its source has 64 sessions, it is the oldest and another one is registered |
| RelayClock.TimedRunIsRun | internal/chat/relay_v1.go:63-171 | every timed run is a run of the tables |
| RelayClock.LastsUntilExpiry | internal/chat/relay_v1.go:63-171 | over every timed run a registration lasts until the end of the second it expires in, as long as the endpoint is within its total cap and its source does not connect with 64 sessions open |
| RelayClock.StreamUntilExpiry | internal/chat/relay_v1.go:1005-1075 | so until then packets 0..n-1 of its session are released once each and in order, with no assumption that it is still held |
| RelayClock.ConnectsApart | internal/chat/relay_v1.go:136-171 | in every timed run two registrations of one source that follow each other are at least 200 ms apart |
| RelayEndpoint.RemoveString | internal/chat/relay_v1.go:53-61 | the list without the given string, in order |
| RelayEndpoint.Endpoint.RemoveConnect | internal/chat/relay_v1.go:85-97 | removes registration, list entry and key entry together |
| RelayEndpoint.Endpoint.OldestVictim | internal/chat/relay_v1.go:99-111 | finds a registration expiring first, or none |
| RelayEndpoint.Endpoint.EvictOldest | internal/chat/relay_v1.go:99-111 | removes the registration that expires first, if eviction can see one, and nothing else |
| RelayEndpoint.Endpoint.EnforceTotalCap | internal/chat/relay_v1.go:76-82 | evicts what expires first, no more than necessary, until the total cap holds for what eviction can see |
| RelayEndpoint.Endpoint.PurgeExpired | internal/chat/relay_v1.go:63-75 | exactly what has not expired remains, with its lists and keys |
| RelayEndpoint.Endpoint.MaybePurge | internal/chat/relay_v1.go:63-83 | purges exactly when two seconds have passed or the cap is exceeded: drops what has expired, then what expires first until the cap holds; otherwise nothing changes |
| RelayEndpoint.Endpoint.EnforcePerSrcCap | internal/chat/relay_v1.go:125-133 | terminates, because list heads are always registered to the source; exactly its oldest sessions are gone, as many as free a place |
| RelayEndpoint.Endpoint.TryRegisterConnect | internal/chat/relay_v1.go:136-171 | is one registering section with its clock: what is purged, displaced and evicted, the time recorded; refuses exactly a nameless request and an unknown session within 200 ms |
| RelayEndpoint.Endpoint.MakeRoom | internal/chat/relay_v1.go:154-164 | both caps are enforced and nothing else is removed |
| RelayEndpoint.Endpoint.HandshakeAllowed | internal/chat/relay_v1.go:739-751 | the first locked check leaves no trace but the purge, and passes exactly a valid registration without keys |
| RelayEndpoint.Endpoint.FinishHandshake | internal/chat/relay_v1.go:786-799 | the second locked check is one installing section with its clock: the given keys and nothing delivered, exactly for a valid registration without keys |
| RelayEndpoint.Endpoint.IngestData | internal/chat/relay_v1.go:1005-1075 | is one data section with its clock; a session that has not expired, below the total cap, stays, and its entry and the output are what the reorder buffer makes of the packet |
| RelaySender.PeerSession.EstablishVia | internal/chat/relay_v1.go:416-537 | the session after an attempt that may fail at any stage |
| RelaySender.PeerSession.SendVia | internal/chat/relay_v1.go:284-346 | a ready session seals exactly the given plaintext under its key and next number; one not ready, about to expire or with another relay is established anew first, with a new key and number 0, or nothing is sealed |
| RelaySender.PeerSession.ActivateOutbound | internal/chat/relay_v1.go:812-824 | installs the reverse direction with numbers starting anew |
| RelaySender.StepKeepsInv | internal/chat/relay_v1.go:284-346 | every step keeps each key owned by one session object and numbered without gaps |
| RelaySender.RunKeepsInv | internal/chat/relay_v1.go:416-537 | so does every run with fresh keys |
| RelaySender.StepOnObjects | internal/chat/relay_v1.go:284-346 | what each action does to each session object |
| RelaySender.SealedAsHanded | internal/chat/relay_v1.go:284-346 | over every run the plaintexts sealed under a key are those handed to the sends that seal under it, in order |
| RelaySender.SealsNeverRepeatIff | internal/chat/relay_v1.go:284-346 | no key and packet number are sealed twice if and only if no key seals more than 2^64 packets |
| RelayChannel.ReleasedIsSent | internal/chat/relay_v1.go:882-907 | for every run of the sender and of the endpoint, with any loss, duplication and reordering: what the endpoint has released for a session since its handshake is a prefix of what the sender was given to send under the installed key, in order, its length the frontier, as long as that is fewer than 2^64 packets and only sealed packets open |
| RelayChannel.ReleasedIsSentUntilExpiry | internal/chat/relay_v1.go:882-907 | the same with the endpoint's clock, until the registration expires, with no assumption that it is still held |
| DirectChat.StepKeepsOrder | internal/chat/service.go:3153-3185 | every step on every path keeps committed counters increasing and below the cursor, and never lowers the cursor |
| DirectChat.CrossPathOrder | internal/chat/message_store.go:34-88 | over any interleaving of all paths, whatever counters are offered, counters are committed in order, the cursor never decreases, and off the offline path only at the cursor |
| DirectChat.NothingMissedIff | internal/chat/service.go:3153-3185 | over any interleaving the committed counters are exactly those from the start up to the cursor if and only if no event so far skipped one, which can be told before each event; the number missed is never negative |
| DirectChat.LargeCountersRefused | internal/chat/message_store.go:34-88 | of the messages the offline path lets through, exactly those are refused, without a trace, whose counter or successor does not fit a database column, so the cursor cannot wrap |
| DirectChat.EmptyResponse | internal/chat/service.go:3484-3488 | an empty response commits nothing and leaves the cursor at the larger of the two counters if that fits its column, and is an error otherwise |
| DirectChat.AppliedReaches | internal/chat/service.go:3478-3517 | whatever is answered and whatever becomes of the messages, applying a response is a run of the events of `CrossPathOrder` |
| DirectChat.SyncedReaches | internal/chat/service.go:1382-1422 | so is a sync with any number of rounds against any responder |
| DirectChat.ReachesKeeps | internal/chat/service.go:1382-1422 | hence the order is kept, the cursor never goes back and nothing committed is dropped |
| DirectChat.GoesOnOrStops | internal/chat/service.go:1403-1422 | after a round the sync succeeds, goes on from the new cursor or fails, exactly by what was answered and how far it got |
| DirectChat.SyncedMeansReached | internal/chat/service.go:1413-1415 | a sync that reports success has reached the counter of an answer |
| DirectChat.UnknownConversation | internal/chat/service.go:3519-3541 | with a peer that does not know the conversation a sync succeeds at once and changes nothing; a counter too large to look up makes it fail |
| DirectChat.HandleSyncRequest | internal/chat/service.go:3519-3599 | answers with as much of the batch as fits a frame, split by kind; empty for an unknown conversation; errs when the first item does not fit or the counter cannot be looked up |
| DirectChat.ResponseIsLongest | internal/chat/service.go:3546-3599 | a response holds the longest prefix of at most 256 rows that fits a frame of 16 MiB |
| DirectChat.FromIs | internal/chat/message_store.go:433-455 | exactly the rows that are not below the counter asked for |
| DirectChat.Session.AddInboundAndAdvance | internal/chat/message_store.go:34-88 | whichever statement fails, the missing session row included, everything written before it is undone; on success message, cursor and unread count change together; committing the cursor or any later counter keeps the order |
| DirectChat.Session.HandleIncoming | internal/chat/service.go:2742-2985 | when a message is committed, where the cursor then is, and when handling ends well, with an error or at a gap; the unread count grows only with a stored message |
| DirectChat.Session.ApplyServerMessage | internal/chat/meshchat_relay.go:502-556 | a message already known is skipped; any other is committed at the cursor, or not at all |
| DirectChat.Session.ApplySyncResponse | internal/chat/service.go:3478-3517 | the two-index loop handles the merge of both lists in order up to the first failure; order and cursor are kept against any response, an empty one moves only the cursor, and the unread count is never touched |
| DirectChat.Session.DoRound | internal/chat/service.go:1383-1419 | one round and its verdict, whatever the request is answered |
| DirectChat.Session.SyncRounds | internal/chat/service.go:1382-1422 | rounds until done, stuck, failed or used up |
| DirectChat.Session.SyncFromCounter | internal/chat/service.go:1382-1422 | the same with 64 rounds; order and cursor are kept against any responder |
| DirectChat.MergeRestoresOrder | internal/chat/service.go:3492-3496 | merging the text and file lists by counter restores the order they were split from |
| DirectChat.ResponseIsPrefix | internal/chat/service.go:3519-3599 | a response is a counter-ordered prefix of what is missing, an error only if its first item is too large; handling it commits it all and starts no nested sync |
| DirectChat.RoundAdvances | internal/chat/service.go:1413-1419 | every answered round strictly advances and ends exactly when nothing is missing |
| DirectChat.SyncCommitsAPrefix | internal/chat/service.go:1382-1422 | however frames are truncated, the missing messages are committed in order from the first, and success is reported exactly when none is missing |
| DirectChat.SyncCatchesUpIff | internal/chat/service.go:1382-1422 | without truncation n rounds succeed exactly when at most n x 256 messages are missing; otherwise they advance by exactly that many |
| DirectChat.SyncRecovers | internal/chat/service.go:1382-1422 | then the cursor is the peer's send counter and all missing messages are stored in order |
| DirectChat.GapClosesIff | internal/chat/service.go:3153-3185 | after one sync a gap is gone exactly when the counter does not exceed the peer's send counter; otherwise every pass repeats unchanged |
| FileFetch.KeysMirrorIff | internal/chat/store.go:1396-1426 | each peer receives under the key the other sends under exactly when the peers differ or the keys coincide |
| FileFetch.SmallerSendsFirst | internal/chat/store.go:1417-1424 | the peer with the smaller ID sends under the first derived key |
| FileFetch.ServeIs | internal/chat/service.go:3029-3070 | what the server answers for every offset and chunk size, errors and the end included |
| FileFetch.MisfitFails | internal/chat/service.go:963-975 | an answer for another conversation, message or offset, or with an error, makes the fetch fail at once |
| FileFetch.SucceedsIff | internal/chat/service.go:948-1000 | against any responder a fetch succeeds with u answers if and only if each is for this file at the offset reached, opens, ends exactly at the last and names no other size, and then returns what they carry in order |
| FileFetch.FetchChatFile | internal/chat/service.go:948-1000 | the client loop over any answers |
| FileFetch.SuccessHasAdvertisedSize | internal/chat/service.go:974-1000 | against any responder a successful fetch has the size of every answer that advertised one |
| FileFetch.JudgeHonest | internal/chat/service.go:3029-3070 | an honest answer opens to its chunk and ends the loop exactly at the last chunk |
| FileFetch.HonestFetch | internal/chat/service.go:948-1004 | between derived sessions every blob is fetched byte for byte in max(1, ceil(len / 1 MiB)) requests |
| OfflineCursor.ReadResults | internal/chat/offline_store.go:642-663 | the loop computes the highest readable number before the first retryable failure, whatever the order of the numbers |
| OfflineCursor.MaxOKFacts | internal/chat/offline_store.go:642-663 | that number is in the batch, above the cursor and below every retryable failure |
| OfflineCursor.AfterBatchIs | internal/chat/offline_store.go:642-697 | which items a batch counts as handled or rejected, up to where the store deletes, and when the cursor moves |
| OfflineCursor.BelowMarkSettled | internal/chat/offline_store.go:592-717 | every item at or below it is handled or permanently rejected, whichever tasks after the first retryable failure have run |
| OfflineCursor.BatchIsSafe | internal/chat/offline_store.go:592-717 | for numbers below 2^63 and whichever tasks after the first retryable failure have run, one batch keeps the invariant, never passes a retryable failure, and a continuing one strictly raises the cursor |
| OfflineCursor.CursorRisesIff | internal/chat/offline_store.go:669-697 | a batch that is acknowledged and saved raises the cursor if and only if the number acknowledged is below 2^63 |
| OfflineCursor.CursorTurnsNegative | internal/chat/offline_store.go:669-697 | an item numbered 2^63 makes the saved cursor negative |
| OfflineCursor.CursorIsSafe | internal/chat/offline_store.go:592-717 | over any run of deposits of ascending numbers below 2^63, batches, tasks that finish after their batch, lost acknowledgements, failed saves and restarts the cursor never decreases and everything at or below it is settled |
| OfflineCursor.Poller.Poll | internal/chat/offline_store.go:592-717 | the poll is the fold of its batches up to the first that does not go on, at most 500; it keeps the invariant and saves strictly ascending cursors |
| OfflineCursor.GoesOnIff | internal/chat/offline_store.go:609-704 | a batch saves a cursor exactly when it was fetched, acknowledged something and saved it, and another one follows exactly when there is more, batches are left and the next advances too |
| OfflineCursor.PollDrains | internal/chat/offline_store.go:609-704 | against a store that reports more exactly while it has issued something above, with every item handled, acknowledged and saved, a poll ends with nothing left above the cursor and everything settled, or has saved a cursor in each of its batches |
| OfflineCursor.PollIsRun | internal/chat/offline_store.go:609-704 | a poll is a run of batches, so `CursorIsSafe` holds over every sequence of polls |
| OfflineCursor.ConversationsStayInOrder | internal/chat/offline_store.go:115-157 | under any interleaving the tasks of one queue run in fetch order, each at most once |
| OfflineCursor.WorkersDoTheBatch | internal/chat/offline_store.go:624-663 | however the workers interleave, with tasks of earlier batches too, once the tasks before the first retryable failure have run the items are handled and rejected as the batch step says, with whichever later tasks have run; all of them where the queues are drained |
| ConversationMerge.MigrateKeepsPeersIff | internal/chat/direct_store.go:84-163 | a migration keeps every message with its peer exactly when both rows are of one peer or the target holds no message |
| ConversationMerge.MigrateSkipsUnclean | internal/chat/direct_store.go:85-89 | a row whose ID has surrounding space is never moved nor overwritten |
| ConversationMerge.MigrateKeepsIDs | internal/chat/direct_store.go:84-163 | no migration loses or adds a message, revoke job or request |
| ConversationMerge.MergedMore | internal/chat/conversation_store.go:432-441 | one more row of the peer goes into the keeper, with its messages, jobs, requests and session |
| ConversationMerge.MergedOn | internal/chat/conversation_store.go:442-443 | the keeper moves on to the stable ID |
| ConversationMerge.IntoKeeperSession | internal/chat/direct_store.go:134-141 | the keeper ends with the session of the last row merged into it that has one, or else its own |
| ConversationMerge.DedupedMore | internal/chat/conversation_store.go:400-449 | merging one more peer keeps: one row each, others untouched, messages with their peers, nothing naming a merged-away ID |
| ConversationMerge.StableIDSymmetric | internal/chat/direct_store.go:165-170 | both sides of a conversation derive the same stable ID |
| ConversationMerge.StableIDsDiffer | internal/chat/direct_store.go:165-170 | stable IDs are clean and differ exactly when the NUL-free correspondents differ |
| ConversationMerge.DerivedStableIDs | internal/chat/direct_store.go:165-170 | with derived IDs the condition of the whole merge on stable IDs comes down to no row sitting at another peer's ID |
| ConversationMerge.Store.MigrateConversationID | internal/chat/direct_store.go:84-163 | trims, ignores empty or equal IDs, errs on a missing row, otherwise moves all five tables |
| ConversationMerge.Store.MergePeer | internal/chat/conversation_store.go:421-449 | merges one peer's rows into its stable ID when all IDs are clean, and says which session survives: that of the last row merged that has one; with clean IDs every message keeps its peer if and only if the stable ID is the peer's, free, or holds no message; never touches unclean rows |
| ConversationMerge.Store.DedupeConversationsByPeer | internal/chat/conversation_store.go:378-454 | on every table no message, job or request is lost; if no row sits at another peer's stable ID, one row per formerly duplicated peer is left at the stable ID exactly when their IDs are clean, and then messages stay with their peers and nothing names a merged-away ID |
| Encodings.ParseUintOfDecimal | internal/chat/offline_envelope.go:105-121 | parsing undoes printing for every 64-bit number |
| Encodings.DecimalIs | internal/chatrelay/sign.go:25-55 | ASCII digits, the lowest last, without leading zeros |
| Encodings.WordIs | internal/chat/offline_friend_ecies.go:28-40 | eight bytes, highest first, negative numbers in two's complement |
| Encodings.JoinInjective | internal/chatrelay/sign.go:25-55 | joined separator-free fields determine each field |
| RelaySign.CanonicalInjective | internal/chatrelay/sign.go:25-55 | frames of one kind with equal canonical bytes agree on every signed field |
| RelaySign.SignedInjective | internal/chatrelay/sign.go:11-16 | frames of any kinds with equal signed bytes are the same frame: the prefixes separate the kinds |
| RelaySign.SignedIs | internal/chatrelay/sign.go:11-55 | the bytes of each kind of frame written out: label, fields in order, separators |
| FriendAAD.BuildAAD | internal/chat/offline_friend_ecies.go:19-46 | the appends build the associated data |
| FriendAAD.AADInjective | internal/chat/offline_friend_ecies.go:19-46 | envelopes with NUL-free strings have equal associated data exactly when all bound fields and the effective TTL agree |
| FriendAAD.AADIs | internal/chat/offline_friend_ecies.go:28-45 | the bytes written out in order |
| KeyID.Base64RoundTrip | internal/chat/offline_envelope.go:104-115 | base64 decoding undoes encoding for all bytes |
| KeyID.LetterIs | internal/chat/offline_envelope.go:104-107 | the base64 alphabet |
| KeyID.QuadIs | internal/chat/offline_envelope.go:104-107 | four letters are the base-64 digits of the number three bytes make |
| KeyID.EncodedGroup | internal/chat/offline_envelope.go:104-107 | which letters stand where, padding included |
| KeyID.LineBreaksSkipped | internal/chat/offline_envelope.go:109-115 | line breaks are skipped wherever they are |
| KeyID.PaddingOnlyLast | internal/chat/offline_envelope.go:109-115 | padding is an error but at the end of the last group |
| KeyID.KeyIDIs | internal/chat/offline_envelope.go:104-107 | what is encoded is the counter in decimal, a colon and the type |
| KeyID.KeyIDRoundTripIff | internal/chat/offline_envelope.go:104-130 | a key ID decodes to its counter and type exactly when the type is not empty, whatever bytes it contains |
| RelayScore.ScoreStore.ApplyRelayNodeConnectScore | internal/chat/relay_score_store.go:14-86 | inserts, resets on an address change, otherwise adds the clamped whole minutes, and touches no other peer |
| RelayScore.Gain | internal/chat/relay_score_store.go:67-75 | a gap of 60 minutes or more gives exactly 60, any other its whole minutes, a backward one nothing |
| RelayScore.HistoryTracksRow | internal/chat/relay_score_store.go:14-86 | the history the bound speaks of is the row the store keeps |
| RelayScore.ScoreBoundAnyClock | internal/chat/relay_score_store.go:67-75 | whatever the clock does, the score in minutes is at most the time since insertion or address change plus the time by which the clock went back, and at most 60 per same-address connect |
| RelayScore.ScoreBound | internal/chat/relay_score_store.go:67-75 | with non-decreasing times the score is at most the whole minutes since insertion or address change, and at most 60 per same-address connect |
| RelayScore.BackwardsClockOvercounts | internal/chat/relay_score_store.go:67-75 | with a clock that goes back the first bound fails |

## Left out

- HTTP API, SDK, application wiring, IPFS handlers, GeoIP, DNS and configuration: plumbing.
- Circuit manager, relay forwarding table, offline-store server and libp2p transport: the network drops, duplicates and reorders whole frames; the store returns ascending items.
- Cryptography: signatures are taken as verified, AEAD, key exchange, key derivation and hashing are function values with the laws they need; nothing is claimed about secrecy.
- Clocks, timers, retries, heartbeats, logging, notifications and delivery acknowledgements beyond whether they fail.
- Database failures other than constraint violations, missing rows and the outcomes passed in; a handler or transaction is one atomic step.
- Group timestamps, avatars, delivery states, sender cursors and the deletion of archived groups (internal/chat/group_store.go:1402-1483), after which a group can be built anew from an invite.
- Group sequence numbers and epochs are unbounded naturals. Go's `database/sql` refuses `uint64` values of 2^63 and above: direct-chat counters model this, group numbers only in that an invite numbered 0, whose predecessor wraps, is refused.
- GroupLog.Convergence: assumes one event per sequence number; what replicas do after a fork is not modelled.
- GroupSystem.ControllersNeverFork: agreement is on the header; member tables of peers that entered by an invite hold only what the invite lists, and `NoForkMembers` and `RunRotations` say what holds of those.
- Agreement of bootstrapped replicas on members missing from the invite's list: activation only updates existing rows.
- GroupReplica.Replica.Deliver: does not model the invite notice that arrives as a direct message (internal/chat/service.go:2872-2896), which skips the archive check; `GroupLog.Convergence` covers it, since its deliveries may apply any next event.
- GroupReplica.Replica.StoreRetention: does not delete expired messages, which depends on the clock.
- GroupReplica.Replica.CreateGroup: does not include the invites sent afterwards, which are `CreateGroupWithMembers`.
- GroupReplica.Replica.ListMembers: does not state the order, which depends on timestamps.
- GroupReplica.Replica.AcceptGroupInvite: does not include the syncs that follow a sent request, each of which is `ApplySyncedEvents`.
- GroupReplica.Replica.StoreRevoke: does not include the revocation and delivery rows of the transaction, which are in `GroupMessages`; `RevocationMatchesLog` ties the two.
- GroupMessages.MessageTables.RevokeGroupMessage: does not include the event row and the group's number, which are in `GroupReplica`.
- GroupMessages.MessageTables.AddGroupMessage: does not include the sender cursor and the time of the last message.
- GroupMessages.MessageTables.HandleIncomingMessage: takes membership, epoch lookup and decryption as one admission flag.
- RelayEndpoint.RemoveString: builds a new list instead of filtering the slice in place; nothing else holds the slice.
- RelayEndpoint.Endpoint.TryRegisterConnect: asks for a NUL-free source, which its only caller ensures by decoding it as a peer ID.
- RelayTables.RunKeepsInv: sessions that expire at or after the eviction horizon of 2^62 - 1 are not counted by the total cap, as in the code.
- RelayChannel.ReleasedIsSent: takes a packet to be opened with the key of the entry it goes into; the code looks the key up and takes the packet in under two separate locks, so a session ID registered anew in between is not covered.
- RelaySender: purging of idle session objects and the choice of relays are not modelled; a new object starts without keys.
- DirectChat.Session.HandleIncoming: stops with `NeedsSync` where the code starts a sync and looks again; `GapClosesIff` is about that loop. Session repair after a failed decryption starts a new session and is outside one incarnation.
- DirectChat sync over a log with holes is not covered: the gap branch then syncs from the same counter again.
- FileFetch.FetchChatFile: storing the fetched blob and checking its content ID are not modelled.
- OfflineCursor.Poller.Poll: a task left over from an earlier batch that finishes while the poll runs is a step of `CursorIsSafe`, not of the poll.
- OfflineCursor: what the store does with a negative number is not modelled; item parsing and verification enter as the outcome of each item; the 64-slot queue capacity only delays sends.
- ConversationMerge.Store.DedupeConversationsByPeer: where a row does sit at another peer's stable ID, promises only that nothing is lost; `MergePeer` says for each merge whether messages then change peers. Rows of one peer are taken in any order.
- RelayScore: a stored time that does not parse counts as the present, which gains nothing; it is not modelled.
