/** Who may change what in a group: what a replica does with any envelope at all, from anyone, told by
    what the signer lacks, by the field that changes and by the member that is named; and what follows
    for every run of arbitrary envelopes. */
module GroupAuthority {
  import opened Basics
  import opened GroupLog

  /** The envelope is an error, and nothing changes. */
  ghost predicate Refused(r: Rep, l: Local, env: Envelope) {
    Rejects(r, l, env) && Receive((r, l), env) == (r, l)
  }

  // ----- what the signer lacks -----

  /** Everything but retention updates and revocations is up to the controller. */
  lemma OnlyTheControllerDirects(r: Rep, l: Local, env: Envelope)
    requires !env.payload.Create? && !env.payload.Other? && !env.payload.RetentionUpdate? && !env.payload.Revoke?
    requires env.signer != r.controller
    ensures Refused(r, l, env)
  {
  }

  /** Joins and leaves name the member as actor; in all other events the actor signs. */
  lemma ActorsSign(r: Rep, l: Local, env: Envelope)
    requires !env.payload.Create? && !env.payload.Other? && !env.payload.Join? && !env.payload.Leave?
    requires env.actor != env.signer
    ensures Refused(r, l, env)
  {
  }

  /** The retention is up to active controllers and admins. */
  lemma RetentionNeedsRank(r: Rep, l: Local, env: Envelope)
    requires env.payload.RetentionUpdate?
    requires || env.signer !in r.members || r.members[env.signer].state != Active
             || (r.members[env.signer].role != Controller && r.members[env.signer].role != Admin)
    ensures Refused(r, l, env)
  {
  }

  /** A message is revoked by an active member: its sender, a controller, or an admin if the sender is
      not a controller; another's only if the sender is listed. */
  lemma RevocationNeedsRank(r: Rep, l: Local, env: Envelope)
    requires env.payload.Revoke?
    requires || env.payload.msgID == "" || env.payload.sender == ""
             || env.signer !in r.members || r.members[env.signer].state != Active
             || (&& env.signer != env.payload.sender
                 && (|| env.payload.sender !in r.members
                     || (r.members[env.signer].role != Controller && r.members[env.signer].role != Admin)
                     || (r.members[env.signer].role == Admin && r.members[env.payload.sender].role == Controller)))
    ensures Refused(r, l, env)
  {
  }

  /** A create never changes a group that is there, and is an error unless its controller signs it. */
  lemma CreateChangesNothing(r: Rep, l: Local, env: Envelope)
    requires env.payload.Create?
    ensures Receive((r, l), env) == (r, l)
    ensures env.signer != env.payload.controller || env.actor != env.payload.controller ==> Rejects(r, l, env)
  {
  }

  /** An old event, and in an archived group any but a dissolution, changes nothing and is an error only for lack of
      authority; an event that leaves a gap is an error unless the group is archived; an unknown one never matters. */
  lemma OutOfTurn(r: Rep, l: Local, env: Envelope)
    requires env.seqNo != r.seqNo + 1 || env.payload.Other? || (r.archived && !env.payload.Dissolve?)
    ensures Receive((r, l), env) == (r, l)
    ensures env.payload.Other? ==> !Rejects(r, l, env)
    ensures Entitled(r, env) && env.seqNo <= r.seqNo ==> !Rejects(r, l, env)
    ensures Entitled(r, env) && r.archived && !env.payload.Dissolve? && !env.payload.Create? ==> !Rejects(r, l, env)
    ensures env.seqNo > r.seqNo + 1 && !r.archived && !env.payload.Other? ==> Rejects(r, l, env)
  {
  }

  /** The signer is entitled to the event: in all other cases one of the lemmas above applies. */
  predicate Entitled(r: Rep, env: Envelope) {
    match env.payload
    case Create(_, controller, _, _, _) => env.signer == env.actor == controller
    case Join(_, _) => env.signer == r.controller
    case Leave(_, _, _) => env.signer == r.controller
    case RetentionUpdate(_) =>
      && env.signer == env.actor && env.signer in r.members && r.members[env.signer].state == Active
      && r.members[env.signer].role in {Controller, Admin}
    case Revoke(id, sender) =>
      && env.signer == env.actor && id != "" && sender != ""
      && env.signer in r.members && r.members[env.signer].state == Active
      && (env.signer == sender || (sender in r.members && Outranks(r.members[env.signer], r.members[sender])))
    case Other => true
    case _ => env.signer == env.actor == r.controller
  }

  /** Whose messages may be revoked by whom. */
  predicate Outranks(a: MemberRow, b: MemberRow) {
    a.role == Controller || (a.role == Admin && b.role != Controller)
  }

  /** The authority check passes exactly the events their signers are entitled to; all others are
      refused. */
  lemma RefusedUnlessEntitled(r: Rep, l: Local, env: Envelope)
    ensures Authorized(r, env) <==> Entitled(r, env)
    ensures !Entitled(r, env) ==> Refused(r, l, env)
  {
  }

  /** An entitled event in turn, on a group that is not archived, is applied exactly when its rows fit
      and a retention is in range; otherwise it is an error and changes nothing, except that an invite has
      stored its key by then. */
  lemma TakenIff(r: Rep, l: Local, env: Envelope)
    requires Entitled(r, env) && !env.payload.Create? && !env.payload.Other? && env.seqNo == r.seqNo + 1
    requires r.archived ==> env.payload.Dissolve?
    ensures var fits := RowsFit(l, env) && (env.payload.RetentionUpdate? ==> 0 <= env.payload.minutes <= 525_600);
            && (fits ==> Receive((r, l), env) == (Effect(r, env), LocalAfter(l, env)) && !Rejects(r, l, env))
            && (!fits ==> Rejects(r, l, env))
            && (!fits ==>
                Receive((r, l), env)
                   == (r, if env.payload.Invite? && (env.payload.wrapped != [] || l.nilKeys)
                          then l.(epochs := l.epochs[env.payload.epoch := env.payload.wrapped]) else l))
  {
  }

  // ----- what changes, field by field -----

  /** Each field of the header is what the event says if it is of the kind that sets it, and stays
      otherwise. */
  lemma HeaderAfter(r: Rep, env: Envelope)
    ensures var r' := Effect(r, env);
            && r'.seqNo == env.seqNo
            && r'.title == (if env.payload.TitleUpdate? then env.payload.title else r.title)
            && r'.controller == (if env.payload.Transfer? then env.payload.toPeer else r.controller)
            && r'.epoch == (if IsRotation(env) then env.payload.newEpoch else r.epoch)
            && r'.retention == (if env.payload.RetentionUpdate? then env.payload.minutes else r.retention)
            && r'.archived == (r.archived || env.payload.Dissolve?)
  {
  }

  /** The member, if any, whose row an event other than a transfer is about. */
  function Named(env: Envelope): Option<Peer> {
    match env.payload
    case Invite(p, _, _, _, _, _, _) => Some(p)
    case Join(p, _) => Some(p)
    case Leave(p, _, _) => Some(p)
    case Remove(p, _, _) => Some(p)
    case _ => None
  }

  /** Only the rows an event names change, and only an invite adds one. A join keeps the role and the
      inviter and records the current epoch; a leave and a removal record the epoch they end; a transfer
      changes two roles. */
  lemma MembersAfter(r: Rep, env: Envelope, x: Peer)
    ensures var r' := Effect(r, env);
            && (x in r'.members <==> x in r.members || (env.payload.Invite? && x == env.payload.invitee))
            && (x in r.members && Named(env) != Some(x)
                && !(env.payload.Transfer? && (x == env.payload.fromPeer || x == env.payload.toPeer)) ==>
                r'.members[x] == r.members[x])
            && (env.payload.Invite? && x == env.payload.invitee ==>
                r'.members[x] == MemberRow(env.payload.role, Invited, env.actor, 0, 0))
            && (x in r.members && env.payload.Join? && x == env.payload.joiner ==>
                r'.members[x] == MemberRow(r.members[x].role, Active, r.members[x].invitedBy, r.epoch, 0))
            && (x in r.members && env.payload.Leave? && x == env.payload.leaver ==>
                r'.members[x] == MemberRow(r.members[x].role, Left, r.members[x].invitedBy,
                                           r.members[x].joinedEpoch, r.epoch))
            && (x in r.members && env.payload.Remove? && x == env.payload.target ==>
                r'.members[x] == MemberRow(r.members[x].role, Removed, r.members[x].invitedBy,
                                           r.members[x].joinedEpoch, r.epoch))
            && (x in r.members && env.payload.Transfer? && x == env.payload.toPeer ==>
                r'.members[x] == r.members[x].(role := Controller))
            && (x in r.members && env.payload.Transfer? && x == env.payload.fromPeer != env.payload.toPeer ==>
                r'.members[x] == r.members[x].(role := Member))
  {
  }

  /** The key a rotation hands this peer is stored as the key of the new epoch, an absent one as empty;
      an invite stores the key it hands on; the event's own row is added, and nothing else but messages
      changes. */
  lemma TablesAfter(l: Local, env: Envelope)
    ensures var l' := LocalAfter(l, env);
            && l'.eventIDs == l.eventIDs + {env.eventID} && l'.eventSeqs == l.eventSeqs + {env.seqNo}
            && l'.self == l.self && l'.group == l.group && l'.nilKeys == l.nilKeys
            && (!IsRotation(env) && !env.payload.Invite? ==> l'.epochs == l.epochs)
            && (IsRotation(env) && l.self in RotationKeys(env) ==>
                l'.epochs == l.epochs[env.payload.newEpoch := RotationKeys(env)[l.self]])
            && (IsRotation(env) && l.self !in RotationKeys(env) ==>
                l'.epochs == l.epochs[env.payload.newEpoch := []])
            && (env.payload.Invite? ==> l'.epochs == l.epochs[env.payload.epoch := env.payload.wrapped])
  {
  }

  /** A revocation takes one message of this group, a dissolution all of them, everything else none. */
  lemma MessagesLeft(l: Local, env: Envelope, id: string)
    ensures var l' := LocalAfter(l, env);
            && (id in l'.messages ==> id in l.messages && l'.messages[id] == l.messages[id])
            && (id in l.messages ==>
                (id !in l'.messages <==>
                  && l.messages[id].group == l.group
                  && (env.payload.Dissolve? || (env.payload.Revoke? && id == env.payload.msgID))))
  {
  }

  /** Every member that a rotation hands the same key, and that takes it, has that key for the new epoch. */
  lemma SameKeyEverywhere(a: (Rep, Local), b: (Rep, Local), env: Envelope, key: Bytes)
    requires IsRotation(env) && forall p :: p in RotationKeys(env) ==> RotationKeys(env)[p] == key
    requires a.1.self in RotationKeys(env) && b.1.self in RotationKeys(env)
    requires Receive(a, env) != a && Receive(b, env) != b
    ensures var e := env.payload.newEpoch;
            && e in Receive(a, env).1.epochs && e in Receive(b, env).1.epochs
            && Receive(a, env).1.epochs[e] == key == Receive(b, env).1.epochs[e]
  {
  }

  // ----- every change has its signature -----

  /** Both the signer and the actor of the event are `p`. */
  predicate By(env: Envelope, p: Peer) {
    env.signer == env.actor == p
  }

  /** Whatever envelope arrives: each field of the group changes only by the kind of event that sets it,
      next in turn and signed by the controller the group has at that moment; the retention also by an
      active admin. */
  lemma ChangesAreSigned(r: Rep, l: Local, env: Envelope)
    ensures var r' := Receive((r, l), env).0;
            && (r' != r ==> r'.seqNo == env.seqNo == r.seqNo + 1)
            && (r'.title != r.title ==> env.payload == TitleUpdate(r'.title) && By(env, r.controller))
            && (r'.controller != r.controller ==>
                env.payload.Transfer? && env.payload.toPeer == r'.controller && By(env, r.controller))
            && (r'.epoch != r.epoch ==>
                IsRotation(env) && env.payload.newEpoch == r'.epoch && env.signer == r.controller)
            && (r'.archived != r.archived ==> r'.archived && env.payload.Dissolve? && By(env, r.controller))
            && (r'.retention != r.retention ==>
                && env.payload == RetentionUpdate(r'.retention) && env.signer in r.members
                && By(env, env.signer) && r.members[env.signer].state == Active
                && r.members[env.signer].role in {Controller, Admin})
            && (r'.members != r.members ==> env.signer == r.controller)
  {
  }

  /** A message goes only by the controller's dissolution, or by a revocation that names its sender and
      that its sender, a controller or, unless the sender is one, an admin signed. */
  lemma MessagesGoSigned(r: Rep, l: Local, env: Envelope, id: string)
    requires id in l.messages && id !in Receive((r, l), env).1.messages
    ensures l.messages[id].group == l.group
    ensures || (env.payload.Dissolve? && By(env, r.controller))
            || (&& env.payload == Revoke(id, l.messages[id].sender) && By(env, env.signer)
                && env.signer in r.members && r.members[env.signer].state == Active
                && (|| env.signer == l.messages[id].sender
                    || (&& l.messages[id].sender in r.members
                        && Outranks(r.members[env.signer], r.members[l.messages[id].sender]))))
  {
  }

  /** A replica handling any envelopes at all, with any changes to its own tables in between. */
  ghost predicate Handles(reps: seq<Rep>, locals: seq<Local>, envs: seq<Envelope>) {
    && |reps| == |envs| + 1 && |locals| == |envs|
    && forall i :: 0 <= i < |envs| ==> HandledAt(reps, locals, envs, i)
  }

  ghost predicate HandledAt(reps: seq<Rep>, locals: seq<Local>, envs: seq<Envelope>, i: nat)
    requires i < |envs| == |locals| < |reps|
  {
    reps[i + 1] == Receive((reps[i], locals[i]), envs[i]).0
  }

  /** One of its steps: whatever changes in the header or becomes active has been signed. */
  lemma StepIsSigned(reps: seq<Rep>, locals: seq<Local>, envs: seq<Envelope>, i: nat, p: Peer)
    requires Handles(reps, locals, envs) && i < |envs|
    ensures var r, env, r' := reps[i], envs[i], reps[i + 1];
            && r.seqNo <= r'.seqNo
            && (r'.controller == r.controller || HandsTo(r, env, r'.controller))
            && (r'.title == r.title || Renames(r, env, r'.title))
            && (r'.epoch == r.epoch || RotatesTo(r, env, r'.epoch))
            && (r'.archived == r.archived || Ends(r, env))
            && (IsActive(r', p) ==> IsActive(r, p) || Admits(r, env, p))
  {
    assert HandledAt(reps, locals, envs, i);
    ChangesAreSigned(reps[i], locals[i], envs[i]);
    MembersAfter(reps[i], envs[i], p);
  }

  /** Over every such run, whoever signs what: the controller is the one of the start, or was made
      controller by a transfer that the controller of the time signed. */
  lemma {:induction false} ControlIsHandedOn(reps: seq<Rep>, locals: seq<Local>, envs: seq<Envelope>, i: nat, j: nat)
    requires Handles(reps, locals, envs) && i <= j <= |envs|
    ensures reps[i].seqNo <= reps[j].seqNo
    ensures reps[j].controller == reps[i].controller
            || exists k :: i <= k < j && HandsTo(reps[k], envs[k], reps[j].controller)
    decreases j
  {
    if i < j {
      ControlIsHandedOn(reps, locals, envs, i, j - 1);
      StepIsSigned(reps, locals, envs, j - 1, "");
    }
  }

  /** The controller of `r` signs a transfer to `p`. */
  predicate HandsTo(r: Rep, env: Envelope, p: Peer) {
    env.payload.Transfer? && env.payload.toPeer == p && By(env, r.controller)
  }

  predicate Renames(r: Rep, env: Envelope, title: string) {
    env.payload == TitleUpdate(title) && By(env, r.controller)
  }

  predicate RotatesTo(r: Rep, env: Envelope, epoch: nat) {
    IsRotation(env) && env.payload.newEpoch == epoch && env.signer == r.controller
  }

  predicate Ends(r: Rep, env: Envelope) {
    env.payload.Dissolve? && By(env, r.controller)
  }

  predicate Admits(r: Rep, env: Envelope, p: Peer) {
    env.payload.Join? && env.payload.joiner == p && env.signer == r.controller
  }

  /** The rest of the header likewise: a title, an epoch and the end of a group have each been signed by
      the controller of the time. */
  lemma {:induction false} HeaderIsSigned(reps: seq<Rep>, locals: seq<Local>, envs: seq<Envelope>, i: nat, j: nat)
    requires Handles(reps, locals, envs) && i <= j <= |envs|
    ensures reps[j].title == reps[i].title || exists k :: i <= k < j && Renames(reps[k], envs[k], reps[j].title)
    ensures reps[j].epoch == reps[i].epoch || exists k :: i <= k < j && RotatesTo(reps[k], envs[k], reps[j].epoch)
    ensures reps[j].archived == reps[i].archived || exists k :: i <= k < j && Ends(reps[k], envs[k])
    decreases j
  {
    if i < j {
      HeaderIsSigned(reps, locals, envs, i, j - 1);
      StepIsSigned(reps, locals, envs, j - 1, "");
    }
  }

  predicate IsActive(r: Rep, p: Peer) {
    p in r.members && r.members[p].state == Active
  }

  /** And nobody becomes an active member but by a join the controller of the time signed. */
  lemma {:induction false} MembersAreAdmitted(
        reps: seq<Rep>, locals: seq<Local>, envs: seq<Envelope>, i: nat, j: nat, p: Peer)
    requires Handles(reps, locals, envs) && i <= j <= |envs| && IsActive(reps[j], p)
    ensures IsActive(reps[i], p) || exists k :: i <= k < j && Admits(reps[k], envs[k], p)
    decreases j
  {
    if i < j {
      StepIsSigned(reps, locals, envs, j - 1, p);
      if IsActive(reps[j - 1], p) {
        MembersAreAdmitted(reps, locals, envs, i, j - 1, p);
      }
    }
  }

  // ----- a group that is not there yet -----

  /** Who is a member right after a create event, and in what role and state. */
  lemma CreatedRoster(p: Payload, x: Peer)
    requires p.Create?
    ensures var r := CreatedFrom(p);
            && r.title == p.title && r.controller == p.controller && r.epoch == p.epoch && r.retention == 0
            && !r.archived && r.seqNo == 1
            && (x in r.members <==> x in p.initialMembers)
            && (x in p.initialMembers && x == p.controller ==>
                r.members[x] == MemberRow(Controller, Active, p.controller, p.epoch, 0))
            && (x in p.initialMembers && x != p.controller ==>
                r.members[x] == MemberRow(Member, Invited, p.controller, 0, 0))
  {
  }

  /** Only a create numbered 1 or an invite, signed by the controller it names, makes a group. */
  lemma NobodyElseFounds(l: Local, env: Envelope, freshID: string)
    requires || (!env.payload.Create? && !env.payload.Invite?)
             || env.signer != env.payload.controller || env.actor != env.signer
             || (env.payload.Create? && env.seqNo != 1) || env.seqNo == 0
    ensures FirstContact(l, env, freshID).None? && (FirstContactFails(l, env, freshID) <==> !env.payload.Other?)
  {
  }

  /** Such an invite makes a group exactly if the stand-in for the create event gets a row and the invite's key can be
      stored. If the invite gets a row too, the group is the invite applied to the state before it, with its key as the
      only epoch; if not, it is that state, and an error. */
  lemma InviteFounds(l: Local, env: Envelope, freshID: string)
    requires env.payload.Invite? && env.signer == env.actor == env.payload.controller && env.seqNo >= 1
    requires l.epochs == map[] && l.eventSeqs == {}
    ensures var makes := freshID !in l.eventIDs && (env.payload.wrapped != [] || l.nilKeys);
            var fits := env.eventID !in l.eventIDs && env.eventID != freshID;
            && (FirstContactFails(l, env, freshID) <==> !makes || !fits)
            && FirstContact(l, env, freshID)
               == if !makes then None
                  else
                    var l1 := l.(epochs := map[env.payload.epoch := env.payload.wrapped]);
                    if fits
                    then Some((Effect(Bootstrap(env), env),
                               l1.(eventIDs := l.eventIDs + {freshID, env.eventID}, eventSeqs := {0, env.seqNo})))
                    else Some((Bootstrap(env), l1.(eventIDs := l.eventIDs + {freshID}, eventSeqs := {0})))
  {
    var l1 := l.(epochs := map[env.payload.epoch := env.payload.wrapped], eventIDs := l.eventIDs + {freshID},
                 eventSeqs := {0});
    assert l1.eventIDs + {env.eventID} == l.eventIDs + {freshID, env.eventID};
    assert {0} + {env.seqNo} == {0, env.seqNo};
    assert LocalAfter(l1, env).epochs == l1.epochs;
  }

  /** A create makes the group it describes exactly if its members are distinct, its ID is not taken and this peer's key
      can be stored; only the last of these failing is an error. */
  lemma CreateFounds(l: Local, env: Envelope, freshID: string)
    requires env.payload.Create? && env.signer == env.actor == env.payload.controller && env.seqNo == 1
    ensures var repeated := !Distinct(env.payload.initialMembers) || env.eventID in l.eventIDs;
            var storable := l.self in env.payload.keys || l.nilKeys;
            && (FirstContactFails(l, env, freshID) <==> !repeated && !storable)
            && FirstContact(l, env, freshID)
               == if repeated || !storable then None
                  else Some((CreatedFrom(env.payload),
                             l.(epochs := map[env.payload.epoch := if l.self in env.payload.keys
                                                                   then env.payload.keys[l.self] else []],
                                eventIDs := l.eventIDs + {env.eventID}, eventSeqs := {1})))
  {
  }

  /** Who is a member in the state an invite describes: the controller and the peers it lists, trimmed,
      the invitee invited and all others active. */
  lemma BootstrapRoster(env: Envelope, x: Peer)
    requires env.payload.Invite? && env.seqNo >= 1
    ensures var p, r := env.payload, Bootstrap(env);
            && r.title == p.title && r.controller == p.controller && r.epoch == p.epoch && r.retention == 0
            && !r.archived && r.seqNo == env.seqNo - 1
            && (x in r.members <==> x in UniqueSet([p.controller] + p.known))
            && (x in r.members ==>
                r.members[x] == MemberRow(if x == p.controller then Controller else Member,
                                          if x == p.invitee then Invited else Active, p.controller, 0, 0))
  {
  }
}
