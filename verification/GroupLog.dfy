/** The controller-sequenced group log as a replicated state machine: what each control event does
    to the replicated part of a group, replay, convergence of replicas under any delivery
    schedule, the invariants of every log the commands can produce, and bootstrapping a replica
    from an invite. */
module GroupLog {
  import opened Basics
  import opened Text

  type Peer = string

  datatype Role = Controller | Admin | Member | Unknown(name: string)
  datatype MemberState = Invited | Active | Left | Removed

  datatype MemberRow = MemberRow(
    role: Role, state: MemberState, invitedBy: Peer, joinedEpoch: nat, leftEpoch: nat)

  /** The part of a group every replica is meant to agree on. Timestamps are not part of it. */
  datatype Rep = Rep(
    title: string, controller: Peer, epoch: nat, retention: int, archived: bool, seqNo: nat,
    members: map<Peer, MemberRow>)

  /** Wrapped epoch keys by recipient. */
  type Keys = map<Peer, Bytes>

  datatype Payload =
    | Create(title: string, controller: Peer, initialMembers: seq<Peer>, epoch: nat, keys: Keys)
    | Invite(invitee: Peer, role: Role, epoch: nat, title: string, controller: Peer, known: seq<Peer>, wrapped: Bytes)
    | Join(joiner: Peer, acceptedEpoch: nat)
    | Leave(leaver: Peer, newEpoch: nat, keys: Keys)
    | Remove(target: Peer, newEpoch: nat, keys: Keys)
    | TitleUpdate(title: string)
    | RetentionUpdate(minutes: int)
    | Revoke(msgID: string, sender: Peer)
    | Dissolve
    | Transfer(fromPeer: Peer, toPeer: Peer, newEpoch: nat, keys: Keys)
    | Other

  datatype Envelope = Envelope(eventID: string, seqNo: nat, actor: Peer, signer: Peer, payload: Payload)

  const MIN_RETENTION: int := 1
  const MAX_RETENTION: int := 60 * 24 * 365

  predicate ValidRetention(minutes: int) {
    minutes == 0 || MIN_RETENTION <= minutes <= MAX_RETENTION
  }

  // ----- what an event does -----

  function SetState(members: map<Peer, MemberRow>, p: Peer, state: MemberState, leftEpoch: nat): map<Peer, MemberRow> {
    if p in members then members[p := members[p].(state := state, leftEpoch := leftEpoch)] else members
  }

  function SetRole(members: map<Peer, MemberRow>, p: Peer, role: Role): map<Peer, MemberRow> {
    if p in members then members[p := members[p].(role := role)] else members
  }

  function Activate(members: map<Peer, MemberRow>, p: Peer, epoch: nat): map<Peer, MemberRow> {
    if p in members then members[p := members[p].(state := Active, joinedEpoch := epoch, leftEpoch := 0)] else members
  }

  /** The replicated state after the event with the next sequence number. */
  function Effect(r: Rep, env: Envelope): Rep {
    var r1 := r.(seqNo := env.seqNo);
    match env.payload
    case Create(_, _, _, _, _) => r1
    case Invite(p, role, _, _, _, _, _) => r1.(members := r.members[p := MemberRow(role, Invited, env.actor, 0, 0)])
    case Join(p, _) => r1.(members := Activate(r.members, p, r.epoch))
    case Leave(p, epoch, _) => r1.(members := SetState(r.members, p, Left, r.epoch), epoch := epoch)
    case Remove(p, epoch, _) => r1.(members := SetState(r.members, p, Removed, r.epoch), epoch := epoch)
    case TitleUpdate(title) => r1.(title := title)
    case RetentionUpdate(minutes) => r1.(retention := minutes)
    case Revoke(_, _) => r1
    case Dissolve => r1.(archived := true)
    case Transfer(a, b, epoch, _) =>
      r1.(members := SetRole(SetRole(r.members, a, Member), b, Controller), controller := b, epoch := epoch)
    case Other => r1
  }

  /** `shouldApplyGroupEvent`: older events are ignored, gaps are an error, only the next one is
      applied. */
  function ShouldApply(last: nat, incoming: nat): Result<bool> {
    if incoming <= last then Ok(false)
    else if incoming != last + 1 then Err
    else Ok(true)
  }

  // ----- convergence -----

  /** One delivery: the replica ignores or rejects the event, or it is the next one and is
      applied. What else happens on the replica (messages, keys, retries) decides only which. */
  ghost predicate Delivered(r: Rep, env: Envelope, r': Rep) {
    r' == r || (env.seqNo == r.seqNo + 1 && r' == Effect(r, env))
  }

  /** The log up to and including event `n`, replayed on `base`. */
  function Replay(base: Rep, log: nat -> Envelope, n: nat): Rep
    requires base.seqNo <= n
    decreases n
  {
    if n == base.seqNo then base else Effect(Replay(base, log, n - 1), log(n))
  }

  /** At most one event per sequence number. */
  ghost predicate WellFormed(log: nat -> Envelope) {
    forall n :: log(n).seqNo == n
  }

  /** `states` is what a replica goes through as the events numbered `schedule` are delivered to
      it: dropped events are missing from the schedule, duplicates and any order are allowed. */
  ghost predicate Follows(base: Rep, log: nat -> Envelope, schedule: seq<nat>, states: seq<Rep>) {
    && |states| == |schedule| + 1
    && states[0] == base
    && forall i :: 0 <= i < |schedule| ==> Delivered(states[i], log(schedule[i]), states[i + 1])
  }

  /** Whatever is dropped, duplicated or reordered, a replica is always at the replay of the log
      from its base up to its own sequence number, and never goes back. */
  lemma {:induction false} Convergence(base: Rep, log: nat -> Envelope, schedule: seq<nat>, states: seq<Rep>, i: nat)
    requires WellFormed(log) && Follows(base, log, schedule, states) && i <= |schedule|
    ensures base.seqNo <= states[i].seqNo
    ensures states[i] == Replay(base, log, states[i].seqNo)
    ensures i > 0 ==> states[i - 1].seqNo <= states[i].seqNo
  {
    if i > 0 {
      Convergence(base, log, schedule, states, i - 1);
      assert Delivered(states[i - 1], log(schedule[i - 1]), states[i]);
    }
  }

  /** Two replicas of the same base that are at the same sequence number agree on everything. */
  lemma ReplicasAgree(
      base: Rep, log: nat -> Envelope,
      schedule1: seq<nat>, states1: seq<Rep>, i: nat,
      schedule2: seq<nat>, states2: seq<Rep>, j: nat)
    requires WellFormed(log)
    requires Follows(base, log, schedule1, states1) && i <= |schedule1|
    requires Follows(base, log, schedule2, states2) && j <= |schedule2|
    requires states1[i].seqNo == states2[j].seqNo
    ensures states1[i] == states2[j]
  {
    Convergence(base, log, schedule1, states1, i);
    Convergence(base, log, schedule2, states2, j);
  }

  // ----- who may sign what -----

  /** `verifyGroupControlAuthority` for an existing group. */
  predicate Authorized(r: Rep, env: Envelope) {
    var p := env.payload;
    if p.Create? then env.signer == p.controller && env.actor == p.controller
    else if p.Other? then true
    else
      && (r.controller == env.signer || p.RetentionUpdate? || p.Revoke?)
      && (p.RetentionUpdate? ==>
            && env.signer in r.members && r.members[env.signer].state == Active
            && r.members[env.signer].role in {Controller, Admin})
      && (p.Revoke? ==> MayRevoke(r, env.signer, env.actor, p.msgID, p.sender))
      && ((p.Invite? || p.Remove? || p.TitleUpdate? || p.RetentionUpdate? || p.Dissolve? || p.Transfer?) ==>
            env.actor == env.signer)
  }

  predicate MayRevoke(r: Rep, signer: Peer, actor: Peer, msgID: string, sender: Peer) {
    && actor == signer && msgID != "" && sender != ""
    && signer in r.members && r.members[signer].state == Active
    && (signer == sender
        || (&& sender in r.members
            && (r.members[signer].role == Controller
                || (r.members[signer].role == Admin && r.members[sender].role != Controller))))
  }

  /** A stored group message: rows of all groups share one table keyed by message ID. */
  datatype MessageRow = MessageRow(group: string, sender: Peer)

  /** What only this replica has that can make it refuse an event: its own peer ID, its epoch rows
      with their keys, the event rows it stored (IDs of all groups, numbers of this group) and the
      messages it holds. An epoch row needs a key, so an event that hands this peer none is refused
      unless the database driver stores an absent key as an empty one (`nilKeys`). */
  datatype Local = Local(
    self: Peer, group: string, nilKeys: bool, epochs: map<nat, Bytes>,
    eventIDs: set<string>, eventSeqs: set<nat>, messages: map<string, MessageRow>)

  predicate KeyStorable(l: Local, keys: Keys) {
    l.self in keys || l.nilKeys
  }

  function KeyFor(l: Local, keys: Keys): Bytes {
    if l.self in keys then keys[l.self] else []
  }

  /** An empty key is left out of an invite and arrives as an absent one. */
  predicate InviteKeyStorable(l: Local, env: Envelope) {
    env.payload.Invite? ==> env.payload.wrapped != [] || l.nilKeys
  }

  /** The event row fits: neither its ID nor its number is taken. */
  predicate EventRowFits(l: Local, env: Envelope) {
    env.eventID !in l.eventIDs && env.seqNo !in l.eventSeqs
  }

  /** Exactly when a replica that has the group applies an event. */
  predicate Accepts(r: Rep, l: Local, env: Envelope) {
    && Authorized(r, env)
    && !env.payload.Create? && !env.payload.Other?
    && (r.archived ==> env.payload.Dissolve?)
    && ShouldApply(r.seqNo, env.seqNo) == Ok(true)
    && EventRowFits(l, env) && InviteKeyStorable(l, env)
    && (match env.payload
        case Leave(_, epoch, keys) => epoch !in l.epochs && KeyStorable(l, keys)
        case Remove(_, epoch, keys) => epoch !in l.epochs && KeyStorable(l, keys)
        case Transfer(_, _, epoch, keys) => epoch !in l.epochs && KeyStorable(l, keys)
        case RetentionUpdate(minutes) => ValidRetention(minutes)
        case Revoke(id, sender) => id in l.messages ==> l.messages[id].sender == sender
        case _ => true)
  }

  // ----- logs the commands can produce -----

  function ActivePeers(r: Rep): set<Peer> {
    set p | p in r.members && r.members[p].state == Active
  }

  function SetOf(s: seq<Peer>): set<Peer> { set p | p in s }

  predicate IsRotation(env: Envelope) {
    env.payload.Leave? || env.payload.Remove? || env.payload.Transfer?
  }

  function RotationKeys(env: Envelope): Keys
    requires IsRotation(env)
  {
    env.payload.keys
  }

  /** `env` is the event a command issued in state `r` broadcasts. The emitter stores its own event
      first, so a rotation that hands the emitter no key is issued only where an absent key can be
      stored. */
  predicate Emits(r: Rep, nilKeys: bool, env: Envelope) {
    && !r.archived && env.seqNo == r.seqNo + 1
    && (IsRotation(env) ==> env.signer in RotationKeys(env) || nilKeys)
    && match env.payload
       case Create(_, _, _, _, _) => false
       case Other => false
       case Invite(p, role, epoch, title, controller, known, _) =>
         && env.signer == env.actor == r.controller && Clean(p) && p != r.controller
         && (p in r.members ==> r.members[p].state in {Left, Removed})
         && role in {Admin, Member}
         && epoch == r.epoch && title == r.title && controller == r.controller
         && SetOf(known) == ActivePeers(r) + {p}
       case Join(p, _) =>
         env.signer == r.controller && p in r.members && r.members[p].state == Invited
       case Leave(p, epoch, keys) =>
         && env.signer == r.controller && p in r.members && r.members[p].state == Active
         && epoch == r.epoch + 1 && keys.Keys == ActivePeers(r) - {p}
       case Remove(p, epoch, keys) =>
         && env.signer == env.actor == r.controller && p != r.controller
         && p in r.members && r.members[p].state in {Active, Invited}
         && epoch == r.epoch + 1 && keys.Keys == ActivePeers(r) - {p}
       case TitleUpdate(title) => env.signer == env.actor == r.controller
       case RetentionUpdate(minutes) =>
         && env.signer == env.actor && env.signer in r.members
         && r.members[env.signer].state == Active && r.members[env.signer].role in {Controller, Admin}
         && ValidRetention(minutes)
       case Revoke(id, sender) => MayRevoke(r, env.signer, env.actor, id, sender)
       case Dissolve => env.signer == env.actor == r.controller
       case Transfer(a, b, epoch, keys) =>
         && env.signer == env.actor == a == r.controller && b != r.controller
         && b in r.members && r.members[b].state == Active
         && epoch == r.epoch + 1 && keys.Keys == ActivePeers(r)
  }

  /** What the revoke command lets a member emit. Beyond `Emits` this is a message with an empty ID, or
      one whose sender the controller has no row for; other replicas refuse those. */
  predicate RevokesLocally(r: Rep, env: Envelope) {
    && !r.archived && env.seqNo == r.seqNo + 1 && env.payload.Revoke? && env.actor == env.signer
    && env.signer in r.members && r.members[env.signer].state == Active
    && (|| env.payload.sender == env.signer || r.members[env.signer].role == Controller
        || (&& r.members[env.signer].role == Admin && env.payload.sender in r.members
            && r.members[env.payload.sender].role != Controller))
  }

  /** Exactly one member has role controller, it is the group's controller, and it is active. */
  predicate OneController(r: Rep) {
    && r.controller in r.members
    && r.members[r.controller].state == Active
    && (forall p :: p in r.members ==> (r.members[p].role == Controller <==> p == r.controller))
  }

  predicate CleanMembers(r: Rep) {
    forall p :: p in r.members ==> Clean(p)
  }

  /** An emitted leave that names the current controller: the one request handler that does not
      look at the leaver's role. */
  predicate LeavesController(r: Rep, env: Envelope) {
    env.payload.Leave? && env.payload.leaver == r.controller
  }

  /** An emitted event keeps the controller invariant exactly when it is not a leave naming the
      controller; and such a leave is emitted only where an absent key can be stored, since it hands
      its emitter none. */
  lemma EmitsKeepsOneController(r: Rep, nilKeys: bool, env: Envelope)
    requires OneController(r) && CleanMembers(r) && Emits(r, nilKeys, env)
    ensures CleanMembers(Effect(r, env))
    ensures OneController(Effect(r, env)) <==> !LeavesController(r, env)
    ensures LeavesController(r, env) ==> nilKeys
  {
  }

  /** Every rotation hands its new key to exactly the members that are active right after it. */
  lemma RotationCoversActive(r: Rep, nilKeys: bool, env: Envelope)
    requires Emits(r, nilKeys, env) && IsRotation(env)
    ensures RotationKeys(env).Keys == ActivePeers(Effect(r, env))
    ensures Effect(r, env).epoch == r.epoch + 1
  {
  }

  /** The creator's state right after `CreateGroup`. */
  function Created(title: string, creator: Peer): Rep {
    Rep(title, creator, 1, 0, false, 1, map[creator := MemberRow(Controller, Active, "", 1, 0)])
  }

  /** The epoch rows a replica present since creation holds. */
  function RowsAfter(rows: set<nat>, env: Envelope): set<nat> {
    match env.payload
    case Leave(_, epoch, _) => rows + {epoch}
    case Remove(_, epoch, _) => rows + {epoch}
    case Transfer(_, _, epoch, _) => rows + {epoch}
    case Invite(_, _, epoch, _, _, _, _) => rows + {epoch}
    case _ => rows
  }

  function Rows(log: nat -> Envelope, n: nat): set<nat> {
    if n <= 1 then {1} else RowsAfter(Rows(log, n - 1), log(n))
  }

  function Rotations(log: nat -> Envelope, n: nat): nat {
    if n <= 1 then 0 else Rotations(log, n - 1) + if IsRotation(log(n)) then 1 else 0
  }

  /** A linear log of `n` events: event 1 created the group and each later one was emitted by a
      command on the state its predecessors produced. */
  ghost predicate LinearLog(title: string, creator: Peer, nilKeys: bool, log: nat -> Envelope, n: nat) {
    && WellFormed(log) && n >= 1 && Clean(creator)
    && forall i :: 1 < i <= n ==> EmittedAt(Created(title, creator), nilKeys, log, i)
  }

  /** Event `i` was emitted on the state its predecessors produced. Where absent keys can be stored,
      it is not a leave naming the controller; elsewhere there are none. */
  ghost predicate EmittedAt(base: Rep, nilKeys: bool, log: nat -> Envelope, i: nat)
    requires base.seqNo < i
  {
    && Emits(Replay(base, log, i - 1), nilKeys, log(i))
    && (nilKeys ==> !LeavesController(Replay(base, log, i - 1), log(i)))
  }

  /** One event of such a log: the controller invariant stays, and a rotation adds the next epoch with
      its row. */
  lemma LogStep(r: Rep, nilKeys: bool, rows: set<nat>, env: Envelope)
    requires OneController(r) && CleanMembers(r) && r.epoch >= 1 && rows == EpochsUpTo(r.epoch)
    requires Emits(r, nilKeys, env) && (nilKeys ==> !LeavesController(r, env))
    ensures OneController(Effect(r, env)) && CleanMembers(Effect(r, env))
    ensures Effect(r, env).epoch == if IsRotation(env) then r.epoch + 1 else r.epoch
    ensures RowsAfter(rows, env) == EpochsUpTo(Effect(r, env).epoch)
  {
    EmitsKeepsOneController(r, nilKeys, env);
  }

  /** Along every such log: one active controller, one epoch per rotation, an epoch row for each
      epoch so far and no other, and keys for exactly the active members at every rotation. */
  lemma {:induction false} LogInvariant(title: string, creator: Peer, nilKeys: bool, log: nat -> Envelope, n: nat)
    requires LinearLog(title, creator, nilKeys, log, n)
    ensures var r := Replay(Created(title, creator), log, n);
            && r.seqNo == n
            && OneController(r) && CleanMembers(r)
            && r.epoch == 1 + Rotations(log, n)
            && Rows(log, n) == EpochsUpTo(r.epoch)
            && (n > 1 && IsRotation(log(n)) ==> RotationKeys(log(n)).Keys == ActivePeers(r))
  {
    if n > 1 {
      LogInvariant(title, creator, nilKeys, log, n - 1);
      assert EmittedAt(Created(title, creator), nilKeys, log, n);
      if IsRotation(log(n)) {
        RotationCoversActive(Replay(Created(title, creator), log, n - 1), nilKeys, log(n));
      }
      LogStep(Replay(Created(title, creator), log, n - 1), nilKeys, Rows(log, n - 1), log(n));
    }
  }

  /** `{1, ..., n}`. */
  function EpochsUpTo(n: nat): (s: set<nat>)
    ensures forall e :: e in s <==> 1 <= e <= n
  {
    if n == 0 then {} else EpochsUpTo(n - 1) + {n}
  }

  /** The message a revocation names is from the sender it names, if it is here at all. */
  predicate SenderMatches(l: Local, env: Envelope) {
    env.payload.Revoke? && env.payload.msgID in l.messages ==>
        l.messages[env.payload.msgID].sender == env.payload.sender
  }

  /** What the authority check asks of the member table: retention updates and revocations are
      signed by others than the controller. */
  predicate Vouched(r: Rep, env: Envelope) {
    && (env.payload.RetentionUpdate? ==>
          && env.signer in r.members && r.members[env.signer].state == Active
          && r.members[env.signer].role in {Controller, Admin})
    && (env.payload.Revoke? ==> MayRevoke(r, env.signer, env.actor, env.payload.msgID, env.payload.sender))
  }

  /** The rows the event needs can be stored. */
  predicate RowsFit(l: Local, env: Envelope) {
    && EventRowFits(l, env) && SenderMatches(l, env) && InviteKeyStorable(l, env)
    && (IsRotation(env) ==> env.payload.newEpoch !in l.epochs && KeyStorable(l, RotationKeys(env)))
  }

  /** What a command emits in state `r`, a replica that agrees with `r` on the header, whatever its
      member table, accepts exactly when that table vouches for the signer and the rows fit; if it
      does not vouch, the event is an error and the replica stays where it is. */
  lemma FollowerAcceptsIff(r: Rep, nilKeys: bool, env: Envelope, a: Rep, l: Local)
    requires Emits(r, nilKeys, env) && SameHeader(a, r)
    ensures Accepts(a, l, env) <==> Vouched(a, env) && RowsFit(l, env)
    ensures Accepts(a, l, env) ==> !Rejects(a, l, env)
    ensures !Vouched(a, env) ==> Rejects(a, l, env) && Receive((a, l), env) == (a, l)
  {
  }

  /** A replica in the emitter's own state always vouches. */
  lemma EmittedIsAccepted(r: Rep, nilKeys: bool, env: Envelope, l: Local)
    requires Emits(r, nilKeys, env)
    ensures Vouched(r, env) && (Accepts(r, l, env) <==> RowsFit(l, env))
  {
  }

  /** The leave-request handler does not check the leaver's role. A plain member may sign a leave
      request; if control is transferred to it before the request arrives, and absent keys can be
      stored, it removes itself: its replica accepts its own event, and the group is left with a
      controller that is not active. */
  lemma ControllerCanLeave(r: Rep, heir: Peer, transfer: Envelope, leave: Envelope, l: Local)
    requires OneController(r) && CleanMembers(r) && Emits(r, true, transfer)
    requires transfer.payload.Transfer? && transfer.payload.toPeer == heir
    requires l.self == heir && l.nilKeys && RowsFit(l, leave)
    requires leave.seqNo == r.seqNo + 2 && leave.signer == heir && leave.actor == heir
    requires leave.payload.Leave? && leave.payload.leaver == heir && leave.payload.newEpoch == r.epoch + 2
    requires leave.payload.keys.Keys == ActivePeers(Effect(r, transfer)) - {heir}
    ensures r.members[heir].state == Active && r.members[heir].role != Controller && r.controller != heir
    ensures var r1 := Effect(r, transfer);
            && OneController(r1) && Emits(r1, true, leave) && Accepts(r1, l, leave)
            && LeavesController(r1, leave) && !OneController(Effect(r1, leave))
  {
    EmitsKeepsOneController(r, true, transfer);
  }

  // ----- bootstrapping from an invite -----

  function BootstrapMembers(peers: set<Peer>, controller: Peer, invitee: Peer): map<Peer, MemberRow> {
    map p | p in peers ::
      MemberRow(if p == controller then Controller else Member,
                if p == invitee then Invited else Active, controller, 0, 0)
  }

  /** The trimmed, non-empty, distinct peers of a list. */
  function UniqueSet(peers: seq<Peer>): set<Peer> {
    set p | p in peers && TrimSpace(p) != "" :: TrimSpace(p)
  }

  /** The state a peer without the group builds from an invite, before applying it. */
  function Bootstrap(env: Envelope): Rep
    requires env.payload.Invite? && env.seqNo >= 1
  {
    var p := env.payload;
    Rep(p.title, p.controller, p.epoch, 0, false, env.seqNo - 1,
        BootstrapMembers(UniqueSet([p.controller] + p.known), p.controller, p.invitee))
  }

  lemma UniqueOfClean(peers: seq<Peer>)
    requires forall p :: p in peers ==> Clean(p)
    ensures UniqueSet(peers) == SetOf(peers)
  {
  }

  /** A replica bootstrapped from an invite has the inviter's title, controller, epoch, sequence
      number and active members at that point, and keeps agreeing on all but the members forever. */
  lemma BootstrapMatchesInviter(r: Rep, nilKeys: bool, env: Envelope)
    requires OneController(r) && CleanMembers(r) && Emits(r, nilKeys, env) && env.payload.Invite?
    ensures var b, s := Effect(Bootstrap(env), env), Effect(r, env);
            && b.title == s.title && b.controller == s.controller && b.epoch == s.epoch
            && b.archived == s.archived && b.seqNo == s.seqNo
            && ActivePeers(b) == ActivePeers(s)
            && b.members[env.payload.invitee] == s.members[env.payload.invitee]
  {
    var p := env.payload;
    var b, s := Effect(Bootstrap(env), env), Effect(r, env);
    BootstrapPeers(r, nilKeys, env);
    assert ActivePeers(s) == ActivePeers(r);
    assert ActivePeers(b) == ActivePeers(r) by {
      forall x ensures x in ActivePeers(b) <==> x in ActivePeers(r) {
        assert x in b.members <==> x in ActivePeers(r) + {p.invitee};
      }
    }
  }

  lemma BootstrapPeers(r: Rep, nilKeys: bool, env: Envelope)
    requires OneController(r) && CleanMembers(r) && Emits(r, nilKeys, env) && env.payload.Invite?
    ensures UniqueSet([env.payload.controller] + env.payload.known) == ActivePeers(r) + {env.payload.invitee}
  {
    var p := env.payload;
    var listed := [p.controller] + p.known;
    assert forall x :: x in p.known <==> x in SetOf(p.known);
    assert forall x :: x in listed <==> x in ActivePeers(r) + {p.invitee};
    UniqueOfClean(listed);
    assert SetOf(listed) == ActivePeers(r) + {p.invitee};
  }

  /** Roles and states of all members, and the retention setting. */
  predicate SameRoster(a: Rep, b: Rep) {
    && a.retention == b.retention
    && a.members.Keys == b.members.Keys
    && forall p :: p in a.members ==>
        p in b.members && a.members[p].role == b.members[p].role && a.members[p].state == b.members[p].state
  }

  /** No retention set, no other member that is invited, has left or was removed, and no admin. */
  predicate Plain(r: Rep, invitee: Peer) {
    && r.retention == 0
    && (forall p :: p in r.members && p != invitee ==> r.members[p].state == Active)
    && (forall p :: p in r.members && p != invitee && p != r.controller ==> r.members[p].role == Member)
  }

  /** Beyond that the invite carries nothing: roster and retention also match exactly when the inviter
      had nothing else to tell. */
  lemma BootstrapRosterIff(r: Rep, nilKeys: bool, env: Envelope)
    requires OneController(r) && CleanMembers(r) && Emits(r, nilKeys, env) && env.payload.Invite?
    ensures SameRoster(Effect(Bootstrap(env), env), Effect(r, env)) <==> Plain(r, env.payload.invitee)
  {
    BootstrapKeys(r, nilKeys, env);
    if SameRoster(Effect(Bootstrap(env), env), Effect(r, env)) {
      RosterIsPlain(r, nilKeys, env);
    }
    if Plain(r, env.payload.invitee) {
      PlainRoster(r, nilKeys, env);
    }
  }

  lemma BootstrapKeys(r: Rep, nilKeys: bool, env: Envelope)
    requires OneController(r) && CleanMembers(r) && Emits(r, nilKeys, env) && env.payload.Invite?
    ensures Effect(Bootstrap(env), env).members.Keys == ActivePeers(r) + {env.payload.invitee}
    ensures Effect(r, env).members.Keys == r.members.Keys + {env.payload.invitee}
  {
    BootstrapPeers(r, nilKeys, env);
  }

  lemma RosterIsPlain(r: Rep, nilKeys: bool, env: Envelope)
    requires OneController(r) && CleanMembers(r) && Emits(r, nilKeys, env) && env.payload.Invite?
    requires SameRoster(Effect(Bootstrap(env), env), Effect(r, env))
    ensures Plain(r, env.payload.invitee)
  {
    var b, s := Effect(Bootstrap(env), env), Effect(r, env);
    forall x | x in r.members && x != env.payload.invitee
      ensures r.members[x].state == Active && (x != r.controller ==> r.members[x].role == Member)
    {
      assert x in s.members.Keys && x in b.members.Keys;
      BootstrapRow(r, nilKeys, env, x);
    }
  }

  lemma PlainRoster(r: Rep, nilKeys: bool, env: Envelope)
    requires OneController(r) && CleanMembers(r) && Emits(r, nilKeys, env) && env.payload.Invite?
    requires Plain(r, env.payload.invitee)
    ensures SameRoster(Effect(Bootstrap(env), env), Effect(r, env))
  {
    var b, s := Effect(Bootstrap(env), env), Effect(r, env);
    BootstrapKeys(r, nilKeys, env);
    assert ActivePeers(r) + {env.payload.invitee} == r.members.Keys + {env.payload.invitee};
    forall x | x in b.members
      ensures b.members[x].role == s.members[x].role && b.members[x].state == s.members[x].state
    {
      if x != env.payload.invitee {
        BootstrapRow(r, nilKeys, env, x);
      }
    }
  }

  /** What the bootstrapped replica and the inviter record about a member other than the invitee. */
  lemma BootstrapRow(r: Rep, nilKeys: bool, env: Envelope, x: Peer)
    requires OneController(r) && CleanMembers(r) && Emits(r, nilKeys, env) && env.payload.Invite?
    requires x != env.payload.invitee && x in Effect(Bootstrap(env), env).members
    ensures x in r.members && Effect(r, env).members[x] == r.members[x]
    ensures var row := Effect(Bootstrap(env), env).members[x];
            row.state == Active && row.role == if x == r.controller then Controller else Member
  {
    BootstrapPeers(r, nilKeys, env);
  }

  /** The invite does not say who is an admin. So of the retention updates the group may see next, a
      bootstrapped replica accepts exactly the controller's; an admin's is an error to it, and it
      stays behind. */
  lemma BootstrapVouchesIff(r: Rep, nilKeys: bool, env: Envelope, update: Envelope, l: Local)
    requires OneController(r) && CleanMembers(r) && Emits(r, nilKeys, env) && env.payload.Invite?
    requires Emits(Effect(r, env), nilKeys, update) && update.payload.RetentionUpdate?
    ensures var b := Effect(Bootstrap(env), env);
            && (Vouched(b, update) <==> update.signer == r.controller)
            && (update.signer != r.controller ==> Receive((b, l), update) == (b, l))
  {
    BootstrapPeers(r, nilKeys, env);
  }

  /** Title, controller, epoch, archive state and position. */
  predicate SameHeader(a: Rep, b: Rep) {
    a.title == b.title && a.controller == b.controller && a.epoch == b.epoch && a.archived == b.archived
        && a.seqNo == b.seqNo
  }

  lemma HeaderStep(a: Rep, b: Rep, env: Envelope)
    requires SameHeader(a, b)
    ensures SameHeader(Effect(a, env), Effect(b, env))
  {
  }

  /** Replicas that agree on the header keep agreeing on it through any further events, whatever
      their member tables: a bootstrapped replica follows every later epoch and transfer. */
  lemma {:induction false} HeaderFollows(a: Rep, b: Rep, log: nat -> Envelope, n: nat)
    requires SameHeader(a, b) && a.seqNo <= n
    ensures SameHeader(Replay(a, log, n), Replay(b, log, n))
    decreases n
  {
    if n > a.seqNo {
      HeaderFollows(a, b, log, n - 1);
      HeaderStep(Replay(a, log, n - 1), Replay(b, log, n - 1), log(n));
    }
  }

  // ----- replicas made from the create event -----

  predicate Distinct(s: seq<Peer>) {
    forall i, j :: 0 <= i < j < |s| ==> s[i] != s[j]
  }

  function CreatedRow(p: Payload, peer: Peer): MemberRow
    requires p.Create?
  {
    if peer == p.controller then MemberRow(Controller, Active, p.controller, p.epoch, 0)
    else MemberRow(Member, Invited, p.controller, 0, 0)
  }

  /** The state a peer without the group builds from a create event. */
  function CreatedFrom(p: Payload): Rep
    requires p.Create?
  {
    Rep(p.title, p.controller, p.epoch, 0, false, 1, map q | q in p.initialMembers :: CreatedRow(p, q))
  }

  function NoInviters(members: map<Peer, MemberRow>): map<Peer, MemberRow> {
    map p | p in members :: members[p].(invitedBy := "")
  }

  function WithoutInviters(r: Rep): Rep {
    r.(members := NoInviters(r.members))
  }

  /** What a replica builds from the creator's event is the creator's own state, except that the
      creator has no inviter on its own replica and itself as inviter elsewhere. */
  lemma CreatedAgrees(title: string, creator: Peer, keys: Keys)
    ensures var b := CreatedFrom(Create(title, creator, [creator], 1, keys));
            && WithoutInviters(b) == WithoutInviters(Created(title, creator))
            && b.members[creator].invitedBy == creator
  {
  }

  lemma NoInvitersSteps(
        members: map<Peer, MemberRow>, p: Peer, state: MemberState, role: Role, epoch: nat, row: MemberRow)
    ensures NoInviters(SetState(members, p, state, epoch)) == SetState(NoInviters(members), p, state, epoch)
    ensures NoInviters(SetRole(members, p, role)) == SetRole(NoInviters(members), p, role)
    ensures NoInviters(Activate(members, p, epoch)) == Activate(NoInviters(members), p, epoch)
    ensures NoInviters(members[p := row]) == NoInviters(NoInviters(members)[p := row])
  {
  }

  /** No event reads who invited a member. */
  lemma EffectIgnoresInviters(r: Rep, env: Envelope)
    ensures WithoutInviters(Effect(r, env)) == WithoutInviters(Effect(WithoutInviters(r), env))
  {
    var some := MemberRow(Member, Invited, env.actor, 0, 0);
    assert NoInviters(NoInviters(r.members)) == NoInviters(r.members);
    match env.payload
    case Invite(p, role, _, _, _, _, _) =>
      NoInvitersSteps(r.members, p, Left, role, 0, MemberRow(role, Invited, env.actor, 0, 0));
    case Join(p, _) => Idempotent(Activate(NoInviters(r.members), p, r.epoch), Activate(r.members, p, r.epoch)) by {
      NoInvitersSteps(r.members, p, Left, Member, r.epoch, some);
    }
    case Leave(p, _, _) =>
      NoInvitersSteps(r.members, p, Left, Member, r.epoch, some);
      Idempotent(SetState(NoInviters(r.members), p, Left, r.epoch), SetState(r.members, p, Left, r.epoch));
    case Remove(p, _, _) =>
      NoInvitersSteps(r.members, p, Removed, Member, r.epoch, some);
      Idempotent(SetState(NoInviters(r.members), p, Removed, r.epoch), SetState(r.members, p, Removed, r.epoch));
    case Transfer(a, b, _, _) =>
      Idempotent(SetRole(SetRole(NoInviters(r.members), a, Member), b, Controller),
          SetRole(SetRole(r.members, a, Member), b, Controller)) by {
        NoInvitersSteps(r.members, a, Left, Member, 0, some);
        NoInvitersSteps(SetRole(r.members, a, Member), b, Left, Controller, 0, some);
      }
    case _ =>
  }

  lemma Idempotent(stripped: map<Peer, MemberRow>, members: map<Peer, MemberRow>)
    requires stripped == NoInviters(members)
    ensures NoInviters(stripped) == NoInviters(members)
  {
  }

  /** So a difference in inviters never spreads. */
  lemma InvitersNeverMatter(a: Rep, b: Rep, env: Envelope)
    requires WithoutInviters(a) == WithoutInviters(b)
    ensures WithoutInviters(Effect(a, env)) == WithoutInviters(Effect(b, env))
  {
    EffectIgnoresInviters(a, env);
    EffectIgnoresInviters(b, env);
  }

  /** The creator and any replica of its create event agree at every later event, inviters aside. */
  lemma {:induction false} CreatorAndReplicasAgree(
        title: string, creator: Peer, keys: Keys, log: nat -> Envelope, n: nat)
    requires 1 <= n
    ensures WithoutInviters(Replay(CreatedFrom(Create(title, creator, [creator], 1, keys)), log, n))
            == WithoutInviters(Replay(Created(title, creator), log, n))
  {
    var b := CreatedFrom(Create(title, creator, [creator], 1, keys));
    if n == 1 {
      CreatedAgrees(title, creator, keys);
    } else {
      CreatorAndReplicasAgree(title, creator, keys, log, n - 1);
      InvitersNeverMatter(Replay(b, log, n - 1), Replay(Created(title, creator), log, n - 1), log(n));
    }
  }

  /** What a replica without the group does with an event: a create or an invite that checks out
      makes the group, anything else is refused. The row of the create event an invite stands for
      gets the ID `freshID` and number 0. */
  function FirstContact(l: Local, env: Envelope, freshID: string): Option<(Rep, Local)> {
    var p := env.payload;
    if p.Create? then
      if && env.signer == p.controller && env.actor == p.controller && env.seqNo == 1
         && Distinct(p.initialMembers) && env.eventID !in l.eventIDs && KeyStorable(l, p.keys)
      then Some((CreatedFrom(p), l.(epochs := map[p.epoch := KeyFor(l, p.keys)],
                                    eventIDs := l.eventIDs + {env.eventID}, eventSeqs := {1})))
      else None
    else if && p.Invite? && env.signer == p.controller && env.actor == env.signer && env.seqNo >= 1
            && freshID !in l.eventIDs && InviteKeyStorable(l, env)
    then
      Some(Receive((Bootstrap(env), l.(epochs := map[p.epoch := p.wrapped],
                                       eventIDs := l.eventIDs + {freshID}, eventSeqs := {0})), env))
    else None
  }

  /** When that is an error. A row that is there already is not: the insertion that fails on it is
      taken for a repeated create. */
  predicate FirstContactFails(l: Local, env: Envelope, freshID: string) {
    match env.payload
    case Create(_, controller, initialMembers, _, keys) =>
      || env.signer != controller || env.actor != controller || env.seqNo != 1
      || (Distinct(initialMembers) && env.eventID !in l.eventIDs && !KeyStorable(l, keys))
    case Invite(_, _, _, _, controller, _, _) =>
      || env.signer != controller || env.actor != env.signer || env.seqNo == 0
      || freshID in l.eventIDs || env.eventID in l.eventIDs + {freshID} || !InviteKeyStorable(l, env)
    case Other => false
    case _ => true
  }

  // ----- catching up -----

  function EpochsAfter(l: Local, env: Envelope): map<nat, Bytes> {
    match env.payload
    case Leave(_, epoch, keys) => l.epochs[epoch := KeyFor(l, keys)]
    case Remove(_, epoch, keys) => l.epochs[epoch := KeyFor(l, keys)]
    case Transfer(_, _, epoch, keys) => l.epochs[epoch := KeyFor(l, keys)]
    case Invite(_, _, epoch, _, _, _, wrapped) => l.epochs[epoch := wrapped]
    case _ => l.epochs
  }

  function MessagesAfter(l: Local, env: Envelope): map<string, MessageRow> {
    match env.payload
    case Revoke(id, _) => map m | m in l.messages && !(m == id && l.messages[m].group == l.group) :: l.messages[m]
    case Dissolve => map m | m in l.messages && l.messages[m].group != l.group :: l.messages[m]
    case _ => l.messages
  }

  /** What one accepted event does to the replica's own tables. */
  function LocalAfter(l: Local, env: Envelope): Local {
    l.(epochs := EpochsAfter(l, env), eventIDs := l.eventIDs + {env.eventID},
       eventSeqs := l.eventSeqs + {env.seqNo}, messages := MessagesAfter(l, env))
  }

  /** What a replica with the group does with one event. */
  function Receive(at: (Rep, Local), env: Envelope): (Rep, Local) {
    if Accepts(at.0, at.1, env) then (Effect(at.0, env), LocalAfter(at.1, env))
    else if StrayInvite(at.0, at.1, env) then (at.0, at.1.(epochs := EpochsAfter(at.1, env)))
    else at
  }

  /** An invite writes its epoch key before the transaction that stores its event, so the key stays
      when the event row does not fit. */
  predicate StrayInvite(r: Rep, l: Local, env: Envelope) {
    && env.payload.Invite? && Authorized(r, env) && !r.archived
    && ShouldApply(r.seqNo, env.seqNo) == Ok(true) && InviteKeyStorable(l, env) && !EventRowFits(l, env)
  }

  /** When handling an event is an error: it is not authorized, it leaves a gap, or it is the next
      one and its rows cannot be stored. Old events, and any but a dissolution once the group is
      archived, are dropped without one. */
  predicate Rejects(r: Rep, l: Local, env: Envelope) {
    || !Authorized(r, env)
    || (&& !env.payload.Other? && (r.archived ==> env.payload.Create? || env.payload.Dissolve?)
        && (|| ShouldApply(r.seqNo, env.seqNo) == Err
            || (!env.payload.Create? && ShouldApply(r.seqNo, env.seqNo) == Ok(true) && !Accepts(r, l, env))))
  }

  /** `Receive` is one delivery in the sense of `Convergence`. */
  lemma ReceiveIsDelivery(at: (Rep, Local), env: Envelope)
    ensures Delivered(at.0, env, Receive(at, env).0)
  {
  }

  /** The handler itself converges: whatever is delivered when, and whatever else happens to the
      replica's own tables between deliveries, it is at the replay up to its own number. */
  lemma HandlerConverges(
        base: Rep, log: nat -> Envelope, schedule: seq<nat>, reps: seq<Rep>, locals: seq<Local>, i: nat)
    requires WellFormed(log) && |reps| == |schedule| + 1 && |locals| == |schedule| && reps[0] == base
    requires forall j :: 0 <= j < |schedule| ==> reps[j + 1] == Receive((reps[j], locals[j]), log(schedule[j])).0
    requires i <= |schedule|
    ensures base.seqNo <= reps[i].seqNo && reps[i] == Replay(base, log, reps[i].seqNo)
  {
    forall j | 0 <= j < |schedule| ensures Delivered(reps[j], log(schedule[j]), reps[j + 1]) {
      ReceiveIsDelivery((reps[j], locals[j]), log(schedule[j]));
    }
    Convergence(base, log, schedule, reps, i);
  }

  /** The replica's own tables are in step with event `m`, the events to come are new to it and
      hand it a key at every rotation (it stays an active member). A replica made from an invite has
      no rows for earlier epochs. */
  ghost predicate InStep(l: Local, log: nat -> Envelope, m: nat, n: nat) {
    && l.epochs.Keys <= Rows(log, m)
    && (forall i :: i in l.eventSeqs ==> i <= m)
    && (forall i, j :: m < i <= n && m < j <= n && i != j ==> log(i).eventID != log(j).eventID)
    && (forall i :: m < i <= n ==> log(i).eventID !in l.eventIDs)
    && (forall i :: m < i <= n ==> SenderMatches(l, log(i)))
    && (forall i :: m < i <= n && IsRotation(log(i)) ==> KeyStorable(l, RotationKeys(log(i))))
    && (forall i :: m < i <= n ==> InviteKeyStorable(l, log(i)))
  }

  /** The replica's own tables once events `m+1 .. n` have all been applied. */
  function Stored(l: Local, log: nat -> Envelope, m: nat, n: nat): Local
    requires m <= n
    decreases n
  {
    if m == n then l else LocalAfter(Stored(l, log, m, n - 1), log(n))
  }

  lemma InStepAdvances(l: Local, log: nat -> Envelope, m: nat, n: nat)
    requires 1 <= m < n && WellFormed(log) && InStep(l, log, m, n)
    ensures InStep(LocalAfter(l, log(m + 1)), log, m + 1, n)
  {
  }

  lemma {:induction false} StoredInStep(l: Local, log: nat -> Envelope, m: nat, n: nat, last: nat)
    requires 1 <= m <= n <= last && WellFormed(log) && InStep(l, log, m, last)
    ensures InStep(Stored(l, log, m, n), log, n, last)
    decreases n
  {
    if m < n {
      StoredInStep(l, log, m, n - 1, last);
      InStepAdvances(Stored(l, log, m, n - 1), log, n - 1, last);
    }
  }

  /** A follower in step with event `n` of a linear log, with the header of event `n`, accepts event
      `n + 1` exactly when it vouches for it, and refuses it otherwise. */
  lemma NextIsAcceptedIff(
        title: string, creator: Peer, nilKeys: bool, log: nat -> Envelope, a: Rep, l: Local, n: nat, last: nat)
    requires 1 <= n < last && LinearLog(title, creator, nilKeys, log, last) && InStep(l, log, n, last)
    requires SameHeader(a, Replay(Created(title, creator), log, n))
    ensures Accepts(a, l, log(n + 1)) <==> Vouched(a, log(n + 1))
    ensures Rejects(a, l, log(n + 1)) <==> !Vouched(a, log(n + 1))
  {
    NextRowsFit(title, creator, nilKeys, log, l, n, last);
    assert EmittedAt(Created(title, creator), nilKeys, log, n + 1);
    FollowerAcceptsIff(Replay(Created(title, creator), log, n), nilKeys, log(n + 1), a, l);
  }

  lemma NextRowsFit(title: string, creator: Peer, nilKeys: bool, log: nat -> Envelope, l: Local, n: nat, last: nat)
    requires 1 <= n < last && LinearLog(title, creator, nilKeys, log, last) && InStep(l, log, n, last)
    ensures RowsFit(l, log(n + 1))
  {
    LogInvariant(title, creator, nilKeys, log, n);
    assert EmittedAt(Created(title, creator), nilKeys, log, n + 1);
  }

  /** The first `k` events of a sync response handled in order, stopping at a refusal. */
  function SyncTo(at: (Rep, Local), events: seq<Envelope>, k: nat): ((Rep, Local), bool)
    requires k <= |events|
  {
    if k == 0 then (at, true)
    else
      var (s, ok) := SyncTo(at, events, k - 1);
      if !ok then (s, ok) else (Receive(s, events[k - 1]), !Rejects(s.0, s.1, events[k - 1]))
  }

  lemma {:induction false} SyncStops(at: (Rep, Local), events: seq<Envelope>, i: nat, k: nat)
    requires i <= k <= |events| && !SyncTo(at, events, i).1
    ensures SyncTo(at, events, k) == SyncTo(at, events, i)
  {
    if i < k {
      SyncStops(at, events, i, k - 1);
    }
  }

  /** `events` are the log's events after `m`, up to `last`. */
  ghost predicate AreAfter(events: seq<Envelope>, log: nat -> Envelope, m: nat, last: nat) {
    |events| == last - m && forall i :: 0 <= i < |events| ==> events[i] == log(m + i + 1)
  }

  /** The follower `a`, at event `m`, vouches for each of the events up to `n` as it comes to it. */
  ghost predicate VouchesUpTo(a: Rep, log: nat -> Envelope, n: nat)
    requires a.seqNo <= n
  {
    forall i :: a.seqNo < i <= n ==> VouchesAt(a, log, i)
  }

  ghost predicate VouchesAt(a: Rep, log: nat -> Envelope, i: nat)
    requires a.seqNo < i
  {
    Vouched(Replay(a, log, i - 1), log(i))
  }

  /** Sent the first `k` events after its own, the follower is `k` events further. */
  ghost predicate SyncedTo(a: Rep, log: nat -> Envelope, l: Local, events: seq<Envelope>, k: nat)
    requires k <= |events|
  {
    SyncTo((a, l), events, k) == ((Replay(a, log, a.seqNo + k), Stored(l, log, a.seqNo, a.seqNo + k)), true)
  }

  /** A follower of a linear log: it agrees with the log on the header at its own event, its tables
      are in step, and it is sent the events after it. */
  ghost predicate Following(
        title: string, creator: Peer, nilKeys: bool, log: nat -> Envelope, a: Rep, l: Local, last: nat,
        events: seq<Envelope>) {
    && 1 <= a.seqNo <= last && LinearLog(title, creator, nilKeys, log, last)
    && SameHeader(a, Replay(Created(title, creator), log, a.seqNo))
    && InStep(l, log, a.seqNo, last) && AreAfter(events, log, a.seqNo, last)
  }

  /** Having taken the events before it, the follower takes event `k` of the response exactly when it
      vouches for it, and errs exactly when it does not. */
  ghost predicate TakesIffVouched(a: Rep, log: nat -> Envelope, l: Local, events: seq<Envelope>, k: nat)
    requires k < |events|
  {
    var m := a.seqNo + k;
    && events[k] == log(m + 1)
    && (Accepts(Replay(a, log, m), Stored(l, log, a.seqNo, m), events[k]) <==> VouchesAt(a, log, m + 1))
    && (Rejects(Replay(a, log, m), Stored(l, log, a.seqNo, m), events[k]) <==> !VouchesAt(a, log, m + 1))
  }

  lemma FollowerNext(
        title: string, creator: Peer, nilKeys: bool, log: nat -> Envelope, a: Rep, l: Local, last: nat,
        events: seq<Envelope>, k: nat)
    requires Following(title, creator, nilKeys, log, a, l, last, events) && k < |events|
    ensures TakesIffVouched(a, log, l, events, k)
  {
    var m := a.seqNo + k;
    FollowerHeader(Created(title, creator), log, a, m);
    StoredInStep(l, log, a.seqNo, m, last);
    NextIsAcceptedIff(title, creator, nilKeys, log, Replay(a, log, m), Stored(l, log, a.seqNo, m), m, last);
  }

  lemma FollowerHeader(base: Rep, log: nat -> Envelope, a: Rep, m: nat)
    requires base.seqNo <= a.seqNo <= m && SameHeader(a, Replay(base, log, a.seqNo))
    ensures SameHeader(Replay(a, log, m), Replay(base, log, m))
  {
    HeaderFollows(a, Replay(base, log, a.seqNo), log, m);
    ReplayOn(base, log, a.seqNo, m);
  }

  /** Replay can be interrupted anywhere. */
  lemma {:induction false} ReplayOn(base: Rep, log: nat -> Envelope, m: nat, n: nat)
    requires base.seqNo <= m <= n && Replay(base, log, m).seqNo == m
    ensures Replay(Replay(base, log, m), log, n) == Replay(base, log, n)
    decreases n
  {
    if m < n {
      ReplayOn(base, log, m, n - 1);
    }
  }

  /** Of the first `k` events the follower takes all exactly when it vouches for all. */
  ghost predicate SyncsAsVouched(a: Rep, log: nat -> Envelope, l: Local, events: seq<Envelope>, k: nat)
    requires k <= |events|
  {
    && (SyncTo((a, l), events, k).1 <==> VouchesUpTo(a, log, a.seqNo + k))
    && (SyncTo((a, l), events, k).1 ==> SyncedTo(a, log, l, events, k))
  }

  lemma SyncStep(a: Rep, log: nat -> Envelope, l: Local, events: seq<Envelope>, k: nat)
    requires k < |events| && TakesIffVouched(a, log, l, events, k) && SyncsAsVouched(a, log, l, events, k)
    ensures SyncsAsVouched(a, log, l, events, k + 1)
  {
    VouchesOne(a, log, a.seqNo + k + 1);
    if SyncTo((a, l), events, k).1 {
      SyncOne(a, log, l, events, k);
    }
  }

  lemma SyncOne(a: Rep, log: nat -> Envelope, l: Local, events: seq<Envelope>, k: nat)
    requires k < |events| && TakesIffVouched(a, log, l, events, k) && SyncedTo(a, log, l, events, k)
    ensures SyncTo((a, l), events, k + 1).1 <==> VouchesAt(a, log, a.seqNo + k + 1)
    ensures VouchesAt(a, log, a.seqNo + k + 1) ==> SyncedTo(a, log, l, events, k + 1)
  {
  }

  lemma {:induction false} SyncSteps(a: Rep, log: nat -> Envelope, l: Local, events: seq<Envelope>, k: nat)
    requires k <= |events| && forall j :: 0 <= j < k ==> TakesIffVouched(a, log, l, events, j)
    ensures SyncsAsVouched(a, log, l, events, k)
  {
    if k > 0 {
      SyncSteps(a, log, l, events, k - 1);
      SyncStep(a, log, l, events, k - 1);
    }
  }

  /** A sync brings a follower, bootstrapped or not, to the end of the log exactly when it vouches for
      every event on the way; otherwise it stops at an error. */
  lemma FollowerCatchesUpIff(
      title: string, creator: Peer, nilKeys: bool, log: nat -> Envelope, a: Rep, l: Local, last: nat,
      events: seq<Envelope>)
    requires Following(title, creator, nilKeys, log, a, l, last, events)
    ensures SyncTo((a, l), events, |events|).1 <==> VouchesUpTo(a, log, last)
    ensures VouchesUpTo(a, log, last) ==> SyncedTo(a, log, l, events, |events|)
  {
    forall j | 0 <= j < |events| ensures TakesIffVouched(a, log, l, events, j) {
      FollowerNext(title, creator, nilKeys, log, a, l, last, events, j);
    }
    SyncSteps(a, log, l, events, |events|);
  }

  lemma VouchesOne(a: Rep, log: nat -> Envelope, n: nat)
    requires a.seqNo < n
    ensures VouchesUpTo(a, log, n) <==> VouchesUpTo(a, log, n - 1) && VouchesAt(a, log, n)
  {
  }

  /** Convergence is not vacuous: a replica present since creation, at event `m`, vouches for
      everything, so it takes all events without a refusal and ends at the last. */
  lemma SyncCatchesUp(
        title: string, creator: Peer, nilKeys: bool, log: nat -> Envelope, l: Local, m: nat, last: nat,
        events: seq<Envelope>)
    requires 1 <= m <= last && LinearLog(title, creator, nilKeys, log, last) && InStep(l, log, m, last)
    requires AreAfter(events, log, m, last)
    ensures var a := Replay(Created(title, creator), log, m);
            && a.seqNo == m && SyncedTo(a, log, l, events, |events|)
            && Replay(a, log, last) == Replay(Created(title, creator), log, last)
  {
    OwnStateFollows(title, creator, nilKeys, log, l, m, last, events);
    OwnStateVouches(title, creator, nilKeys, log, m, last);
    FollowerCatchesUpIff(title, creator, nilKeys, log, Replay(Created(title, creator), log, m), l, last, events);
    ReplayOn(Created(title, creator), log, m, last);
  }

  lemma OwnStateFollows(
        title: string, creator: Peer, nilKeys: bool, log: nat -> Envelope, l: Local, m: nat, last: nat,
        events: seq<Envelope>)
    requires 1 <= m <= last && LinearLog(title, creator, nilKeys, log, last) && InStep(l, log, m, last)
    requires AreAfter(events, log, m, last)
    ensures Replay(Created(title, creator), log, m).seqNo == m
    ensures Following(title, creator, nilKeys, log, Replay(Created(title, creator), log, m), l, last, events)
  {
    LinearPrefix(title, creator, nilKeys, log, m, last);
    LogInvariant(title, creator, nilKeys, log, m);
  }

  lemma OwnStateVouches(title: string, creator: Peer, nilKeys: bool, log: nat -> Envelope, m: nat, last: nat)
    requires 1 <= m <= last && LinearLog(title, creator, nilKeys, log, last)
    requires Replay(Created(title, creator), log, m).seqNo == m
    ensures VouchesUpTo(Replay(Created(title, creator), log, m), log, last)
  {
    var base := Created(title, creator);
    forall i | m < i <= last ensures VouchesAt(Replay(base, log, m), log, i) {
      ReplayOn(base, log, m, i - 1);
      assert EmittedAt(base, nilKeys, log, i);
    }
  }

  lemma LinearPrefix(title: string, creator: Peer, nilKeys: bool, log: nat -> Envelope, m: nat, last: nat)
    requires 1 <= m <= last && LinearLog(title, creator, nilKeys, log, last)
    ensures LinearLog(title, creator, nilKeys, log, m)
  {
  }
}
