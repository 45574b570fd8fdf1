/** All replicas of one group together: peers emit events on their own replicas, anyone may be late,
    miss or repeat events, new peers start from invites, and anyone may send envelopes it is not
    entitled to. Two events get the same number exactly
    when someone emits without having seen every event; as long as only controllers emit, that never
    happens, so convergence then needs no assumption about the log. */
module GroupSystem {
  import opened Text
  import opened GroupLog
  import Authority = GroupAuthority

  /** Every event emitted so far, in the order of emission, and every peer's replica. */
  datatype System = System(nilKeys: bool, log: seq<Envelope>, replicas: map<Peer, Rep>)

  datatype Action =
    | Emit(p: Peer, env: Envelope)
    | Deliver(p: Peer, index: nat, accepted: bool)
    | Enter(p: Peer, index: nat)
    | Forge(p: Peer, env: Envelope, own: Local)

  /** The creator's state after the first `k` emitted events. */
  function StateAt(base: Rep, log: seq<Envelope>, k: nat): Rep
    requires k <= |log|
  {
    if k == 0 then base else Effect(StateAt(base, log, k - 1), log[k - 1])
  }

  /** Any peer emits whatever its own replica lets it emit; any emitted event reaches any peer at any
      time, who may refuse it; a peer without the group enters with any invite; and any envelope at all
      reaches any peer, with whatever it has in its own tables, if the signer is not entitled to it there. */
  predicate Enabled(s: System, a: Action) {
    match a
    case Emit(p, env) =>
      && p in s.replicas && env.signer == p
      && (Emits(s.replicas[p], s.nilKeys, env) || RevokesLocally(s.replicas[p], env))
    case Deliver(p, i, _) => p in s.replicas && i < |s.log|
    case Enter(p, i) => p !in s.replicas && i < |s.log| && s.log[i].payload.Invite? && s.log[i].seqNo >= 1
    case Forge(p, env, _) => p in s.replicas && !Authority.Entitled(s.replicas[p], env)
  }

  function Step(s: System, a: Action): System
    requires Enabled(s, a)
  {
    match a
    case Emit(p, env) => Appended(s, p, env)
    case Deliver(p, i, accepted) =>
      if accepted && s.log[i].seqNo == s.replicas[p].seqNo + 1
      then Replaced(s, p, Effect(s.replicas[p], s.log[i]))
      else s
    case Enter(p, i) => Replaced(s, p, Effect(Bootstrap(s.log[i]), s.log[i]))
    case Forge(p, env, own) => Replaced(s, p, Receive((s.replicas[p], own), env).0)
  }

  /** What nobody is entitled to changes no replica. */
  lemma ForgeryFails(s: System, a: Action)
    requires a.Forge? && Enabled(s, a)
    ensures Step(s, a) == s
  {
    Authority.RefusedUnlessEntitled(s.replicas[a.p], a.own, a.env);
    assert s.replicas[a.p := s.replicas[a.p]] == s.replicas;
  }

  function Appended(s: System, p: Peer, env: Envelope): System
    requires p in s.replicas
  {
    s.(log := s.log + [env], replicas := s.replicas[p := Effect(s.replicas[p], env)])
  }

  function Replaced(s: System, p: Peer, r: Rep): System {
    s.(replicas := s.replicas[p := r])
  }

  /** The peer's replica has every event emitted so far. */
  predicate UpToDate(s: System, p: Peer) {
    p in s.replicas && s.replicas[p].seqNo == |s.log| + 1
  }

  /** An invite describes the state it was emitted on, and a rotation takes the next epoch. */
  predicate Describes(r: Rep, env: Envelope) {
    && !r.archived
    && (env.payload.Invite? ==>
          && env.payload.title == r.title && env.payload.controller == r.controller && env.payload.epoch == r.epoch
          && env.payload.invitee != r.controller)
    && (IsRotation(env) ==> env.payload.newEpoch == r.epoch + 1)
  }

  /** Event `i` of the log has number `i + 2` and describes the state before it. */
  ghost predicate EventOK(base: Rep, s: System, i: nat)
    requires i < |s.log|
  {
    s.log[i].seqNo == i + 2 && Describes(StateAt(base, s.log, i), s.log[i])
  }

  /** The replica has the header the log gives at its own number. */
  ghost predicate ReplicaOK(base: Rep, s: System, p: Peer)
    requires p in s.replicas
  {
    var r := s.replicas[p];
    1 <= r.seqNo <= |s.log| + 1 && SameHeader(r, StateAt(base, s.log, r.seqNo - 1))
  }

  /** No fork so far. */
  ghost predicate Inv(base: Rep, s: System) {
    && base.seqNo == 1
    && (forall i :: 0 <= i < |s.log| ==> EventOK(base, s, i))
    && (forall p :: p in s.replicas ==> ReplicaOK(base, s, p))
  }

  lemma {:induction false} StateAtPrefix(base: Rep, log: seq<Envelope>, env: Envelope, k: nat)
    requires k <= |log|
    ensures StateAt(base, log + [env], k) == StateAt(base, log, k)
  {
    if k > 0 {
      StateAtPrefix(base, log, env, k - 1);
    }
  }

  lemma EffectSeq(r: Rep, env: Envelope)
    ensures Effect(r, env).seqNo == env.seqNo
  {
  }

  // ----- what keeps the log free of forks -----

  lemma EmitKeepsEvent(base: Rep, s: System, p: Peer, env: Envelope, i: nat)
    requires p in s.replicas && i <= |s.log| && (i < |s.log| ==> EventOK(base, s, i))
    requires SameHeader(s.replicas[p], StateAt(base, s.log, |s.log|)) && env.seqNo == |s.log| + 2
            && Describes(s.replicas[p], env)
    ensures EventOK(base, Appended(s, p, env), i)
  {
    StateAtPrefix(base, s.log, env, i);
  }

  lemma EmitKeepsReplica(base: Rep, s: System, p: Peer, env: Envelope, q: Peer)
    requires p in s.replicas && q in s.replicas && ReplicaOK(base, s, q)
    requires SameHeader(s.replicas[p], StateAt(base, s.log, |s.log|)) && env.seqNo == |s.log| + 2
    ensures ReplicaOK(base, Appended(s, p, env), q)
  {
    StateAtPrefix(base, s.log, env, s.replicas[q].seqNo - 1);
    if q == p {
      StateAtPrefix(base, s.log, env, |s.log|);
      HeaderStep(s.replicas[p], StateAt(base, s.log, |s.log|), env);
      EffectSeq(s.replicas[p], env);
    }
  }

  lemma EmitKeepsInv(base: Rep, s: System, p: Peer, env: Envelope)
    requires Inv(base, s) && Enabled(s, Emit(p, env)) && UpToDate(s, p)
    ensures Inv(base, Appended(s, p, env))
  {
    assert ReplicaOK(base, s, p);
    forall i | 0 <= i <= |s.log| ensures EventOK(base, Appended(s, p, env), i) {
      EmitKeepsEvent(base, s, p, env, i);
    }
    forall q | q in s.replicas ensures ReplicaOK(base, Appended(s, p, env), q) {
      EmitKeepsReplica(base, s, p, env, q);
    }
  }

  lemma ReplaceKeepsInv(base: Rep, s: System, p: Peer, r: Rep, k: nat)
    requires Inv(base, s) && k <= |s.log| && r.seqNo == k + 1 && SameHeader(r, StateAt(base, s.log, k))
    ensures Inv(base, Replaced(s, p, r))
  {
    var s' := Replaced(s, p, r);
    forall i | 0 <= i < |s.log| ensures EventOK(base, s', i) {
      assert EventOK(base, s, i);
    }
    forall q | q in s'.replicas ensures ReplicaOK(base, s', q) {
      assert q != p ==> ReplicaOK(base, s, q);
    }
  }

  lemma DeliverKeepsInv(base: Rep, s: System, p: Peer, i: nat)
    requires Inv(base, s) && p in s.replicas && i < |s.log| && s.log[i].seqNo == s.replicas[p].seqNo + 1
    ensures Inv(base, Replaced(s, p, Effect(s.replicas[p], s.log[i])))
  {
    assert EventOK(base, s, i) && ReplicaOK(base, s, p);
    HeaderStep(s.replicas[p], StateAt(base, s.log, i), s.log[i]);
    EffectSeq(s.replicas[p], s.log[i]);
    ReplaceKeepsInv(base, s, p, Effect(s.replicas[p], s.log[i]), i + 1);
  }

  lemma {:induction false} StateAtSeq(base: Rep, s: System, k: nat)
    requires Inv(base, s) && k <= |s.log|
    ensures StateAt(base, s.log, k).seqNo == k + 1
  {
    if k > 0 {
      assert EventOK(base, s, k - 1);
      EffectSeq(StateAt(base, s.log, k - 1), s.log[k - 1]);
    }
  }

  lemma EnterKeepsInv(base: Rep, s: System, p: Peer, i: nat)
    requires Inv(base, s) && Enabled(s, Enter(p, i))
    ensures Inv(base, Replaced(s, p, Effect(Bootstrap(s.log[i]), s.log[i])))
  {
    assert EventOK(base, s, i);
    StateAtSeq(base, s, i);
    assert SameHeader(Bootstrap(s.log[i]), StateAt(base, s.log, i));
    HeaderStep(Bootstrap(s.log[i]), StateAt(base, s.log, i), s.log[i]);
    EffectSeq(Bootstrap(s.log[i]), s.log[i]);
    ReplaceKeepsInv(base, s, p, Effect(Bootstrap(s.log[i]), s.log[i]), i + 1);
  }

  /** Every step keeps the log free of forks, as long as emitters are up to date. */
  lemma StepKeepsInv(base: Rep, s: System, a: Action)
    requires Inv(base, s) && Enabled(s, a) && (a.Emit? ==> UpToDate(s, a.p))
    ensures Inv(base, Step(s, a))
  {
    match a
    case Emit(p, env) => EmitKeepsInv(base, s, p, env);
    case Deliver(p, i, accepted) =>
      if accepted && s.log[i].seqNo == s.replicas[p].seqNo + 1 {
        DeliverKeepsInv(base, s, p, i);
      }
    case Enter(p, i) => EnterKeepsInv(base, s, p, i);
    case Forge(_, _, _) => ForgeryFails(s, a);
  }

  /** An emitter that is not takes a number that is taken. */
  lemma StaleEmitterForks(base: Rep, s: System, p: Peer, env: Envelope)
    requires Inv(base, s) && Enabled(s, Emit(p, env)) && !UpToDate(s, p)
    ensures var i := s.replicas[p].seqNo - 1; 0 <= i < |s.log| && s.log[i].seqNo == env.seqNo
  {
    assert ReplicaOK(base, s, p);
    assert EventOK(base, s, s.replicas[p].seqNo - 1);
  }

  // ----- runs -----

  /** `states` is a run from the creator's group, by `actions`. */
  ghost predicate IsRun(title: string, creator: Peer, nilKeys: bool, states: seq<System>, actions: seq<Action>) {
    && |states| == |actions| + 1
    && states[0] == System(nilKeys, [], map[creator := Created(title, creator)])
    && forall i :: 0 <= i < |actions| ==> StepAt(states, actions, i)
  }

  ghost predicate StepAt(states: seq<System>, actions: seq<Action>, i: nat)
    requires i < |actions| && |states| == |actions| + 1
  {
    Enabled(states[i], actions[i]) && states[i + 1] == Step(states[i], actions[i])
  }

  /** Whoever emitted in the first `n` steps had seen every event by then. */
  ghost predicate EmittersUpToDate(states: seq<System>, actions: seq<Action>, n: nat)
    requires n <= |actions| < |states|
  {
    forall i :: 0 <= i < n && actions[i].Emit? ==> UpToDate(states[i], actions[i].p)
  }

  predicate DistinctNumbers(log: seq<Envelope>) {
    forall i, j :: 0 <= i < j < |log| ==> log[i].seqNo != log[j].seqNo
  }

  lemma {:induction false} RunKeepsInv(
        title: string, creator: Peer, nilKeys: bool, states: seq<System>, actions: seq<Action>, n: nat)
    requires IsRun(title, creator, nilKeys, states, actions) && n <= |actions| && EmittersUpToDate(states, actions, n)
    ensures Inv(Created(title, creator), states[n])
  {
    if n > 0 {
      RunKeepsInv(title, creator, nilKeys, states, actions, n - 1);
      assert StepAt(states, actions, n - 1);
      StepKeepsInv(Created(title, creator), states[n - 1], actions[n - 1]);
    } else {
      assert StateAt(Created(title, creator), states[0].log, 0) == Created(title, creator);
    }
  }

  lemma NumbersDistinct(base: Rep, s: System)
    requires Inv(base, s)
    ensures DistinctNumbers(s.log)
  {
    forall i | 0 <= i < |s.log| ensures s.log[i].seqNo == i + 2 {
      assert EventOK(base, s, i);
    }
  }

  lemma ForkStays(s: System, a: Action)
    requires Enabled(s, a) && !DistinctNumbers(s.log)
    ensures !DistinctNumbers(Step(s, a).log)
  {
    var i, j :| 0 <= i < j < |s.log| && s.log[i].seqNo == s.log[j].seqNo;
    var log' := Step(s, a).log;
    assert log'[i] == s.log[i] && log'[j] == s.log[j];
  }

  /** In every run, whatever is lost, repeated, reordered or late: no two events have the same number
      if and only if every emitter had seen every event when it emitted. */
  lemma {:induction false} NoForkIff(
        title: string, creator: Peer, nilKeys: bool, states: seq<System>, actions: seq<Action>, n: nat)
    requires IsRun(title, creator, nilKeys, states, actions) && n <= |actions|
    ensures DistinctNumbers(states[n].log) <==> EmittersUpToDate(states, actions, n)
  {
    if EmittersUpToDate(states, actions, n) {
      RunKeepsInv(title, creator, nilKeys, states, actions, n);
      NumbersDistinct(Created(title, creator), states[n]);
    } else {
      NoForkIff(title, creator, nilKeys, states, actions, n - 1);
      assert StepAt(states, actions, n - 1);
      var s, a := states[n - 1], actions[n - 1];
      if EmittersUpToDate(states, actions, n - 1) {
        RunKeepsInv(title, creator, nilKeys, states, actions, n - 1);
        StaleEmitterForks(Created(title, creator), s, a.p, a.env);
        var i, log' := s.replicas[a.p].seqNo - 1, states[n].log;
        assert log'[i] == s.log[i] && log'[|s.log|] == a.env;
      } else {
        ForkStays(s, a);
      }
    }
  }

  /** Without a fork, peers at the same number agree on title, controller, epoch and archive state. */
  lemma NoForkAgree(
        title: string, creator: Peer, nilKeys: bool, states: seq<System>, actions: seq<Action>, n: nat, p: Peer,
        q: Peer)
    requires IsRun(title, creator, nilKeys, states, actions) && n <= |actions| && DistinctNumbers(states[n].log)
    requires p in states[n].replicas && q in states[n].replicas
            && states[n].replicas[p].seqNo == states[n].replicas[q].seqNo
    ensures SameHeader(states[n].replicas[p], states[n].replicas[q])
  {
    NoForkIff(title, creator, nilKeys, states, actions, n);
    RunKeepsInv(title, creator, nilKeys, states, actions, n);
    assert ReplicaOK(Created(title, creator), states[n], p) && ReplicaOK(Created(title, creator), states[n], q);
  }

  // ----- members without forks -----

  ghost predicate RowsAgree(a: map<Peer, MemberRow>, b: map<Peer, MemberRow>) {
    forall p :: p in a ==> p in b && a[p].state == b[p].state
  }

  /** Every member `r` lists is listed by `full`, in the same state. */
  ghost predicate Agrees(r: Rep, full: Rep) {
    RowsAgree(r.members, full.members)
  }

  predicate ControllerActive(r: Rep) {
    r.controller in r.members && r.members[r.controller].state == Active
  }

  /** Whoever an invite lists, other than the invitee and the controller, is active when it is
      emitted. */
  ghost predicate ListsActive(r: Rep, env: Envelope) {
    env.payload.Invite? ==>
      forall x :: x in UniqueSet([env.payload.controller] + env.payload.known)
                  && x != env.payload.invitee && x != env.payload.controller ==>
        x in r.members && r.members[x].state == Active
  }

  ghost predicate LogMembersOK(base: Rep, s: System, i: nat)
    requires i <= |s.log|
  {
    var r := StateAt(base, s.log, i);
    CleanMembers(r) && r.controller in r.members && (i < |s.log| ==> ListsActive(r, s.log[i]))
  }

  ghost predicate MembersOK(base: Rep, s: System, p: Peer)
    requires p in s.replicas
  {
    var r := s.replicas[p];
    && CleanMembers(r) && 1 <= r.seqNo <= |s.log| + 1 && Agrees(r, StateAt(base, s.log, r.seqNo - 1))
  }

  ghost predicate MembersInv(base: Rep, s: System) {
    && (forall i :: 0 <= i <= |s.log| ==> LogMembersOK(base, s, i))
    && (forall p :: p in s.replicas ==> MembersOK(base, s, p))
  }

  lemma EffectAgrees(r: Rep, full: Rep, env: Envelope)
    requires Agrees(r, full)
    ensures Agrees(Effect(r, env), Effect(full, env))
  {
    var a, b := r.members, full.members;
    match env.payload
    case Join(p, _) => ActivateAgrees(a, b, p, r.epoch, full.epoch);
    case Leave(p, _, _) => SetStateAgrees(a, b, p, Left, r.epoch, full.epoch);
    case Remove(p, _, _) => SetStateAgrees(a, b, p, Removed, r.epoch, full.epoch);
    case Transfer(p, q, _, _) =>
      SetRoleAgrees(a, b, p, Member);
      SetRoleAgrees(SetRole(a, p, Member), SetRole(b, p, Member), q, Controller);
    case _ =>
  }

  lemma ActivateAgrees(a: map<Peer, MemberRow>, b: map<Peer, MemberRow>, p: Peer, e: nat, f: nat)
    requires RowsAgree(a, b)
    ensures RowsAgree(Activate(a, p, e), Activate(b, p, f))
  {
  }

  lemma SetStateAgrees(a: map<Peer, MemberRow>, b: map<Peer, MemberRow>, p: Peer, state: MemberState, e: nat, f: nat)
    requires RowsAgree(a, b)
    ensures RowsAgree(SetState(a, p, state, e), SetState(b, p, state, f))
  {
  }

  lemma SetRoleAgrees(a: map<Peer, MemberRow>, b: map<Peer, MemberRow>, p: Peer, role: Role)
    requires RowsAgree(a, b)
    ensures RowsAgree(SetRole(a, p, role), SetRole(b, p, role))
  {
  }

  lemma EffectClean(r: Rep, env: Envelope)
    requires CleanMembers(r) && (env.payload.Invite? ==> Clean(env.payload.invitee))
    ensures CleanMembers(Effect(r, env))
  {
  }

  /** An event emitted on a replica that agrees with the log leaves the log a controller it lists. */
  lemma EmitKeepsController(r: Rep, nilKeys: bool, env: Envelope, full: Rep)
    requires SameHeader(r, full) && Agrees(r, full) && full.controller in full.members
    requires Emits(r, nilKeys, env) || RevokesLocally(r, env)
    ensures Effect(full, env).controller in Effect(full, env).members
  {
  }

  lemma EmitListsActive(r: Rep, nilKeys: bool, env: Envelope, full: Rep)
    requires SameHeader(r, full) && Agrees(r, full) && full.controller in full.members
    requires CleanMembers(r) && CleanMembers(full) && (Emits(r, nilKeys, env) || RevokesLocally(r, env))
    ensures ListsActive(full, env)
  {
    if env.payload.Invite? {
      var p := env.payload;
      forall x | x in UniqueSet([p.controller] + p.known) && x != p.invitee && x != p.controller
        ensures x in full.members && full.members[x].state == Active
      {
        var y :| y in [p.controller] + p.known && TrimSpace(y) == x;
        assert y == p.controller || y in SetOf(p.known);
        TrimSpaceClean(y);
      }
    }
  }

  lemma EmitKeepsLogMembers(base: Rep, s: System, p: Peer, env: Envelope, i: nat)
    requires Inv(base, s) && MembersInv(base, s) && Enabled(s, Emit(p, env)) && UpToDate(s, p)
    requires i <= |s.log| + 1
    ensures LogMembersOK(base, Appended(s, p, env), i)
  {
    var n := |s.log|;
    assert ReplicaOK(base, s, p) && MembersOK(base, s, p) && LogMembersOK(base, s, n);
    StateAtPrefix(base, s.log, env, if i <= n then i else n);
    if i < n {
      assert LogMembersOK(base, s, i);
      assert Appended(s, p, env).log[i] == s.log[i];
    } else if i == n {
      EmitListsActive(s.replicas[p], s.nilKeys, env, StateAt(base, s.log, n));
    } else {
      EffectClean(StateAt(base, s.log, n), env);
      EmitKeepsController(s.replicas[p], s.nilKeys, env, StateAt(base, s.log, n));
    }
  }

  lemma EmitterKeepsMembers(base: Rep, s: System, p: Peer, env: Envelope)
    requires UpToDate(s, p) && MembersOK(base, s, p)
    requires env.seqNo == |s.log| + 2 && (env.payload.Invite? ==> Clean(env.payload.invitee))
    ensures MembersOK(base, Appended(s, p, env), p)
  {
    StateAtPrefix(base, s.log, env, |s.log|);
    EffectSeq(s.replicas[p], env);
    EffectClean(s.replicas[p], env);
    EffectAgrees(s.replicas[p], StateAt(base, s.log, |s.log|), env);
    assert StateAt(base, s.log + [env], |s.log| + 1) == Effect(StateAt(base, s.log, |s.log|), env);
  }

  lemma OthersKeepMembers(base: Rep, s: System, p: Peer, env: Envelope, q: Peer)
    requires p in s.replicas && q in s.replicas && q != p && MembersOK(base, s, q)
    ensures MembersOK(base, Appended(s, p, env), q)
  {
    StateAtPrefix(base, s.log, env, s.replicas[q].seqNo - 1);
  }

  lemma EmitKeepsMembersInv(base: Rep, s: System, p: Peer, env: Envelope)
    requires Inv(base, s) && MembersInv(base, s) && Enabled(s, Emit(p, env)) && UpToDate(s, p)
    ensures MembersInv(base, Appended(s, p, env))
  {
    forall i | 0 <= i <= |s.log| + 1 ensures LogMembersOK(base, Appended(s, p, env), i) {
      EmitKeepsLogMembers(base, s, p, env, i);
    }
    forall q | q in s.replicas ensures MembersOK(base, Appended(s, p, env), q) {
      if q == p {
        assert MembersOK(base, s, p);
        EmitterKeepsMembers(base, s, p, env);
      } else {
        assert MembersOK(base, s, q);
        OthersKeepMembers(base, s, p, env, q);
      }
    }
  }

  lemma ReplaceKeepsMembersInv(base: Rep, s: System, p: Peer, r: Rep, k: nat)
    requires MembersInv(base, s) && k <= |s.log| && r.seqNo == k + 1
    requires CleanMembers(r) && Agrees(r, StateAt(base, s.log, k))
    ensures MembersInv(base, Replaced(s, p, r))
  {
    var s' := Replaced(s, p, r);
    forall i | 0 <= i <= |s.log| ensures LogMembersOK(base, s', i) {
      assert LogMembersOK(base, s, i);
    }
    forall q | q in s'.replicas ensures MembersOK(base, s', q) {
      assert q != p ==> MembersOK(base, s, q);
    }
  }

  lemma DeliverKeepsMembersInv(base: Rep, s: System, p: Peer, i: nat)
    requires Inv(base, s) && MembersInv(base, s)
    requires p in s.replicas && i < |s.log| && s.log[i].seqNo == s.replicas[p].seqNo + 1
    ensures MembersInv(base, Replaced(s, p, Effect(s.replicas[p], s.log[i])))
  {
    assert EventOK(base, s, i) && MembersOK(base, s, p);
    assert LogMembersOK(base, s, i + 1);
    EffectSeq(s.replicas[p], s.log[i]);
    EffectAgrees(s.replicas[p], StateAt(base, s.log, i), s.log[i]);
    InviteeClean(base, s, i);
    EffectClean(s.replicas[p], s.log[i]);
    ReplaceKeepsMembersInv(base, s, p, Effect(s.replicas[p], s.log[i]), i + 1);
  }

  /** The invitee has a row afterwards, so its ID is clean. */
  lemma InviteeClean(base: Rep, s: System, i: nat)
    requires i < |s.log| && LogMembersOK(base, s, i + 1)
    ensures s.log[i].payload.Invite? ==> Clean(s.log[i].payload.invitee)
  {
    if s.log[i].payload.Invite? {
      assert s.log[i].payload.invitee in StateAt(base, s.log, i + 1).members;
    }
  }

  /** What an entering peer takes from the invite agrees with the log exactly when the controller was
      active when the invite was emitted: the invite always counts it among the active members. */
  lemma GuestAgreesIff(base: Rep, s: System, i: nat)
    requires Inv(base, s) && MembersInv(base, s) && i < |s.log| && s.log[i].payload.Invite? && s.log[i].seqNo >= 1
    ensures var guest := Effect(Bootstrap(s.log[i]), s.log[i]);
            && CleanMembers(guest)
            && (Agrees(guest, StateAt(base, s.log, i + 1)) <==> ControllerActive(StateAt(base, s.log, i)))
  {
    var env, full := s.log[i], StateAt(base, s.log, i);
    assert LogMembersOK(base, s, i) && LogMembersOK(base, s, i + 1) && EventOK(base, s, i);
    InviteeClean(base, s, i);
    var guest, after := Effect(Bootstrap(env), env), Effect(full, env);
    assert StateAt(base, s.log, i + 1) == after;
    var c := env.payload.controller;
    TrimSpaceClean(c);
    assert c in [c] + env.payload.known;
    assert c in guest.members && guest.members[c].state == Active;
    forall x | x in guest.members && x != c
      ensures Clean(x) && x in after.members && guest.members[x].state == after.members[x].state
    {
      if x != env.payload.invitee {
        assert x in UniqueSet([c] + env.payload.known);
      }
    }
  }

  /** A peer does not enter by an invite that an inactive controller emitted. */
  ghost predicate EntersWell(base: Rep, s: System, a: Action) {
    a.Enter? && a.index < |s.log| ==> ControllerActive(StateAt(base, s.log, a.index))
  }

  lemma StepKeepsMembersInv(base: Rep, s: System, a: Action)
    requires Inv(base, s) && MembersInv(base, s) && Enabled(s, a)
    requires (a.Emit? ==> UpToDate(s, a.p)) && EntersWell(base, s, a)
    ensures MembersInv(base, Step(s, a))
  {
    match a
    case Emit(p, env) => EmitKeepsMembersInv(base, s, p, env);
    case Deliver(p, i, accepted) =>
      if accepted && s.log[i].seqNo == s.replicas[p].seqNo + 1 {
        DeliverKeepsMembersInv(base, s, p, i);
      }
    case Enter(p, i) => EnterKeepsMembersInv(base, s, p, i);
    case Forge(_, _, _) => ForgeryFails(s, a);
  }

  lemma EnterKeepsMembersInv(base: Rep, s: System, p: Peer, i: nat)
    requires Inv(base, s) && MembersInv(base, s) && i < |s.log| && s.log[i].payload.Invite?
    requires s.log[i].seqNo >= 1 && ControllerActive(StateAt(base, s.log, i))
    ensures MembersInv(base, Replaced(s, p, Effect(Bootstrap(s.log[i]), s.log[i])))
  {
    assert EventOK(base, s, i);
    GuestAgreesIff(base, s, i);
    EffectSeq(Bootstrap(s.log[i]), s.log[i]);
    ReplaceKeepsMembersInv(base, s, p, Effect(Bootstrap(s.log[i]), s.log[i]), i + 1);
  }

  /** Every replica agrees with the log on the state of every member it lists. */
  ghost predicate AllAgree(base: Rep, s: System) {
    forall p :: p in s.replicas ==> ReplicaAgrees(base, s, p)
  }

  ghost predicate ReplicaAgrees(base: Rep, s: System, p: Peer)
    requires p in s.replicas
  {
    var r := s.replicas[p];
    1 <= r.seqNo <= |s.log| + 1 && Agrees(r, StateAt(base, s.log, r.seqNo - 1))
  }

  lemma ReplaceDisagrees(base: Rep, s: System, p: Peer, r: Rep, k: nat)
    requires k <= |s.log| && r.seqNo == k + 1 && !Agrees(r, StateAt(base, s.log, k))
    ensures !AllAgree(base, Replaced(s, p, r))
  {
    assert p in Replaced(s, p, r).replicas && !ReplicaAgrees(base, Replaced(s, p, r), p);
  }

  lemma BadEntryDisagrees(base: Rep, s: System, p: Peer, i: nat)
    requires Inv(base, s) && MembersInv(base, s) && i < |s.log| && s.log[i].payload.Invite?
    requires s.log[i].seqNo >= 1 && !ControllerActive(StateAt(base, s.log, i))
    ensures !AllAgree(base, Replaced(s, p, Effect(Bootstrap(s.log[i]), s.log[i])))
  {
    assert EventOK(base, s, i);
    GuestAgreesIff(base, s, i);
    EffectSeq(Bootstrap(s.log[i]), s.log[i]);
    ReplaceDisagrees(base, s, p, Effect(Bootstrap(s.log[i]), s.log[i]), i + 1);
  }

  /** Nobody entered in the first `n` steps by an invite emitted while the controller was not active. */
  ghost predicate EntriesWell(base: Rep, states: seq<System>, actions: seq<Action>, n: nat)
    requires n <= |actions| < |states|
  {
    forall i :: 0 <= i < n ==> EntersWell(base, states[i], actions[i])
  }

  lemma {:induction false} RunKeepsMembersInv(
      title: string, creator: Peer, nilKeys: bool, states: seq<System>, actions: seq<Action>, n: nat)
    requires IsRun(title, creator, nilKeys, states, actions) && n <= |actions| && Clean(creator)
    requires EmittersUpToDate(states, actions, n) && EntriesWell(Created(title, creator), states, actions, n)
    ensures MembersInv(Created(title, creator), states[n])
  {
    var base := Created(title, creator);
    if n > 0 {
      RunKeepsMembersInv(title, creator, nilKeys, states, actions, n - 1);
      RunKeepsInv(title, creator, nilKeys, states, actions, n - 1);
      assert StepAt(states, actions, n - 1);
      StepKeepsMembersInv(base, states[n - 1], actions[n - 1]);
    } else {
      assert StateAt(base, states[0].log, 0) == base;
      assert LogMembersOK(base, states[0], 0);
    }
  }

  /** In every fork-free run, all replicas agree with the log on all listed members in all states so far
      if and only if nobody entered by an invite that an inactive controller emitted. */
  lemma {:induction false} MembersAgreeIff(
      title: string, creator: Peer, nilKeys: bool, states: seq<System>, actions: seq<Action>, n: nat)
    requires IsRun(title, creator, nilKeys, states, actions) && n <= |actions| && Clean(creator)
    requires EmittersUpToDate(states, actions, n)
    ensures (forall i :: 0 <= i <= n ==> AllAgree(Created(title, creator), states[i]))
            <==> EntriesWell(Created(title, creator), states, actions, n)
  {
    var base := Created(title, creator);
    if EntriesWell(base, states, actions, n) {
      forall i | 0 <= i <= n ensures AllAgree(base, states[i]) {
        RunKeepsMembersInv(title, creator, nilKeys, states, actions, i);
        forall p | p in states[i].replicas ensures ReplicaAgrees(base, states[i], p) {
          assert MembersOK(base, states[i], p);
        }
      }
    } else {
      MembersAgreeIff(title, creator, nilKeys, states, actions, n - 1);
      if EntriesWell(base, states, actions, n - 1) {
        RunKeepsMembersInv(title, creator, nilKeys, states, actions, n - 1);
        RunKeepsInv(title, creator, nilKeys, states, actions, n - 1);
        assert StepAt(states, actions, n - 1);
        BadEntryDisagrees(base, states[n - 1], actions[n - 1].p, actions[n - 1].index);
      }
    }
  }

  /** And then the active members a replica knows are active, and they are all the active members
      exactly when it lists those. */
  lemma NoForkMembers(
      title: string, creator: Peer, nilKeys: bool, states: seq<System>, actions: seq<Action>, n: nat, p: Peer)
    requires IsRun(title, creator, nilKeys, states, actions) && n <= |actions| && Clean(creator)
    requires DistinctNumbers(states[n].log) && EntriesWell(Created(title, creator), states, actions, n)
    requires p in states[n].replicas
    ensures var s, r := states[n], states[n].replicas[p];
            && 1 <= r.seqNo <= |s.log| + 1
            && var full := StateAt(Created(title, creator), s.log, r.seqNo - 1);
               && Agrees(r, full) && ActivePeers(r) <= ActivePeers(full)
               && (ActivePeers(r) == ActivePeers(full) <==> ActivePeers(full) <= r.members.Keys)
  {
    NoForkIff(title, creator, nilKeys, states, actions, n);
    RunKeepsMembersInv(title, creator, nilKeys, states, actions, n);
    assert MembersOK(Created(title, creator), states[n], p);
  }

  /** So two replicas at the same number agree on every member both list, and on the active members
      exactly when each lists the other's. */
  lemma NoForkSameMembers(
      title: string, creator: Peer, nilKeys: bool, states: seq<System>, actions: seq<Action>, n: nat, p: Peer, q: Peer)
    requires IsRun(title, creator, nilKeys, states, actions) && n <= |actions| && Clean(creator)
    requires DistinctNumbers(states[n].log) && EntriesWell(Created(title, creator), states, actions, n)
    requires p in states[n].replicas && q in states[n].replicas
    requires states[n].replicas[p].seqNo == states[n].replicas[q].seqNo
    ensures var a, b := states[n].replicas[p], states[n].replicas[q];
            && (forall m :: m in a.members && m in b.members ==> a.members[m].state == b.members[m].state)
            && (ActivePeers(a) == ActivePeers(b) <==>
                ActivePeers(a) <= b.members.Keys && ActivePeers(b) <= a.members.Keys)
  {
    NoForkMembers(title, creator, nilKeys, states, actions, n, p);
    NoForkMembers(title, creator, nilKeys, states, actions, n, q);
  }

  // ----- the controller, the epochs and the keys of the log -----

  /** An event emitted on a replica that agrees with the log, complete or not, keeps the log's one
      active controller exactly when it is not a leave naming the controller. */
  lemma EmitKeepsLogControllerIff(r: Rep, nilKeys: bool, env: Envelope, full: Rep)
    requires SameHeader(r, full) && Agrees(r, full) && OneController(full)
    requires Emits(r, nilKeys, env) || RevokesLocally(r, env)
    ensures OneController(Effect(full, env)) <==> !LeavesController(r, env)
    ensures LeavesController(r, env) ==> nilKeys
  {
    match env.payload
    case Transfer(a, b, _, _) => TransferKeepsController(full, b, env);
    case Leave(p, _, _) => StateKeepsController(full, p, Left, env);
    case Remove(p, _, _) => StateKeepsController(full, p, Removed, env);
    case _ =>
  }

  lemma TransferKeepsController(full: Rep, b: Peer, env: Envelope)
    requires OneController(full) && env.payload.Transfer? && env.payload.fromPeer == full.controller
    requires env.payload.toPeer == b && b in full.members && full.members[b].state == Active && b != full.controller
    ensures OneController(Effect(full, env))
  {
  }

  lemma StateKeepsController(full: Rep, p: Peer, state: MemberState, env: Envelope)
    requires OneController(full) && p in full.members && state != Active
    requires Effect(full, env).controller == full.controller
    requires Effect(full, env).members == SetState(full.members, p, state, full.epoch)
    ensures OneController(Effect(full, env)) <==> p != full.controller
  {
  }

  ghost predicate OneControllerAt(base: Rep, s: System, k: nat)
    requires k <= |s.log|
  {
    OneController(StateAt(base, s.log, k))
  }

  /** The log gives exactly one active controller at every event. */
  ghost predicate LogOneController(base: Rep, s: System) {
    forall k :: 0 <= k <= |s.log| ==> OneControllerAt(base, s, k)
  }

  /** Step `i` is a controller's emission of its own leave. */
  predicate LeavesAt(s: System, a: Action) {
    a.Emit? && a.p in s.replicas && LeavesController(s.replicas[a.p], a.env)
  }

  ghost predicate NoControllerLeaves(states: seq<System>, actions: seq<Action>, n: nat)
    requires n <= |actions| < |states|
  {
    forall i :: 0 <= i < n ==> !LeavesAt(states[i], actions[i])
  }

  lemma EarlierControllers(base: Rep, s: System, p: Peer, env: Envelope, k: nat)
    requires p in s.replicas && k <= |s.log|
    ensures OneControllerAt(base, Appended(s, p, env), k) <==> OneControllerAt(base, s, k)
  {
    StateAtPrefix(base, s.log, env, k);
  }

  lemma LastController(base: Rep, s: System, p: Peer, env: Envelope)
    requires Inv(base, s) && MembersInv(base, s) && OneControllerAt(base, s, |s.log|)
    requires Enabled(s, Emit(p, env)) && UpToDate(s, p)
    ensures OneControllerAt(base, Appended(s, p, env), |s.log| + 1) <==> !LeavesController(s.replicas[p], env)
    ensures LeavesController(s.replicas[p], env) ==> s.nilKeys
  {
    var n := |s.log|;
    assert ReplicaOK(base, s, p) && MembersOK(base, s, p);
    EmitKeepsLogControllerIff(s.replicas[p], s.nilKeys, env, StateAt(base, s.log, n));
    StateAtPrefix(base, s.log, env, n);
    assert StateAt(base, s.log + [env], n + 1) == Effect(StateAt(base, s.log, n), env);
  }

  lemma EmitKeepsLogOneController(base: Rep, s: System, p: Peer, env: Envelope)
    requires Inv(base, s) && MembersInv(base, s) && LogOneController(base, s)
    requires Enabled(s, Emit(p, env)) && UpToDate(s, p)
    ensures LogOneController(base, Appended(s, p, env)) <==> !LeavesController(s.replicas[p], env)
    ensures LeavesController(s.replicas[p], env) ==> s.nilKeys
  {
    assert OneControllerAt(base, s, |s.log|);
    LastController(base, s, p, env);
    forall k | 0 <= k <= |s.log| ensures OneControllerAt(base, Appended(s, p, env), k) {
      assert OneControllerAt(base, s, k);
      EarlierControllers(base, s, p, env, k);
    }
    assert LogOneController(base, Appended(s, p, env)) ==> OneControllerAt(base, Appended(s, p, env), |s.log| + 1);
  }

  lemma StepKeepsLogControllerIff(base: Rep, s: System, a: Action)
    requires Inv(base, s) && MembersInv(base, s) && LogOneController(base, s) && Enabled(s, a)
    requires a.Emit? ==> UpToDate(s, a.p)
    ensures LogOneController(base, Step(s, a)) <==> !LeavesAt(s, a)
    ensures LeavesAt(s, a) ==> s.nilKeys
  {
    if a.Emit? {
      EmitKeepsLogOneController(base, s, a.p, a.env);
    } else {
      SameLog(base, s, Step(s, a));
    }
  }

  lemma SameLog(base: Rep, s: System, s': System)
    requires s'.log == s.log && LogOneController(base, s)
    ensures LogOneController(base, s')
  {
    forall k | 0 <= k <= |s.log| ensures OneControllerAt(base, s', k) {
      assert OneControllerAt(base, s, k);
    }
  }

  lemma LogControllerPrefix(base: Rep, s: System, a: Action)
    requires Enabled(s, a) && LogOneController(base, Step(s, a))
    ensures LogOneController(base, s)
  {
    forall k | 0 <= k <= |s.log| ensures OneControllerAt(base, s, k) {
      assert OneControllerAt(base, Step(s, a), k);
      if a.Emit? {
        EarlierControllers(base, s, a.p, a.env, k);
      }
    }
  }

  /** In every fork-free run the log gives exactly one active controller at every event if and only if no
      controller has emitted its own leave. Then nobody enters by an inactive controller's invite. */
  lemma {:induction false} LogControllerIff(
      title: string, creator: Peer, nilKeys: bool, states: seq<System>, actions: seq<Action>, n: nat)
    requires IsRun(title, creator, nilKeys, states, actions) && n <= |actions| && Clean(creator)
    requires EmittersUpToDate(states, actions, n)
    ensures LogOneController(Created(title, creator), states[n]) <==> NoControllerLeaves(states, actions, n)
    ensures NoControllerLeaves(states, actions, n) ==> EntriesWell(Created(title, creator), states, actions, n)
    ensures !nilKeys ==> NoControllerLeaves(states, actions, n)
  {
    var base := Created(title, creator);
    if n == 0 {
      assert OneControllerAt(base, states[0], 0);
    } else {
      LogControllerIff(title, creator, nilKeys, states, actions, n - 1);
      assert StepAt(states, actions, n - 1);
      var s, a := states[n - 1], actions[n - 1];
      SameDriver(title, creator, nilKeys, states, actions, n - 1);
      if NoControllerLeaves(states, actions, n - 1) {
        RunKeepsInv(title, creator, nilKeys, states, actions, n - 1);
        RunKeepsMembersInv(title, creator, nilKeys, states, actions, n - 1);
        StepKeepsLogControllerIff(base, s, a);
        assert a.Enter? ==> OneControllerAt(base, s, a.index);
      } else if LogOneController(base, states[n]) {
        LogControllerPrefix(base, s, a);
      }
    }
  }

  lemma {:induction false} SameDriver(
      title: string, creator: Peer, nilKeys: bool, states: seq<System>, actions: seq<Action>, n: nat)
    requires IsRun(title, creator, nilKeys, states, actions) && n <= |actions|
    ensures states[n].nilKeys == nilKeys
  {
    if n > 0 {
      SameDriver(title, creator, nilKeys, states, actions, n - 1);
      assert StepAt(states, actions, n - 1);
    }
  }

  function RotationsIn(log: seq<Envelope>, k: nat): nat
    requires k <= |log|
  {
    if k == 0 then 0 else RotationsIn(log, k - 1) + if IsRotation(log[k - 1]) then 1 else 0
  }

  /** Without a fork, the epoch at every event is 1 plus the rotations before it. */
  lemma {:induction false} LogEpochs(base: Rep, s: System, k: nat)
    requires Inv(base, s) && base.epoch == 1 && k <= |s.log|
    ensures StateAt(base, s.log, k).epoch == 1 + RotationsIn(s.log, k)
  {
    if k > 0 {
      LogEpochs(base, s, k - 1);
      assert EventOK(base, s, k - 1);
      EffectEpoch(StateAt(base, s.log, k - 1), s.log[k - 1]);
    }
  }

  lemma EffectEpoch(r: Rep, env: Envelope)
    requires Describes(r, env)
    ensures Effect(r, env).epoch == if IsRotation(env) then r.epoch + 1 else r.epoch
  {
  }

  /** A rotation emitted on a replica that agrees with the log hands keys only to members active
      afterwards, and to all of them exactly when the emitter lists them all. */
  lemma RotationCoversIff(r: Rep, nilKeys: bool, env: Envelope, full: Rep)
    requires Agrees(r, full) && Emits(r, nilKeys, env) && IsRotation(env)
    ensures RotationKeys(env).Keys <= ActivePeers(Effect(full, env))
    ensures RotationKeys(env).Keys == ActivePeers(Effect(full, env))
            <==> ActivePeers(Effect(full, env)) <= r.members.Keys
  {
    RotationCoversActive(r, nilKeys, env);
    EffectAgrees(r, full, env);
    RotationKeepsKeys(r, env);
  }

  lemma RotationKeepsKeys(r: Rep, env: Envelope)
    requires IsRotation(env)
    ensures Effect(r, env).members.Keys == r.members.Keys
  {
  }

  /** The invariants of the log of every fork-free run, whoever is given control: one epoch per rotation
      and, unless a controller left, one active controller. */
  lemma RunInvariants(
      title: string, creator: Peer, nilKeys: bool, states: seq<System>, actions: seq<Action>, n: nat, k: nat)
    requires IsRun(title, creator, nilKeys, states, actions) && n <= |actions| && Clean(creator)
    requires DistinctNumbers(states[n].log) && k <= |states[n].log|
    ensures var r := StateAt(Created(title, creator), states[n].log, k);
            && r.epoch == 1 + RotationsIn(states[n].log, k)
            && (NoControllerLeaves(states, actions, n) ==> OneController(r))
  {
    NoForkIff(title, creator, nilKeys, states, actions, n);
    LogControllerIff(title, creator, nilKeys, states, actions, n);
    RunKeepsInv(title, creator, nilKeys, states, actions, n);
    LogEpochs(Created(title, creator), states[n], k);
    if NoControllerLeaves(states, actions, n) {
      assert OneControllerAt(Created(title, creator), states[n], k);
    }
  }

  /** Each rotation of such a run hands keys only to members active after it, and to all of them exactly
      when its emitter lists them. */
  lemma RunRotations(
      title: string, creator: Peer, nilKeys: bool, states: seq<System>, actions: seq<Action>, n: nat)
    requires IsRun(title, creator, nilKeys, states, actions) && n < |actions| && Clean(creator)
    requires DistinctNumbers(states[n + 1].log) && EntriesWell(Created(title, creator), states, actions, n)
    requires actions[n].Emit? && IsRotation(actions[n].env)
    ensures var log, p := states[n + 1].log, actions[n].p;
            && p in states[n].replicas
            && var active := ActivePeers(StateAt(Created(title, creator), log, |log|));
               && RotationKeys(actions[n].env).Keys <= active
               && (RotationKeys(actions[n].env).Keys == active <==> active <= states[n].replicas[p].members.Keys)
  {
    NoForkIff(title, creator, nilKeys, states, actions, n + 1);
    RunKeepsMembersInv(title, creator, nilKeys, states, actions, n);
    assert StepAt(states, actions, n);
    RotationAt(Created(title, creator), states[n], actions[n].p, actions[n].env);
  }

  lemma RotationAt(base: Rep, s: System, p: Peer, env: Envelope)
    requires MembersInv(base, s) && Enabled(s, Emit(p, env)) && UpToDate(s, p) && IsRotation(env)
    ensures var log := s.log + [env];
            var active := ActivePeers(StateAt(base, log, |log|));
            && RotationKeys(env).Keys <= active
            && (RotationKeys(env).Keys == active <==> active <= s.replicas[p].members.Keys)
  {
    assert MembersOK(base, s, p);
    StateAtPrefix(base, s.log, env, |s.log|);
    RotationCoversIff(s.replicas[p], s.nilKeys, env, StateAt(base, s.log, |s.log|));
  }

  // ----- when only controllers emit -----

  /** The controller of the state before event `i`, who emitted it, is past it. */
  ghost predicate ControllerPast(base: Rep, s: System, i: nat)
    requires i < |s.log|
  {
    var c := StateAt(base, s.log, i).controller;
    c in s.replicas && s.replicas[c].seqNo >= i + 2
  }

  ghost predicate ControllersPast(base: Rep, s: System) {
    forall i :: 0 <= i < |s.log| ==> ControllerPast(base, s, i)
  }

  /** Whoever takes itself for the controller has seen every event. */
  lemma ControllerIsUpToDate(base: Rep, s: System, p: Peer)
    requires Inv(base, s) && ControllersPast(base, s) && p in s.replicas && s.replicas[p].controller == p
    ensures UpToDate(s, p)
  {
    var k := s.replicas[p].seqNo - 1;
    assert ReplicaOK(base, s, p);
    assert k < |s.log| ==> ControllerPast(base, s, k);
  }

  /** So no two peers take themselves for it. */
  lemma OneEmitter(base: Rep, s: System, p: Peer, q: Peer)
    requires Inv(base, s) && ControllersPast(base, s) && p in s.replicas && q in s.replicas
    requires s.replicas[p].controller == p && s.replicas[q].controller == q
    ensures p == q
  {
    ControllerIsUpToDate(base, s, p);
    ControllerIsUpToDate(base, s, q);
    assert ReplicaOK(base, s, p) && ReplicaOK(base, s, q);
  }

  lemma EmitKeepsPast(base: Rep, s: System, p: Peer, env: Envelope)
    requires Inv(base, s) && ControllersPast(base, s) && Enabled(s, Emit(p, env)) && s.replicas[p].controller == p
    ensures ControllersPast(base, Appended(s, p, env))
  {
    ControllerIsUpToDate(base, s, p);
    assert ReplicaOK(base, s, p);
    EffectSeq(s.replicas[p], env);
    forall i | 0 <= i <= |s.log| ensures ControllerPast(base, Appended(s, p, env), i) {
      StateAtPrefix(base, s.log, env, i);
      assert i < |s.log| ==> ControllerPast(base, s, i);
    }
  }

  lemma ReplaceKeepsPast(base: Rep, s: System, p: Peer, r: Rep)
    requires ControllersPast(base, s) && (p in s.replicas ==> s.replicas[p].seqNo <= r.seqNo)
    ensures ControllersPast(base, Replaced(s, p, r))
  {
    forall i | 0 <= i < |s.log| ensures ControllerPast(base, Replaced(s, p, r), i) {
      assert ControllerPast(base, s, i);
    }
  }

  lemma StepKeepsPast(base: Rep, s: System, a: Action)
    requires Inv(base, s) && ControllersPast(base, s) && Enabled(s, a)
            && (a.Emit? ==> s.replicas[a.p].controller == a.p)
    ensures ControllersPast(base, Step(s, a))
  {
    match a
    case Emit(p, env) => EmitKeepsPast(base, s, p, env);
    case Deliver(p, i, accepted) =>
      if accepted && s.log[i].seqNo == s.replicas[p].seqNo + 1 {
        EffectSeq(s.replicas[p], s.log[i]);
        ReplaceKeepsPast(base, s, p, Effect(s.replicas[p], s.log[i]));
      }
    case Enter(p, i) => ReplaceKeepsPast(base, s, p, Effect(Bootstrap(s.log[i]), s.log[i]));
    case Forge(_, _, _) => ForgeryFails(s, a);
  }

  /** Every emitter of the first `n` steps was the controller by its own replica. */
  ghost predicate OnlyControllersEmit(states: seq<System>, actions: seq<Action>, n: nat)
    requires n <= |actions| < |states|
  {
    forall i :: 0 <= i < n && actions[i].Emit? ==>
      actions[i].p in states[i].replicas && states[i].replicas[actions[i].p].controller == actions[i].p
  }

  lemma {:induction false} ControllersKeepInv(
        title: string, creator: Peer, nilKeys: bool, states: seq<System>, actions: seq<Action>, n: nat)
    requires IsRun(title, creator, nilKeys, states, actions) && n <= |actions|
            && OnlyControllersEmit(states, actions, n)
    ensures Inv(Created(title, creator), states[n]) && ControllersPast(Created(title, creator), states[n])
    ensures EmittersUpToDate(states, actions, n)
  {
    var base := Created(title, creator);
    if n > 0 {
      ControllersKeepInv(title, creator, nilKeys, states, actions, n - 1);
      assert StepAt(states, actions, n - 1);
      var s, a := states[n - 1], actions[n - 1];
      if a.Emit? {
        ControllerIsUpToDate(base, s, a.p);
      }
      StepKeepsInv(base, s, a);
      StepKeepsPast(base, s, a);
    } else {
      RunKeepsInv(title, creator, nilKeys, states, actions, 0);
    }
  }

  /** In every run in which only controllers emit, however often control is transferred: no two events
      have the same number, at most one peer takes itself for the controller and it has seen every
      event, and two peers at the same number agree on title, controller, epoch and archive state. */
  lemma ControllersNeverFork(
        title: string, creator: Peer, nilKeys: bool, states: seq<System>, actions: seq<Action>, n: nat, p: Peer,
        q: Peer)
    requires IsRun(title, creator, nilKeys, states, actions) && n <= |actions|
            && OnlyControllersEmit(states, actions, n)
    requires p in states[n].replicas && q in states[n].replicas
    ensures var s := states[n];
            && DistinctNumbers(s.log)
            && (s.replicas[p].controller == p ==> UpToDate(s, p))
            && (s.replicas[p].controller == p && s.replicas[q].controller == q ==> p == q)
            && (s.replicas[p].seqNo == s.replicas[q].seqNo ==> SameHeader(s.replicas[p], s.replicas[q]))
  {
    var s, base := states[n], Created(title, creator);
    ControllersKeepInv(title, creator, nilKeys, states, actions, n);
    NumbersDistinct(base, s);
    assert ReplicaOK(base, s, p) && ReplicaOK(base, s, q);
    if s.replicas[p].controller == p {
      ControllerIsUpToDate(base, s, p);
      if s.replicas[q].controller == q {
        OneEmitter(base, s, p, q);
      }
    }
  }

  /** A controller and another active member are at the same number. */
  predicate Ready(s: System, c: Peer, m: Peer) {
    && c in s.replicas && m in s.replicas && c != m && m != ""
    && s.replicas[c].controller == c && !s.replicas[c].archived && !s.replicas[m].archived
    && s.replicas[c].seqNo == s.replicas[m].seqNo
    && m in s.replicas[m].members && s.replicas[m].members[m].state == Active
  }

  function Revoking(s: System, m: Peer, msgID: string, id: string): Action
    requires m in s.replicas
  {
    Emit(m, Envelope(id, s.replicas[m].seqNo + 1, m, m, Revoke(msgID, m)))
  }

  function Renaming(s: System, c: Peer, id: string, title: string): Action
    requires c in s.replicas
  {
    Emit(c, Envelope(id, s.replicas[c].seqNo + 1, c, c, TitleUpdate(title)))
  }

  /** But any active member may revoke a message of its own, and that forks: from every state in which
      it is at the controller's number, first it and then the controller emit, with the same number. */
  lemma MembersCanFork(s: System, c: Peer, m: Peer, msgID: string, id1: string, id2: string, title: string)
    requires Ready(s, c, m) && msgID != ""
    ensures var revoke, rename := Revoking(s, m, msgID, id1), Renaming(s, c, id2, title);
            Enabled(s, revoke) && Enabled(Step(s, revoke), rename)
            && !DistinctNumbers(Step(Step(s, revoke), rename).log)
  {
    var revoke, rename := Revoking(s, m, msgID, id1), Renaming(s, c, id2, title);
    var log := Step(Step(s, revoke), rename).log;
    assert log[|s.log|] == revoke.env && log[|s.log| + 1] == rename.env;
  }
}
