/** Runs of a whole group, from its creation, in which things go wrong: a fork, and a rotation that
    leaves an active member without a key. */
module GroupScenarios {
  import opened Basics
  import opened Text
  import opened GroupLog
  import opened GroupSystem

  // ----- reaching states -----

  ghost predicate Reachable(title: string, creator: Peer, nilKeys: bool, s: System) {
    exists states: seq<System>, actions: seq<Action> ::
      IsRun(title, creator, nilKeys, states, actions) && states[|actions|] == s
  }

  lemma ReachStart(title: string, creator: Peer, nilKeys: bool)
    ensures Reachable(title, creator, nilKeys, System(nilKeys, [], map[creator := Created(title, creator)]))
  {
    assert IsRun(title, creator, nilKeys, [System(nilKeys, [], map[creator := Created(title, creator)])], []);
  }

  lemma ReachStep(title: string, creator: Peer, nilKeys: bool, s: System, a: Action)
    requires Reachable(title, creator, nilKeys, s) && Enabled(s, a)
    ensures Reachable(title, creator, nilKeys, Step(s, a))
  {
    var states, actions :| IsRun(title, creator, nilKeys, states, actions) && states[|actions|] == s;
    var states', actions' := states + [Step(s, a)], actions + [a];
    forall i | 0 <= i < |actions'| ensures StepAt(states', actions', i) {
      assert i < |actions| ==> StepAt(states, actions, i);
    }
    assert IsRun(title, creator, nilKeys, states', actions') && states'[|actions'|] == Step(s, a);
  }

  /** Reached with only controllers emitting and none of them leaving. */
  ghost predicate WellReached(title: string, creator: Peer, nilKeys: bool, s: System) {
    exists states: seq<System>, actions: seq<Action> ::
      && IsRun(title, creator, nilKeys, states, actions) && states[|actions|] == s
      && OnlyControllersEmit(states, actions, |actions|) && NoControllerLeaves(states, actions, |actions|)
  }

  lemma WellStart(title: string, creator: Peer, nilKeys: bool)
    ensures WellReached(title, creator, nilKeys, System(nilKeys, [], map[creator := Created(title, creator)]))
  {
    assert IsRun(title, creator, nilKeys, [System(nilKeys, [], map[creator := Created(title, creator)])], []);
  }

  /** The emitter is the controller by its own replica, and does not leave. */
  predicate Proper(s: System, a: Action) {
    a.Emit? ==> a.p in s.replicas && s.replicas[a.p].controller == a.p && !LeavesController(s.replicas[a.p], a.env)
  }

  lemma WellStep(title: string, creator: Peer, nilKeys: bool, s: System, a: Action)
    requires WellReached(title, creator, nilKeys, s) && Enabled(s, a) && Proper(s, a)
    ensures WellReached(title, creator, nilKeys, Step(s, a))
  {
    var states, actions :|
      && IsRun(title, creator, nilKeys, states, actions) && states[|actions|] == s
      && OnlyControllersEmit(states, actions, |actions|) && NoControllerLeaves(states, actions, |actions|);
    var states', actions' := states + [Step(s, a)], actions + [a];
    forall i | 0 <= i < |actions'| ensures StepAt(states', actions', i) {
      assert i < |actions| ==> StepAt(states, actions, i);
    }
    assert forall i :: 0 <= i < |actions| ==> actions'[i] == actions[i] && states'[i] == states[i];
    assert IsRun(title, creator, nilKeys, states', actions') && states'[|actions'|] == Step(s, a);
    assert OnlyControllersEmit(states', actions', |actions'|) && NoControllerLeaves(states', actions', |actions'|);
  }

  lemma WellEmit(title: string, creator: Peer, nilKeys: bool, s: System, p: Peer, env: Envelope, r: Rep, s': System)
    requires WellReached(title, creator, nilKeys, s) && p in s.replicas && s.replicas[p].controller == p == env.signer
    requires Emits(s.replicas[p], s.nilKeys, env) && !LeavesController(s.replicas[p], env)
    requires Effect(s.replicas[p], env) == r
    requires s' == System(s.nilKeys, s.log + [env], s.replicas[p := r])
    ensures WellReached(title, creator, nilKeys, s')
  {
    WellStep(title, creator, nilKeys, s, Emit(p, env));
  }

  lemma WellDeliver(title: string, creator: Peer, nilKeys: bool, s: System, p: Peer, i: nat, r: Rep, s': System)
    requires WellReached(title, creator, nilKeys, s) && p in s.replicas && i < |s.log|
    requires s.log[i].seqNo == s.replicas[p].seqNo + 1 && Effect(s.replicas[p], s.log[i]) == r
    requires s' == System(s.nilKeys, s.log, s.replicas[p := r])
    ensures WellReached(title, creator, nilKeys, s')
  {
    WellStep(title, creator, nilKeys, s, Deliver(p, i, true));
  }

  lemma WellEnter(title: string, creator: Peer, nilKeys: bool, s: System, p: Peer, i: nat, r: Rep, s': System)
    requires WellReached(title, creator, nilKeys, s) && p !in s.replicas && i < |s.log|
    requires s.log[i].payload.Invite? && s.log[i].seqNo >= 1 && Effect(Bootstrap(s.log[i]), s.log[i]) == r
    requires s' == System(s.nilKeys, s.log, s.replicas[p := r])
    ensures WellReached(title, creator, nilKeys, s')
  {
    WellStep(title, creator, nilKeys, s, Enter(p, i));
  }

  // ----- a fork -----

  function Invitation(title: string, c: Peer, m: Peer): Envelope {
    Envelope("invite", 2, c, c, Invite(m, Member, 1, title, c, [c, m], [0]))
  }

  function Joining(c: Peer, m: Peer): Envelope {
    Envelope("join", 3, m, c, Join(m, 1))
  }

  lemma InvitationEmitted(title: string, nilKeys: bool, c: Peer, m: Peer)
    requires Clean(m) && c != m
    ensures Emits(Created(title, c), nilKeys, Invitation(title, c, m))
  {
    assert ActivePeers(Created(title, c)) == {c};
    assert SetOf([c, m]) == {c, m};
  }

  lemma BootstrapListsInvitee(title: string, c: Peer, m: Peer)
    requires Clean(m)
    ensures m in Effect(Bootstrap(Invitation(title, c, m)), Invitation(title, c, m)).members
  {
  }

  /** A group is created, its first member invited, enters, joins. */
  function Asked(title: string, nilKeys: bool, c: Peer, m: Peer): System {
    Appended(System(nilKeys, [], map[c := Created(title, c)]), c, Invitation(title, c, m))
  }

  function Entered(title: string, nilKeys: bool, c: Peer, m: Peer): System {
    Replaced(Asked(title, nilKeys, c, m), m, Guest(title, c, m))
  }

  function Guest(title: string, c: Peer, m: Peer): Rep {
    Effect(Bootstrap(Invitation(title, c, m)), Invitation(title, c, m))
  }

  function Admitted(title: string, nilKeys: bool, c: Peer, m: Peer): System {
    Appended(Entered(title, nilKeys, c, m), c, Joining(c, m))
  }

  function Joined(title: string, nilKeys: bool, c: Peer, m: Peer): System {
    Replaced(Admitted(title, nilKeys, c, m), m, Effect(Guest(title, c, m), Joining(c, m)))
  }

  lemma ReachEntered(title: string, nilKeys: bool, c: Peer, m: Peer)
    requires Clean(m) && c != m
    ensures Reachable(title, c, nilKeys, Entered(title, nilKeys, c, m))
  {
    ReachStart(title, c, nilKeys);
    InvitationEmitted(title, nilKeys, c, m);
    ReachStep(title, c, nilKeys, System(nilKeys, [], map[c := Created(title, c)]), Emit(c, Invitation(title, c, m)));
    ReachStep(title, c, nilKeys, Asked(title, nilKeys, c, m), Enter(m, 0));
  }

  lemma ReachAdmitted(title: string, nilKeys: bool, c: Peer, m: Peer)
    requires Clean(m) && c != m
    ensures Reachable(title, c, nilKeys, Admitted(title, nilKeys, c, m))
  {
    ReachEntered(title, nilKeys, c, m);
    ReachStep(title, c, nilKeys, Entered(title, nilKeys, c, m), Emit(c, Joining(c, m)));
  }

  lemma ReachJoined(title: string, nilKeys: bool, c: Peer, m: Peer)
    requires Clean(m) && c != m
    ensures Reachable(title, c, nilKeys, Joined(title, nilKeys, c, m))
  {
    ReachAdmitted(title, nilKeys, c, m);
    ReachStep(title, c, nilKeys, Admitted(title, nilKeys, c, m), Deliver(m, 1, true));
  }

  lemma JoinedIsReady(title: string, nilKeys: bool, c: Peer, m: Peer)
    requires Clean(m) && c != m
    ensures Ready(Joined(title, nilKeys, c, m), c, m)
  {
    BootstrapListsInvitee(title, c, m);
  }

  /** So there are runs with a fork. */
  lemma ForkReachable(title: string, nilKeys: bool, c: Peer, m: Peer, msgID: string)
    requires Clean(m) && c != m && msgID != ""
    ensures exists s :: Reachable(title, c, nilKeys, s) && !DistinctNumbers(s.log)
  {
    ReachJoined(title, nilKeys, c, m);
    JoinedIsReady(title, nilKeys, c, m);
    ForkFrom(title, c, nilKeys, Joined(title, nilKeys, c, m), m, msgID);
  }

  lemma ForkFrom(title: string, c: Peer, nilKeys: bool, s: System, m: Peer, msgID: string)
    requires Reachable(title, c, nilKeys, s) && Ready(s, c, m) && msgID != ""
    ensures exists s' :: Reachable(title, c, nilKeys, s') && !DistinctNumbers(s'.log)
  {
    var revoke, rename := Revoking(s, m, msgID, "revoke"), Renaming(s, c, "rename", title);
    MembersCanFork(s, c, m, msgID, "revoke", "rename", title);
    ReachStep(title, c, nilKeys, s, revoke);
    ReachStep(title, c, nilKeys, Step(s, revoke), rename);
  }

  // ----- a member without a key -----

  /** The creator `c` invites `a` and then `b`; both join; `b`, whose replica does not list `a`, is given
      control. */
  datatype Cast = Cast(title: string, nilKeys: bool, c: Peer, a: Peer, b: Peer, key: Bytes)

  predicate Three(t: Cast) {
    Clean(t.c) && Clean(t.a) && Clean(t.b) && t.c != t.a && t.c != t.b && t.a != t.b
  }

  function InviteA(t: Cast): Envelope {
    Envelope("1", 2, t.c, t.c, Invite(t.a, Member, 1, t.title, t.c, [t.c, t.a], t.key))
  }

  function InviteB(t: Cast): Envelope {
    Envelope("2", 3, t.c, t.c, Invite(t.b, Member, 1, t.title, t.c, [t.c, t.b], t.key))
  }

  function JoinA(t: Cast): Envelope {
    Envelope("3", 4, t.a, t.c, Join(t.a, 1))
  }

  function JoinB(t: Cast): Envelope {
    Envelope("4", 5, t.b, t.c, Join(t.b, 1))
  }

  function Handover(t: Cast): Envelope {
    Envelope("5", 6, t.c, t.c, Transfer(t.c, t.b, 2, map[t.c := t.key, t.a := t.key, t.b := t.key]))
  }

  /** The rotation that leaves `a` out: `b` hands control back. */
  function Return(t: Cast): Envelope {
    Envelope("6", 7, t.b, t.b, Transfer(t.b, t.c, 3, map[t.c := t.key, t.b := t.key]))
  }

  const CREATOR := MemberRow(Controller, Active, "", 1, 0)

  function Waiting(t: Cast): MemberRow { MemberRow(Member, Invited, t.c, 0, 0) }

  function Present(t: Cast): MemberRow { MemberRow(Member, Active, t.c, 1, 0) }

  /** The creator's replica after each event. */
  function C2(t: Cast): Rep { Rep(t.title, t.c, 1, 0, false, 2, map[t.c := CREATOR, t.a := Waiting(t)]) }

  function C3(t: Cast): Rep {
    Rep(t.title, t.c, 1, 0, false, 3, map[t.c := CREATOR, t.a := Waiting(t), t.b := Waiting(t)])
  }

  function C4(t: Cast): Rep {
    Rep(t.title, t.c, 1, 0, false, 4, map[t.c := CREATOR, t.a := Present(t), t.b := Waiting(t)])
  }

  function C5(t: Cast): Rep {
    Rep(t.title, t.c, 1, 0, false, 5, map[t.c := CREATOR, t.a := Present(t), t.b := Present(t)])
  }

  function C6(t: Cast): Rep {
    Rep(t.title, t.b, 2, 0, false, 6,
        map[t.c := CREATOR.(role := Member), t.a := Present(t), t.b := Present(t).(role := Controller)])
  }

  /** The replica of `b` from its invite on. */
  function B3(t: Cast): Rep {
    Rep(t.title, t.c, 1, 0, false, 3, map[t.c := MemberRow(Controller, Active, t.c, 0, 0), t.b := Waiting(t)])
  }

  function B5(t: Cast): Rep {
    Rep(t.title, t.c, 1, 0, false, 5, map[t.c := MemberRow(Controller, Active, t.c, 0, 0), t.b := Present(t)])
  }

  function B6(t: Cast): Rep {
    Rep(t.title, t.b, 2, 0, false, 6,
        map[t.c := MemberRow(Member, Active, t.c, 0, 0), t.b := Present(t).(role := Controller)])
  }

  lemma HostInvites(t: Cast)
    requires Three(t)
    ensures Emits(Created(t.title, t.c), t.nilKeys, InviteA(t)) && Effect(Created(t.title, t.c), InviteA(t)) == C2(t)
    ensures Emits(C2(t), t.nilKeys, InviteB(t)) && Effect(C2(t), InviteB(t)) == C3(t)
  {
    assert ActivePeers(Created(t.title, t.c)) == {t.c} == ActivePeers(C2(t));
    assert SetOf([t.c, t.a]) == {t.c, t.a} && SetOf([t.c, t.b]) == {t.c, t.b};
  }

  lemma HostAdmits(t: Cast)
    requires Three(t)
    ensures Emits(C3(t), t.nilKeys, JoinA(t)) && Effect(C3(t), JoinA(t)) == C4(t)
    ensures Emits(C4(t), t.nilKeys, JoinB(t)) && Effect(C4(t), JoinB(t)) == C5(t)
  {
  }

  lemma HostTransfers(t: Cast)
    requires Three(t)
    ensures Emits(C5(t), t.nilKeys, Handover(t)) && Effect(C5(t), Handover(t)) == C6(t)
  {
    assert ActivePeers(C5(t)) == {t.c, t.a, t.b};
    assert C5(t).members[t.c := CREATOR.(role := Member)][t.b := Present(t).(role := Controller)] == C6(t).members;
  }

  lemma GuestEnters(t: Cast)
    requires Three(t)
    ensures Effect(Bootstrap(InviteB(t)), InviteB(t)) == B3(t)
  {
    GuestLists(t);
    assert BootstrapMembers({t.c, t.b}, t.c, t.b).Keys == {t.c, t.b};
    assert Effect(Bootstrap(InviteB(t)), InviteB(t)).members == B3(t).members;
  }

  lemma GuestLists(t: Cast)
    requires Three(t)
    ensures UniqueSet([t.c] + [t.c, t.b]) == {t.c, t.b}
  {
    var listed := [t.c] + [t.c, t.b];
    assert forall x :: x in listed <==> x == t.c || x == t.b;
    UniqueOfClean(listed);
    assert SetOf(listed) == {t.c, t.b};
  }

  lemma GuestFollows(t: Cast)
    requires Three(t)
    ensures Effect(B3(t), JoinA(t)) == B3(t).(seqNo := 4)
    ensures Effect(B3(t).(seqNo := 4), JoinB(t)) == B5(t)
    ensures Effect(B5(t), Handover(t)) == B6(t)
  {
    var before := B5(t).members;
    assert before[t.c := MemberRow(Member, Active, t.c, 0, 0)][t.b := Present(t).(role := Controller)] == B6(t).members;
  }

  /** `b` may emit the rotation; `a` is active before and after it and gets no key. */
  lemma GuestRotates(t: Cast)
    requires Three(t)
    ensures Emits(B6(t), t.nilKeys, Return(t))
    ensures t.a in ActivePeers(Effect(C6(t), Return(t))) && t.a !in RotationKeys(Return(t))
  {
    assert ActivePeers(B6(t)) == {t.c, t.b};
  }

  /** The states of the run: how many events there are, and the two replicas. */
  function Log(t: Cast, n: nat): seq<Envelope>
    requires n <= 5
  {
    [InviteA(t), InviteB(t), JoinA(t), JoinB(t), Handover(t)][..n]
  }

  function Single(t: Cast, n: nat, host: Rep): System
    requires n <= 5
  {
    System(t.nilKeys, Log(t, n), map[t.c := host])
  }

  function Pair(t: Cast, n: nat, host: Rep, guest: Rep): System
    requires n <= 5
  {
    System(t.nilKeys, Log(t, n), map[t.c := host, t.b := guest])
  }

  lemma LogSnoc(t: Cast, n: nat)
    requires n < 5
    ensures Log(t, n + 1) == Log(t, n) + [[InviteA(t), InviteB(t), JoinA(t), JoinB(t), Handover(t)][n]]
  {
  }

  lemma Reach1(t: Cast)
    requires Three(t)
    ensures WellReached(t.title, t.c, t.nilKeys, Single(t, 1, C2(t)))
  {
    WellStart(t.title, t.c, t.nilKeys);
    HostInvites(t);
    LogSnoc(t, 0);
    WellEmit(t.title, t.c, t.nilKeys, Single(t, 0, Created(t.title, t.c)), t.c, InviteA(t), C2(t), Single(t, 1, C2(t)));
  }

  lemma Reach2(t: Cast)
    requires Three(t)
    ensures WellReached(t.title, t.c, t.nilKeys, Single(t, 2, C3(t)))
  {
    Reach1(t);
    HostInvites(t);
    LogSnoc(t, 1);
    WellEmit(t.title, t.c, t.nilKeys, Single(t, 1, C2(t)), t.c, InviteB(t), C3(t), Single(t, 2, C3(t)));
  }

  lemma Reach3(t: Cast)
    requires Three(t)
    ensures WellReached(t.title, t.c, t.nilKeys, Pair(t, 2, C3(t), B3(t)))
  {
    Reach2(t);
    GuestEnters(t);
    WellEnter(t.title, t.c, t.nilKeys, Single(t, 2, C3(t)), t.b, 1, B3(t), Pair(t, 2, C3(t), B3(t)));
  }

  lemma HostReplaced(t: Cast, host: Rep, guest: Rep, host': Rep)
    requires Three(t)
    ensures var m := map[t.c := host, t.b := guest];
            m[t.c] == host && m[t.c := host'] == map[t.c := host', t.b := guest]
  {
  }

  /** With the guest entered, the host emits one more event. */
  lemma HostEmits(t: Cast, n: nat, host: Rep, env: Envelope, host': Rep, guest: Rep)
    requires Three(t) && n < 5 && WellReached(t.title, t.c, t.nilKeys, Pair(t, n, host, guest))
    requires host.controller == t.c == env.signer && Emits(host, t.nilKeys, env) && !LeavesController(host, env)
    requires Effect(host, env) == host' && Log(t, n + 1) == Log(t, n) + [env]
    ensures WellReached(t.title, t.c, t.nilKeys, Pair(t, n + 1, host', guest))
  {
    var s, s' := Pair(t, n, host, guest), Pair(t, n + 1, host', guest);
    HostReplaced(t, host, guest, host');
    WellEmit(t.title, t.c, t.nilKeys, s, t.c, env, host', s');
  }

  lemma Reach4(t: Cast)
    requires Three(t)
    ensures WellReached(t.title, t.c, t.nilKeys, Pair(t, 3, C4(t), B3(t)))
  {
    Reach3(t);
    HostAdmits(t);
    LogSnoc(t, 2);
    HostEmits(t, 2, C3(t), JoinA(t), C4(t), B3(t));
  }

  lemma Reach5(t: Cast)
    requires Three(t)
    ensures WellReached(t.title, t.c, t.nilKeys, Pair(t, 4, C5(t), B3(t)))
  {
    Reach4(t);
    HostAdmits(t);
    LogSnoc(t, 3);
    HostEmits(t, 3, C4(t), JoinB(t), C5(t), B3(t));
  }

  lemma Reach6(t: Cast)
    requires Three(t)
    ensures WellReached(t.title, t.c, t.nilKeys, Pair(t, 5, C6(t), B3(t)))
  {
    Reach5(t);
    HostTransfers(t);
    LogSnoc(t, 4);
    HostEmits(t, 4, C5(t), Handover(t), C6(t), B3(t));
  }

  lemma Follow(t: Cast, i: nat, guest: Rep, guest': Rep)
    requires Three(t) && i < 5 && WellReached(t.title, t.c, t.nilKeys, Pair(t, 5, C6(t), guest))
    requires Log(t, 5)[i].seqNo == guest.seqNo + 1 && Effect(guest, Log(t, 5)[i]) == guest'
    ensures WellReached(t.title, t.c, t.nilKeys, Pair(t, 5, C6(t), guest'))
  {
    WellDeliver(t.title, t.c, t.nilKeys, Pair(t, 5, C6(t), guest), t.b, i, guest', Pair(t, 5, C6(t), guest'));
  }

  function HandedOver(t: Cast): System { Pair(t, 5, C6(t), B6(t)) }

  lemma ReachHandedOver(t: Cast)
    requires Three(t)
    ensures WellReached(t.title, t.c, t.nilKeys, HandedOver(t))
  {
    Reach6(t);
    GuestFollows(t);
    Follow(t, 2, B3(t), B3(t).(seqNo := 4));
    Follow(t, 3, B3(t).(seqNo := 4), B5(t));
    Follow(t, 4, B5(t), B6(t));
  }

  /** In a fork-free run in which only controllers emit and none leaves, the up-to-date controller can
      emit a rotation that hands an active member no key, because its replica does not list it. */
  lemma ActiveMemberGetsNoKey(t: Cast)
    requires Three(t)
    ensures var s := HandedOver(t);
            && WellReached(t.title, t.c, t.nilKeys, s) && DistinctNumbers(s.log)
            && UpToDate(s, t.b) && s.replicas[t.b].controller == t.b && Enabled(s, Emit(t.b, Return(t)))
            && t.a in ActivePeers(Effect(s.replicas[t.c], Return(t))) && t.a !in RotationKeys(Return(t))
            && t.a !in s.replicas[t.b].members
  {
    ReachHandedOver(t);
    NumbersOf(t);
    GuestRotates(t);
  }

  lemma NumbersOf(t: Cast)
    ensures DistinctNumbers(Log(t, 5))
  {
    assert forall i :: 0 <= i < 5 ==> Log(t, 5)[i].seqNo == i + 2;
  }

  /** Where absent keys cannot be stored, a member without a key refuses the rotation and stays behind. */
  lemma KeylessMemberStaysBehind(t: Cast, r: Rep, l: Local)
    requires Three(t) && l.self == t.a && !l.nilKeys
    ensures Receive((r, l), Return(t)) == (r, l)
  {
  }
}
