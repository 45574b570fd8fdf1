/** One peer's copy of one group: the rows of the group tables, the transactions that update them
    one statement at a time and roll back, the handler for incoming control events, and the local
    commands. Each is tied to the log model: handling an event is `Receive`, and a command leaves
    the state that receiving its own event would have left. */
module GroupReplica {
  import opened Basics
  import opened Text
  import opened GroupLog
  import Authority = GroupAuthority

  const MAX_TITLE_LEN := 64

  /** A row of `group_members` as the store lists it. */
  datatype Listed = Listed(peer: Peer, row: MemberRow)

  // ----- lists of peers -----

  /** Trimmed, without empty ones, each at its first occurrence. */
  function Unique(peers: seq<Peer>): seq<Peer> {
    if peers == [] then []
    else
      var before, p := Unique(peers[..|peers| - 1]), TrimSpace(peers[|peers| - 1]);
      if p == "" || p in before then before else before + [p]
  }

  lemma {:induction false} UniqueFacts(peers: seq<Peer>)
    ensures SetOf(Unique(peers)) == UniqueSet(peers) && Distinct(Unique(peers))
  {
    if peers != [] {
      var rest, last := peers[..|peers| - 1], peers[|peers| - 1];
      UniqueFacts(rest);
      assert peers == rest + [last];
      assert UniqueSet(peers) == UniqueSet(rest) + if TrimSpace(last) == "" then {} else {TrimSpace(last)};
      assert forall q :: q in Unique(rest) <==> q in SetOf(Unique(rest));
      assert forall q :: q in Unique(peers) <==> q in UniqueSet(peers);
    }
  }

  method UniquePeers(peers: seq<Peer>) returns (out: seq<Peer>)
    ensures out == Unique(peers) && SetOf(out) == UniqueSet(peers) && Distinct(out)
  {
    var seen: set<Peer> := {};
    out := [];
    for i := 0 to |peers|
      invariant seen == SetOf(out) && out == Unique(peers[..i])
    {
      var p := TrimSpace(peers[i]);
      assert peers[..i + 1][..i] == peers[..i];
      assert forall q :: q in out <==> q in SetOf(out);
      if p != "" && p !in seen {
        seen := seen + {p};
        out := out + [p];
      }
    }
    assert peers[..|peers|] == peers;
    UniqueFacts(peers);
  }

  /** The active peers among some rows, without the excluded ones, in the order of the rows. */
  function ActiveList(rows: seq<Listed>, excluded: set<Peer>): seq<Peer> {
    if rows == [] then []
    else
      var before, m := ActiveList(rows[..|rows| - 1], excluded), rows[|rows| - 1];
      if m.row.state == Active && m.peer !in excluded then before + [m.peer] else before
  }

  lemma {:induction false} ActiveListMembers(rows: seq<Listed>, excluded: set<Peer>)
    ensures forall p :: p in ActiveList(rows, excluded) <==>
              exists m :: m in rows && m.peer == p && m.row.state == Active && p !in excluded
  {
    if rows != [] {
      ActiveListMembers(rows[..|rows| - 1], excluded);
      assert rows == rows[..|rows| - 1] + [rows[|rows| - 1]];
    }
  }

  method ActivePeerIDsExcluding(rows: seq<Listed>, excluded: set<Peer>) returns (out: seq<Peer>)
    ensures out == Unique(ActiveList(rows, excluded))
  {
    var ids: seq<Peer> := [];
    for i := 0 to |rows|
      invariant ids == ActiveList(rows[..i], excluded)
    {
      assert rows[..i + 1][..i] == rows[..i];
      if rows[i].row.state == Active && rows[i].peer !in excluded {
        ids := ids + [rows[i].peer];
      }
    }
    assert rows[..|rows|] == rows;
    out := UniquePeers(ids);
  }

  /** One fresh key, handed to every listed peer. */
  method GenerateEpochKeys(peers: seq<Peer>, key: Bytes) returns (keys: Keys)
    ensures keys.Keys == UniqueSet(peers)
    ensures forall p :: p in keys ==> keys[p] == key
  {
    keys := map[];
    var unique := UniquePeers(peers);
    for i := 0 to |unique|
      invariant keys.Keys == SetOf(unique[..i])
      invariant forall p :: p in keys ==> keys[p] == key
    {
      keys := keys[unique[i] := key];
      assert unique[..i + 1] == unique[..i] + [unique[i]];
    }
    assert unique[..|unique|] == unique;
  }

  // ----- names -----

  function Utf8Length(s: string): nat {
    if s == "" then 0
    else (var c := s[0] as int; if c < 0x80 then 1 else if c < 0x800 then 2 else if c < 0x10000 then 3 else 4)
         + Utf8Length(s[1..])
  }

  function NormalizeTitle(title: string): Result<string> {
    var t := TrimSpace(title);
    if t == "" || Utf8Length(t) > MAX_TITLE_LEN then Err else Ok(t)
  }

  function NormalizeInviteRole(role: string): Result<Role> {
    var r := TrimSpace(role);
    if r == "" || r == "member" then Ok(Member) else if r == "admin" then Ok(Admin) else Err
  }

  /** A title is what is left of it without surrounding space, if that is 1 to 64 bytes long. */
  lemma TitleIs(title: string)
    ensures NormalizeTitle(title).Ok? <==> 1 <= Utf8Length(TrimSpace(title)) <= 64
    ensures NormalizeTitle(title).Ok? ==> NormalizeTitle(title).value == TrimSpace(title)
  {
    Utf8Is(TrimSpace(title), "");
  }

  /** Lengths in bytes: by code point, and additive. */
  lemma {:induction false} Utf8Is(s: string, t: string)
    ensures Utf8Length(s + t) == Utf8Length(s) + Utf8Length(t) && (Utf8Length(s) == 0 <==> s == "")
    ensures |s| == 1 ==>
              var c := s[0] as int;
              Utf8Length(s) == if c <= 127 then 1 else if c <= 2047 then 2 else if c <= 65535 then 3 else 4
  {
    if s == "" {
      assert s + t == t;
    } else {
      Utf8Is(s[1..], t);
      assert (s + t)[1..] == s[1..] + t;
    }
  }

  /** No role and "member" mean a member, "admin" an admin, anything else is an error. */
  lemma InviteRoleIs(role: string)
    ensures NormalizeInviteRole(role) == Ok(Admin) <==> TrimSpace(role) == "admin"
    ensures NormalizeInviteRole(role) == Ok(Member) <==> TrimSpace(role) in {"", "member"}
    ensures NormalizeInviteRole(role).Ok? ==> NormalizeInviteRole(role).value in {Admin, Member}
  {
  }

  lemma MemberRole()
    ensures NormalizeInviteRole("member") == Ok(Member)
  {
    TrimSpaceClean("member");
  }

  /** What an outgoing message may be in: only sent messages are revoked by an event. */
  datatype SendState = LocalOnly | QueuedForRetry | Sent

  /** A row of `groups`. */
  datatype Header = Header(title: string, controller: Peer, epoch: nat, retention: int, archived: bool, lastSeq: nat)

  class Replica {
    const self: Peer
    const groupID: string
    /** Whether the database driver stores an absent key as an empty blob or as a refused NULL. */
    const nilKeys: bool

    /** The `groups` row, when there is one. */
    var present: bool
    var row: Header
    var members: map<Peer, MemberRow>
    var epochs: map<nat, Bytes>
    var eventIDs: set<string>
    var eventSeqs: set<nat>
    var messages: map<string, MessageRow>

    ghost function View(): Rep
      reads this
    {
      Rep(row.title, row.controller, row.epoch, row.retention, row.archived, row.lastSeq, members)
    }

    ghost function Tables(): Local
      reads this
    {
      Local(self, groupID, nilKeys, epochs, eventIDs, eventSeqs, messages)
    }

    ghost function State(): (Rep, Local)
      reads this
    {
      (View(), Tables())
    }

    /** A group without a row has no member, epoch or event rows either. */
    ghost predicate Valid()
      reads this
    {
      !present ==> members == map[] && epochs == map[] && eventSeqs == {}
    }

    constructor (self: Peer, groupID: string, nilKeys: bool)
      ensures Valid() && !present
      ensures Tables() == Local(self, groupID, nilKeys, map[], {}, {}, map[])
    {
      this.self, this.groupID, this.nilKeys := self, groupID, nilKeys;
      present, row := false, Header("", "", 0, 0, false, 0);
      members, epochs, eventIDs, eventSeqs, messages := map[], map[], {}, {}, map[];
    }

    // ----- statements -----

    method InsertEvent(env: Envelope) returns (ok: bool)
      modifies this`eventIDs, this`eventSeqs
      ensures ok == old(env.eventID !in eventIDs && env.seqNo !in eventSeqs)
      ensures Tables() == if ok then EventStored(old(Tables()), env) else old(Tables())
    {
      ok := env.eventID !in eventIDs && env.seqNo !in eventSeqs;
      if ok {
        eventIDs, eventSeqs := eventIDs + {env.eventID}, eventSeqs + {env.seqNo};
      }
    }

    method InsertEpoch(e: nat, keys: Keys) returns (ok: bool)
      modifies this`epochs
      ensures ok == (e !in old(epochs) && KeyStorable(old(Tables()), keys))
      ensures epochs == if ok then old(epochs)[e := KeyFor(old(Tables()), keys)] else old(epochs)
    {
      ok := e !in epochs && (self in keys || nilKeys);
      if ok {
        epochs := epochs[e := if self in keys then keys[self] else []];
      }
    }

    method ListMembers() returns (rows: seq<Listed>)
      ensures forall m :: m in rows <==> m.peer in members && members[m.peer] == m.row
    {
      rows := [];
      var rest := members.Keys;
      while rest != {}
        invariant rest <= members.Keys
        invariant forall m :: m in rows <==> m.peer in members && members[m.peer] == m.row && m.peer !in rest
        decreases rest
      {
        var p :| p in rest;
        rows := rows + [Listed(p, members[p])];
        rest := rest - {p};
      }
    }

    // ----- transactions -----

    /** Inserts the group, its members, its first event and its first epoch, or nothing. */
    method StoreCreate(title: string, controller: Peer, epoch: nat, lastSeq: nat, rows: seq<Listed>,
                       eventID: string, eventSeq: nat, keys: Keys)
      returns (ok: bool, duplicate: bool)
      requires Valid() && !present
      modifies this
      ensures Valid()
      ensures duplicate == !(DistinctPeers(rows) && eventID !in old(eventIDs))
      ensures ok == present == (DistinctPeers(rows) && eventID !in old(eventIDs) && KeyStorable(old(Tables()), keys))
      ensures !ok ==> State() == old(State())
      ensures ok ==> View() == Rep(title, controller, epoch, 0, false, lastSeq, RowsOf(rows))
      ensures ok ==> Tables() == old(Tables()).(epochs := map[epoch := KeyFor(old(Tables()), keys)],
                                               eventIDs := old(eventIDs) + {eventID}, eventSeqs := {eventSeq})
    {
      var i := 0;
      while i < |rows| && rows[i].peer !in members
        invariant 0 <= i <= |rows| && DistinctPeers(rows[..i]) && members == RowsOf(rows[..i])
        invariant View() == old(View()).(members := members) && Tables() == old(Tables())
        invariant present == old(present)
      {
        RowsOfSnoc(rows, i);
        members := members[rows[i].peer := rows[i].row];
        i := i + 1;
      }
      if i < |rows| {
        NotDistinct(rows, i);
        members := map[];
        return false, true;
      }
      assert rows[..|rows|] == rows;
      if eventID in eventIDs {
        members := map[];
        return false, true;
      }
      duplicate := false;
      ok := InsertEpoch(epoch, keys);
      if !ok {
        members := map[];
        return;
      }
      eventIDs, eventSeqs := eventIDs + {eventID}, eventSeqs + {eventSeq};
      present, row := true, Header(title, controller, epoch, 0, false, lastSeq);
    }

    method UpsertMember(p: Peer, member: MemberRow, env: Envelope) returns (ok: bool)
      modifies this`members, this`eventIDs, this`eventSeqs, this`row
      ensures ok == old(EventRowFits(Tables(), env))
      ensures !ok ==> State() == old(State())
      ensures ok ==> View() == old(View()).(members := old(members)[p := member], seqNo := env.seqNo)
      ensures ok ==> Tables() == EventStored(old(Tables()), env)
    {
      var before := members;
      members := members[p := member];
      ok := InsertEvent(env);
      if !ok {
        members := before;
        return;
      }
      row := row.(lastSeq := env.seqNo);
    }

    method ActivateMember(p: Peer, joinedEpoch: nat, env: Envelope) returns (ok: bool)
      modifies this`members, this`eventIDs, this`eventSeqs, this`row
      ensures ok == old(EventRowFits(Tables(), env))
      ensures !ok ==> State() == old(State())
      ensures ok ==> View() == old(View()).(members := Activate(old(members), p, joinedEpoch), seqNo := env.seqNo)
      ensures ok ==> Tables() == EventStored(old(Tables()), env)
    {
      var before := members;
      members := Activate(members, p, joinedEpoch);
      ok := InsertEvent(env);
      if !ok {
        members := before;
        return;
      }
      row := row.(lastSeq := env.seqNo);
    }

    method FinishMembershipChange(p: Peer, state: MemberState, leftEpoch: nat, newEpoch: nat, keys: Keys, env: Envelope)
      returns (ok: bool)
      modifies this`members, this`epochs, this`eventIDs, this`eventSeqs, this`row
      ensures ok == old(newEpoch !in epochs && KeyStorable(Tables(), keys) && EventRowFits(Tables(), env))
      ensures !ok ==> State() == old(State())
      ensures ok ==>
              View() == old(View()).(members := SetState(old(members), p, state, leftEpoch), epoch := newEpoch,
                  seqNo := env.seqNo)
      ensures ok ==>
              Tables() == EventStored(old(Tables()), env).(
                            epochs := old(epochs)[newEpoch := KeyFor(old(Tables()), keys)])
    {
      var membersBefore, epochsBefore := members, epochs;
      members := SetState(members, p, state, leftEpoch);
      ok := InsertEpoch(newEpoch, keys);
      if !ok {
        members := membersBefore;
        return;
      }
      ok := InsertEvent(env);
      if !ok {
        members, epochs := membersBefore, epochsBefore;
        return;
      }
      row := row.(epoch := newEpoch, lastSeq := env.seqNo);
    }

    method StoreTransfer(a: Peer, b: Peer, newEpoch: nat, keys: Keys, env: Envelope) returns (ok: bool)
      modifies this`members, this`epochs, this`eventIDs, this`eventSeqs, this`row
      ensures ok == old(newEpoch !in epochs && KeyStorable(Tables(), keys) && EventRowFits(Tables(), env))
      ensures !ok ==> State() == old(State())
      ensures ok ==> View() == old(View()).(members := SetRole(SetRole(old(members), a, Member), b, Controller),
                                            controller := b, epoch := newEpoch, seqNo := env.seqNo)
      ensures ok ==>
              Tables() == EventStored(old(Tables()), env).(
                            epochs := old(epochs)[newEpoch := KeyFor(old(Tables()), keys)])
    {
      var membersBefore, epochsBefore, rowBefore := members, epochs, row;
      members := SetRole(members, a, Member);
      members := SetRole(members, b, Controller);
      ok := InsertEpoch(newEpoch, keys);
      if !ok {
        members := membersBefore;
        return;
      }
      row := row.(controller := b, epoch := newEpoch, lastSeq := env.seqNo);
      ok := InsertEvent(env);
      if !ok {
        members, epochs, row := membersBefore, epochsBefore, rowBefore;
      }
    }

    method StoreTitle(title: string, env: Envelope) returns (ok: bool)
      modifies this`row, this`eventIDs, this`eventSeqs
      ensures ok == old(EventRowFits(Tables(), env))
      ensures !ok ==> State() == old(State())
      ensures ok ==> View() == old(View()).(title := title, seqNo := env.seqNo)
      ensures ok ==> Tables() == EventStored(old(Tables()), env)
    {
      var rowBefore := row;
      row := row.(title := title, lastSeq := env.seqNo);
      ok := InsertEvent(env);
      if !ok {
        row := rowBefore;
      }
    }

    method StoreRetention(minutes: int, env: Envelope) returns (ok: bool)
      modifies this`row, this`eventIDs, this`eventSeqs
      ensures ok == old(0 <= minutes <= 525_600 && EventRowFits(Tables(), env))
      ensures !ok ==> State() == old(State())
      ensures ok ==> View() == old(View()).(retention := minutes, seqNo := env.seqNo)
      ensures ok ==> Tables() == EventStored(old(Tables()), env)
    {
      if minutes != 0 && (minutes < MIN_RETENTION || minutes > MAX_RETENTION) {
        return false;
      }
      var rowBefore := row;
      row := row.(retention := minutes, lastSeq := env.seqNo);
      ok := InsertEvent(env);
      if !ok {
        row := rowBefore;
      }
    }

    method StoreDissolve(env: Envelope) returns (ok: bool)
      modifies this`row, this`eventIDs, this`eventSeqs, this`messages
      ensures ok == old(EventRowFits(Tables(), env))
      ensures !ok ==> State() == old(State())
      ensures ok ==> View() == old(View()).(archived := true, seqNo := env.seqNo)
      ensures ok ==> Tables() == EventStored(old(Tables()), env).(messages := NotOf(old(messages), groupID))
    {
      var rowBefore, messagesBefore := row, messages;
      row := row.(archived := true, lastSeq := env.seqNo);
      messages := NotOf(messages, groupID);
      ok := InsertEvent(env);
      if !ok {
        row, messages := rowBefore, messagesBefore;
      }
    }

    method StoreRevoke(msgID: string, env: Envelope) returns (ok: bool)
      modifies this`eventIDs, this`eventSeqs, this`row, this`messages
      ensures ok == old(EventRowFits(Tables(), env))
      ensures !ok ==> State() == old(State())
      ensures ok ==> View() == old(View()).(seqNo := env.seqNo)
      ensures ok ==> Tables() == EventStored(old(Tables()), env).(messages := Unsaid(old(messages), groupID, msgID))
    {
      var messagesBefore := messages;
      if msgID in messages && messages[msgID].group == groupID {
        messages := messages - {msgID};
      }
      assert messages == Unsaid(messagesBefore, groupID, msgID);
      ok := InsertEvent(env);
      if !ok {
        messages := messagesBefore;
        return;
      }
      row := row.(lastSeq := env.seqNo);
    }

    // ----- incoming events -----

    /** `verifyGroupControlAuthority`. */
    method Verify(env: Envelope) returns (ok: bool)
      ensures present ==> ok == Authorized(View(), env) == Authority.Entitled(View(), env)
      ensures !present ==> ok == MayIntroduce(env)
    {
      var p := env.payload;
      if p.Create? {
        return env.signer == p.controller && env.actor == p.controller;
      }
      if p.Other? {
        return true;
      }
      if !present {
        return p.Invite? && env.signer == p.controller && env.actor == env.signer;
      }
      if row.controller != env.signer && !p.RetentionUpdate? && !p.Revoke? {
        return false;
      }
      if p.RetentionUpdate? {
        if env.signer !in members || members[env.signer].state != Active
           || (members[env.signer].role != Controller && members[env.signer].role != Admin) {
          return false;
        }
      }
      if p.Revoke? {
        if env.actor != env.signer || p.msgID == "" || p.sender == ""
           || env.signer !in members || members[env.signer].state != Active {
          return false;
        }
        if env.signer == p.sender {
          return true;
        }
        if p.sender !in members {
          return false;
        }
        match members[env.signer].role
        case Controller => return true;
        case Admin => return members[p.sender].role != Controller;
        case _ => return false;
      }
      if p.Invite? || p.Remove? || p.TitleUpdate? || p.RetentionUpdate? || p.Dissolve? || p.Transfer? {
        return env.actor == env.signer;
      }
      return true;
    }

    /** Handles one control event. With the group at hand this is exactly `Receive`; without it,
        `FirstContact`. What its signer is not entitled to is an error and changes nothing. */
    method Deliver(env: Envelope, freshID: string) returns (ok: bool)
      requires Valid()
      modifies this
      ensures Valid()
      ensures old(present) ==>
              present && State() == Receive(old(State()), env) && ok == !Rejects(old(View()), old(Tables()), env)
      ensures old(present) && !Authority.Entitled(old(View()), env) ==> !ok && State() == old(State())
      ensures !old(present) ==> ok == !FirstContactFails(old(Tables()), env, freshID)
      ensures !old(present) ==> present == FirstContact(old(Tables()), env, freshID).Some?
      ensures !old(present) ==>
              State() == (if present then FirstContact(old(Tables()), env, freshID).value else old(State()))
    {
      ok := Verify(env);
      if !ok || (present && row.archived && !env.payload.Create? && !env.payload.Dissolve?) {
        return;
      }
      if !present {
        if env.payload.Create? {
          ok := FirstFromCreate(env);
          return;
        }
        if !env.payload.Invite? {
          return env.payload.Other?;
        }
        ok := FirstFromInvite(env, freshID);
        if !ok {
          return;
        }
      }
      ok := ApplyNext(env);
    }

    /** Applies the events of a sync response in order, up to the first that is refused. */
    method ApplySyncedEvents(events: seq<Envelope>) returns (ok: bool)
      requires Valid() && present
      modifies this
      ensures Valid() && present
      ensures (State(), ok) == SyncTo(old(State()), events, |events|)
    {
      ok := true;
      var i := 0;
      while i < |events| && ok
        invariant 0 <= i <= |events| && Valid() && present
        invariant (State(), ok) == SyncTo(old(State()), events, i)
      {
        ok := Deliver(events[i], "");
        i := i + 1;
      }
      if !ok {
        SyncStops(old(State()), events, i, |events|);
      }
    }

    method FirstFromCreate(env: Envelope) returns (ok: bool)
      requires Valid() && !present && env.payload.Create?
      requires env.signer == env.payload.controller && env.actor == env.payload.controller
      modifies this
      ensures Valid()
      ensures ok == !FirstContactFails(old(Tables()), env, "")
      ensures present == FirstContact(old(Tables()), env, "").Some?
      ensures State() == if present then FirstContact(old(Tables()), env, "").value else old(State())
    {
      var p := env.payload;
      if env.seqNo != 1 {
        return false;
      }
      var rows := CreatedRows(p);
      var duplicate;
      ok, duplicate := StoreCreate(p.title, p.controller, p.epoch, env.seqNo, rows, env.eventID, env.seqNo, p.keys);
      ok := ok || duplicate;
    }

    /** `ensureGroupForInviteEnvelope` on a missing group. */
    method FirstFromInvite(env: Envelope, freshID: string) returns (ok: bool)
      requires Valid() && !present && env.payload.Invite?
      modifies this
      ensures Valid()
              && ok == present == (env.seqNo >= 1 && freshID !in old(eventIDs) && InviteKeyStorable(old(Tables()), env))
      ensures !ok ==> State() == old(State())
      ensures ok ==> State() == (Bootstrap(env), old(Tables()).(epochs := map[env.payload.epoch := env.payload.wrapped],
                                                                eventIDs := old(eventIDs) + {freshID},
                                                                eventSeqs := {0}))
    {
      var p := env.payload;
      if env.seqNo == 0 {
        return false;
      }
      var rows := BootstrapRows(env);
      ghost var unused;
      var keys := if p.wrapped == [] then map[] else map[self := p.wrapped];
      ok, unused := StoreCreate(p.title, p.controller, p.epoch, env.seqNo - 1, rows, freshID, 0, keys);
    }

    /** The dispatch of `applyGroupControlEnvelope` on an existing group. */
    method ApplyNext(env: Envelope) returns (ok: bool)
      requires Valid() && present && Authorized(View(), env)
      requires row.archived ==> env.payload.Create? || env.payload.Dissolve?
      modifies this
      ensures Valid() && present && State() == Receive(old(State()), env)
      ensures ok == !Rejects(old(View()), old(Tables()), env)
    {
      var p := env.payload;
      if p.Other? {
        return true;
      }
      if p.Create? || env.seqNo <= row.lastSeq || env.seqNo != row.lastSeq + 1 {
        return env.seqNo <= row.lastSeq + 1;
      }
      match p
      case Invite(invitee, role, e, _, _, _, wrapped) =>
        if wrapped == [] && !nilKeys {
          return false;
        }
        epochs := epochs[e := wrapped];
        ok := UpsertMember(invitee, MemberRow(role, Invited, env.actor, 0, 0), env);
      case Join(joiner, _) =>
        ok := ActivateMember(joiner, row.epoch, env);
      case Leave(leaver, e, keys) =>
        ok := FinishMembershipChange(leaver, Left, row.epoch, e, keys, env);
      case Remove(target, e, keys) =>
        ok := FinishMembershipChange(target, Removed, row.epoch, e, keys, env);
      case TitleUpdate(t) =>
        ok := StoreTitle(t, env);
      case RetentionUpdate(minutes) =>
        ok := StoreRetention(minutes, env);
      case Revoke(id, sender) =>
        if id in messages && messages[id].sender != sender {
          return false;
        }
        ok := StoreRevoke(id, env);
      case Dissolve =>
        ok := StoreDissolve(env);
      case Transfer(a, b, e, keys) =>
        ok := StoreTransfer(a, b, e, keys, env);
    }

    // ----- commands -----

    /** The active members, as `activePeerIDs` and `activePeerIDsExcluding` list them. */
    method ActiveMembers(excluded: set<Peer>) returns (out: seq<Peer>)
      ensures CleanMembers(View()) ==> SetOf(out) == UniqueSet(out) == ActivePeers(View()) - excluded
    {
      var rows := ListMembers();
      out := ActivePeerIDsExcluding(rows, excluded);
      ghost var ids := ActiveList(rows, excluded);
      ActiveListMembers(rows, excluded);
      forall p ensures p in ids <==> p in ActivePeers(View()) - excluded {
        if p in members {
          assert Listed(p, members[p]) in rows;
        }
      }
      if CleanMembers(View()) {
        UniqueFacts(ids);
        UniqueOfClean(ids);
        assert forall p :: p in out <==> p in SetOf(out);
        UniqueOfClean(out);
      }
    }

    /** The next event's row fits. */
    ghost predicate NextFits(eventID: string)
      reads this
    {
      eventID !in eventIDs && row.lastSeq + 1 !in eventSeqs
    }

    /** The group is at hand, not archived, and this peer controls it. */
    predicate Controls()
      reads this
    {
      present && !row.archived && row.controller == self
    }

    predicate HasState(p: Peer, state: MemberState)
      reads this
    {
      p in members && members[p].state == state
    }

    method CreateGroup(rawTitle: string, eventID: string, key: Bytes) returns (env: Option<Envelope>)
      requires Valid() && !present
      modifies this
      ensures Valid() && present == env.Some?
      ensures env.Some? <==>
              NormalizeTitle(rawTitle).Ok? && eventID !in old(eventIDs) && (nilKeys || TrimSpace(self) == self != "")
      ensures env.None? ==> State() == old(State())
      ensures env.Some? ==> View() == Created(NormalizeTitle(rawTitle).value, self) && epochs.Keys == {1}
      ensures env.Some? ==>
        && env.value.payload.Create? && MayIntroduce(env.value)
        && env.value.payload == Create(NormalizeTitle(rawTitle).value, self, [self], 1, env.value.payload.keys)
        && env.value.eventID == eventID && env.value.seqNo == 1 && HandsOut(env.value.payload.keys, key)
        && (Clean(self) ==> env.value.payload.keys.Keys == {self} && epochs == map[1 := key])
        && eventIDs == old(eventIDs) + {eventID} && eventSeqs == {1}
    {
      var t := NormalizeTitle(rawTitle);
      if t.Err? {
        return None;
      }
      var keys := GenerateEpochKeys([self], key);
      assert UniqueSet([self]) == if TrimSpace(self) == "" then {} else {TrimSpace(self)} by {
        assert forall p :: p in [self] ==> p == self;
        assert self in [self];
      }
      var e := Envelope(eventID, 1, self, self, Create(t.value, self, [self], 1, keys));
      var rows := [Listed(self, MemberRow(Controller, Active, "", 1, 0))];
      assert rows[..0] == [] && RowsOf(rows) == map[self := rows[0].row];
      var ok, _ := StoreCreate(t.value, self, 1, 1, rows, eventID, 1, keys);
      env := if ok then Some(e) else None;
    }

    /** An invite hands on the stored key. An empty one is left out on the way, so that receivers whose
        driver refuses an absent key refuse the invite: exactly then the command does not agree with
        receiving its event. */
    method InviteGroupMember(peer: string, roleName: string, hasConversation: Peer -> bool, eventID: string)
      returns (env: Option<Envelope>)
      requires Valid()
      modifies this
      ensures Valid() && present == old(present)
      ensures env.None? ==> State() == old(State())
      ensures env.Some? ==> Emitted(old(State()), State(), env.value)
      ensures env.Some? ==> (Issued(old(State()), State(), env) <==> InviteKeyStorable(old(Tables()), env.value))
      ensures env.Some? <==> old(
        var p := TrimSpace(peer);
        && Controls() && p != "" && p != self && hasConversation(p) && NormalizeInviteRole(roleName).Ok?
        && !HasState(p, Active) && !HasState(p, Invited) && row.epoch in epochs && NextFits(eventID))
      ensures env.Some? ==> env.value.payload.Invite? && env.value.payload.invitee == TrimSpace(peer)
      ensures env.Some? ==>
        && Ok(env.value.payload.role) == NormalizeInviteRole(roleName)
        && old(row.epoch in epochs && env.value.payload.wrapped == epochs[row.epoch])
        && env.value.eventID == eventID && env.value.seqNo == old(row.lastSeq) + 1
        && env.value.payload.epoch == old(row.epoch) && env.value.payload.title == old(row.title)
    {
      var p := TrimSpace(peer);
      if !present || row.archived || row.controller != self || p == "" || p == self || !hasConversation(p) {
        return None;
      }
      var role := NormalizeInviteRole(roleName);
      if role.Err? || (p in members && (members[p].state == Active || members[p].state == Invited))
          || row.epoch !in epochs {
        return None;
      }
      var active := ActiveMembers({});
      var known := active + [p];
      var e := Envelope(eventID, row.lastSeq + 1, self, self,
                        Invite(p, role.value, row.epoch, row.title, row.controller, known, epochs[row.epoch]));
      TrimSpaceClean(peer);
      assert SetOf(known) == SetOf(active) + {p};
      if EventRowFits(Tables(), e) {
        InviteIsIssued(View(), Tables(), p, e);
      }
      var ok := UpsertMember(p, MemberRow(role.value, Invited, self, 0, 0), e);
      env := if ok then Some(e) else None;
    }

    /** One more invite of a chain. */
    method InviteNext(
          p: Peer, hasConversation: Peer -> bool, eventID: string, ghost start: Rep, ghost sofar: seq<Envelope>)
      returns (e: Option<Envelope>)
      requires Valid() && present && TrimSpace(p) == p
      modifies this
      ensures Valid() && present
      ensures e.Some? <==> Invitable(old(State()), p, hasConversation, eventID)
      ensures e.None? ==> State() == old(State())
      ensures e.Some? ==> IsInvite(e.value, p, eventID) && InvitesOn(old(State()), e.value, State())
      ensures e.Some? && Chained(start, nilKeys, sofar, old(View())) ==>
              Chained(start, nilKeys, sofar + [e.value], View())
    {
      ghost var before := State();
      e := InviteGroupMember(p, "member", hasConversation, eventID);
      MemberRole();
      if e.Some? && Chained(start, nilKeys, sofar, before.0) {
        ChainedMore(start, sofar, before, State(), e.value);
      }
    }

    /** One invite after the other, up to the first that fails; each is emitted on the state its
        predecessors left. None fails if the peers can be invited and the event IDs are new. */
    method InviteAll(
          peers: seq<Peer>, hasConversation: Peer -> bool, eventID: nat -> string) returns (invites: seq<Envelope>)
      requires Valid() && present
      requires forall i :: 0 <= i < |peers| ==> TrimSpace(peers[i]) == peers[i]
      modifies this
      ensures Valid() && present && |invites| <= |peers|
      ensures forall i :: 0 <= i < |invites| ==> IsInvite(invites[i], peers[i], eventID(i))
      ensures |invites| < |peers| ==> !Invitable(State(), peers[|invites|], hasConversation, eventID(|invites|))
      ensures InvitableFrom(old(State()), peers, 0, hasConversation, eventID) ==> |invites| == |peers|
      ensures old(CleanMembers(View())) ==>
              EmitsAll(old(View()), nilKeys, invites) && View() == EffectAll(old(View()), invites)
    {
      invites := [];
      ghost var all := InvitableFrom(State(), peers, 0, hasConversation, eventID);
      for i := 0 to |peers|
        invariant Valid() && present && |invites| == i
        invariant forall j :: 0 <= j < i ==> IsInvite(invites[j], peers[j], eventID(j))
        invariant all ==> InvitableFrom(State(), peers, i, hasConversation, eventID)
        invariant old(CleanMembers(View())) ==> Chained(old(View()), nilKeys, invites, View())
      {
        ghost var before := State();
        var e := InviteNext(peers[i], hasConversation, eventID(i), old(View()), invites);
        if all {
          InvitableNext(before, State(), peers, i, hasConversation, eventID, e);
        }
        if e.None? {
          return;
        }
        invites := invites + [e.value];
      }
    }

    /** `CreateGroup` in full: the group, then an invite for each listed peer, up to the first that
        fails. */
    method CreateGroupWithMembers(rawTitle: string, peers: seq<string>, hasConversation: Peer -> bool,
                                  createID: string, inviteID: nat -> string, key: Bytes)
      returns (create: Option<Envelope>, invites: seq<Envelope>, ok: bool)
      requires Valid() && !present
      modifies this
      ensures Valid() && present == create.Some?
      ensures create.None? ==> State() == old(State()) && invites == [] && !ok
      ensures create.Some? <==>
              && AllHave(Invitees(self, peers), hasConversation) && NormalizeTitle(rawTitle).Ok?
              && createID !in old(eventIDs) && (nilKeys || TrimSpace(self) == self != "")
      ensures create.Some? ==>
              && create.value.payload.Create? && create.value.payload.title == TrimSpace(rawTitle)
              && create.value.eventID == createID && HandsOut(create.value.payload.keys, key)
      ensures create.Some? && NewIDs(old(eventIDs) + {createID}, inviteID, |Invitees(self, peers)|) ==> ok
      ensures |invites| <= |Invitees(self, peers)| && (ok <==> create.Some? && |invites| == |Invitees(self, peers)|)
      ensures forall i :: 0 <= i < |invites| ==> IsInvite(invites[i], Invitees(self, peers)[i], inviteID(i))
      ensures create.Some? && Clean(self) ==>
        && EmitsAll(Created(create.value.payload.title, self), nilKeys, invites)
        && View() == EffectAll(Created(create.value.payload.title, self), invites)
    {
      var initial := NormalizeInitialInvitees(self, peers, hasConversation);
      if initial.Err? {
        return None, [], false;
      }
      create := CreateGroup(rawTitle, createID, key);
      if create.None? {
        return create, [], false;
      }
      forall i | 0 <= i < |initial.value| ensures TrimSpace(initial.value[i]) == initial.value[i] {
        TrimmedInvitee(self, peers, i);
      }
      if NewIDs(old(eventIDs) + {createID}, inviteID, |initial.value|) {
        AllInvitable(State(), peers, hasConversation, inviteID);
      }
      invites := InviteAll(initial.value, hasConversation, inviteID);
      ok := |invites| == |initial.value|;
    }

    /** The controller answers itself; everyone else asks the controller. */
    method AcceptGroupInvite(eventID: string) returns (env: Option<Envelope>, request: bool)
      requires Valid()
      modifies this
      ensures Valid() && present == old(present) && Issued(old(State()), State(), env)
      ensures env.Some? <==> old(Controls() && HasState(self, Invited) && NextFits(eventID))
      ensures env.Some? ==>
        env.value == Envelope(eventID, old(row.lastSeq) + 1, self, self, Join(self, old(row.epoch)))
      ensures request <==> old(
        present && !row.archived && self in members && members[self].state == Invited && row.controller != self)
    {
      if !present || row.archived || self !in members || members[self].state != Invited {
        return None, false;
      }
      if row.controller != self {
        return None, true;
      }
      var e := Envelope(eventID, row.lastSeq + 1, self, self, Join(self, row.epoch));
      var ok := ActivateMember(self, row.epoch, e);
      env, request := if ok then Some(e) else None, false;
    }

    method HandleJoinRequest(joiner: Peer, acceptedEpoch: nat, eventID: string) returns (env: Option<Envelope>)
      requires Valid()
      modifies this
      ensures Valid() && present == old(present) && Issued(old(State()), State(), env)
      ensures env.Some? <==> old(Controls() && HasState(joiner, Invited) && NextFits(eventID))
      ensures env.Some? ==>
        env.value == Envelope(eventID, old(row.lastSeq) + 1, joiner, self, Join(joiner, acceptedEpoch))
    {
      if !present || row.archived || row.controller != self || joiner !in members || members[joiner].state != Invited {
        return None;
      }
      var e := Envelope(eventID, row.lastSeq + 1, joiner, self, Join(joiner, acceptedEpoch));
      var ok := ActivateMember(joiner, row.epoch, e);
      env := if ok then Some(e) else None;
    }

    /** The new epoch's row fits: its number is free and, if this peer gets no key, the driver
        stores none. */
    ghost predicate RotationFits(excluded: set<Peer>)
      reads this
    {
      row.epoch + 1 !in epochs && (nilKeys || self in ActivePeers(View()) - excluded)
    }

    /** The key of a new epoch for every active member but the excluded ones. */
    method RotationKeysFor(excluded: set<Peer>, key: Bytes) returns (keys: Keys)
      ensures CleanMembers(View()) ==> keys.Keys == ActivePeers(View()) - excluded
      ensures forall p :: p in keys ==> keys[p] == key
    {
      var peers := ActiveMembers(excluded);
      keys := GenerateEpochKeys(peers, key);
    }

    /** A member leaves: the rotation shared by the leave command and the leave-request handler. */
    method RotateLeaver(p: Peer, eventID: string, key: Bytes) returns (env: Option<Envelope>)
      requires Valid() && Controls() && HasState(p, Active)
      modifies this
      ensures Valid() && present == old(present) && Issued(old(State()), State(), env)
      ensures old(CleanMembers(View())) ==> (env.Some? <==> old(NextFits(eventID) && RotationFits({p})))
      ensures env.Some? ==> IsLeave(env.value, eventID, old(row), p, self, key)
    {
      var keys := RotationKeysFor({p}, key);
      var e := Envelope(eventID, row.lastSeq + 1, p, self, Leave(p, row.epoch + 1, keys));
      if row.epoch + 1 !in epochs && KeyStorable(Tables(), keys) && EventRowFits(Tables(), e) {
        LeaveIsIssued(View(), Tables(), p, e);
      }
      var ok := FinishMembershipChange(p, Left, row.epoch, row.epoch + 1, keys, e);
      env := if ok then Some(e) else None;
    }

    method LeaveGroup(eventID: string, key: Bytes) returns (env: Option<Envelope>, request: bool)
      requires Valid()
      modifies this
      ensures Valid() && present == old(present) && Issued(old(State()), State(), env)
      ensures request <==>
              old(present && !row.archived && self in members && members[self].state == Active
                  && members[self].role != Controller && row.controller != self)
      ensures env.Some? ==> old(Controls() && HasState(self, Active) && members[self].role != Controller)
      ensures old(CleanMembers(View()) && Controls() && HasState(self, Active) && members[self].role != Controller)
              ==> (env.Some? <==> old(NextFits(eventID) && RotationFits({self})))
      ensures old(OneController(View())) ==> env.None?
      ensures env.Some? ==> IsLeave(env.value, eventID, old(row), self, self, key)
    {
      if !present || row.archived || self !in members || members[self].state != Active
          || members[self].role == Controller {
        return None, false;
      }
      if row.controller != self {
        return None, true;
      }
      env := RotateLeaver(self, eventID, key);
      request := false;
    }

    /** Does not look at the leaver's role: see `ControllerCanLeave`. */
    method HandleLeaveRequest(leaver: Peer, eventID: string, key: Bytes) returns (env: Option<Envelope>)
      requires Valid()
      modifies this
      ensures Valid() && present == old(present) && Issued(old(State()), State(), env)
      ensures old(CleanMembers(View())) ==>
                (env.Some? <==>
                    old(Controls() && HasState(leaver, Active) && NextFits(eventID) && RotationFits({leaver})))
      ensures env.Some? ==> IsLeave(env.value, eventID, old(row), leaver, self, key)
    {
      if !present || row.archived || row.controller != self || leaver !in members || members[leaver].state != Active {
        return None;
      }
      env := RotateLeaver(leaver, eventID, key);
    }

    method RotateRemoved(p: Peer, eventID: string, key: Bytes) returns (env: Option<Envelope>)
      requires Valid() && Controls() && p != self && (HasState(p, Active) || HasState(p, Invited))
      modifies this
      ensures Valid() && present == old(present) && Issued(old(State()), State(), env)
      ensures old(CleanMembers(View())) ==> (env.Some? <==> old(NextFits(eventID) && RotationFits({p})))
      ensures env.Some? ==> IsRemove(env.value, eventID, old(row), p, self, key)
    {
      var keys := RotationKeysFor({p}, key);
      var e := Envelope(eventID, row.lastSeq + 1, self, self, Remove(p, row.epoch + 1, keys));
      if row.epoch + 1 !in epochs && KeyStorable(Tables(), keys) && EventRowFits(Tables(), e) {
        RemoveIsIssued(View(), Tables(), p, e);
      }
      var ok := FinishMembershipChange(p, Removed, row.epoch, row.epoch + 1, keys, e);
      env := if ok then Some(e) else None;
    }

    method RemoveGroupMember(peer: string, eventID: string, key: Bytes) returns (env: Option<Envelope>)
      requires Valid()
      modifies this
      ensures Valid() && present == old(present) && Issued(old(State()), State(), env)
      ensures old(CleanMembers(View())) ==> (env.Some? <==> old(
        var p := TrimSpace(peer);
        && Controls() && p != self && (HasState(p, Active) || HasState(p, Invited))
        && NextFits(eventID) && RotationFits({p})))
      ensures env.Some? ==> IsRemove(env.value, eventID, old(row), TrimSpace(peer), self, key)
    {
      var p := TrimSpace(peer);
      if !present || row.archived || row.controller != self || p == "" || p == self || p !in members
         || (members[p].state != Active && members[p].state != Invited) {
        return None;
      }
      env := RotateRemoved(p, eventID, key);
    }

    method UpdateGroupTitle(rawTitle: string, eventID: string) returns (env: Option<Envelope>)
      requires Valid()
      modifies this
      ensures Valid() && present == old(present) && Issued(old(State()), State(), env)
      ensures env.Some? <==> old(Controls() && NormalizeTitle(rawTitle).Ok? && NextFits(eventID))
      ensures env.Some? ==> row.title == TrimSpace(rawTitle)
      ensures env.Some? ==>
        env.value == Envelope(eventID, old(row.lastSeq) + 1, self, self, TitleUpdate(TrimSpace(rawTitle)))
    {
      var t := NormalizeTitle(rawTitle);
      if !present || row.archived || row.controller != self || t.Err? {
        return None;
      }
      var e := Envelope(eventID, row.lastSeq + 1, self, self, TitleUpdate(t.value));
      var ok := StoreTitle(t.value, e);
      env := if ok then Some(e) else None;
    }

    method UpdateGroupRetention(minutes: int, eventID: string) returns (env: Option<Envelope>)
      requires Valid()
      modifies this
      ensures Valid() && present == old(present) && Issued(old(State()), State(), env)
      ensures env.Some? <==> old(
        && present && !row.archived && HasState(self, Active) && members[self].role in {Controller, Admin}
        && 0 <= minutes <= 525_600 && NextFits(eventID))
      ensures env.Some? ==> row.retention == minutes
      ensures env.Some? ==>
        env.value == Envelope(eventID, old(row.lastSeq) + 1, self, self, RetentionUpdate(minutes))
    {
      if !present || row.archived || self !in members || members[self].state != Active
         || (members[self].role != Controller && members[self].role != Admin)
         || (minutes != 0 && (minutes < MIN_RETENTION || minutes > MAX_RETENTION)) {
        return None;
      }
      var e := Envelope(eventID, row.lastSeq + 1, self, self, RetentionUpdate(minutes));
      var ok := StoreRetention(minutes, e);
      env := if ok then Some(e) else None;
    }

    method DissolveGroup(eventID: string) returns (env: Option<Envelope>)
      requires Valid()
      modifies this
      ensures Valid() && present == old(present) && Issued(old(State()), State(), env)
      ensures env.Some? <==> old(Controls() && NextFits(eventID))
      ensures env.Some? ==> row.archived
      ensures env.Some? ==> env.value == Envelope(eventID, old(row.lastSeq) + 1, self, self, Dissolve)
    {
      if !present || row.archived || row.controller != self {
        return None;
      }
      var e := Envelope(eventID, row.lastSeq + 1, self, self, Dissolve);
      var ok := StoreDissolve(e);
      env := if ok then Some(e) else None;
    }

    method RotateTo(p: Peer, eventID: string, key: Bytes) returns (env: Option<Envelope>)
      requires Valid() && Controls() && p != self && HasState(p, Active)
      modifies this
      ensures Valid() && present == old(present) && Issued(old(State()), State(), env)
      ensures old(CleanMembers(View())) ==> (env.Some? <==> old(NextFits(eventID) && RotationFits({})))
      ensures env.Some? ==> IsTransfer(env.value, eventID, old(row), p, self, key)
    {
      var keys := RotationKeysFor({}, key);
      var e := Envelope(eventID, row.lastSeq + 1, self, self, Transfer(self, p, row.epoch + 1, keys));
      if row.epoch + 1 !in epochs && KeyStorable(Tables(), keys) && EventRowFits(Tables(), e) {
        TransferIsIssued(View(), Tables(), p, e);
      }
      var ok := StoreTransfer(self, p, row.epoch + 1, keys, e);
      env := if ok then Some(e) else None;
    }

    method TransferGroupController(peer: string, eventID: string, key: Bytes) returns (env: Option<Envelope>)
      requires Valid()
      modifies this
      ensures Valid() && present == old(present) && Issued(old(State()), State(), env)
      ensures old(CleanMembers(View())) ==> (env.Some? <==> old(
        var p := TrimSpace(peer);
        Controls() && p != self && HasState(p, Active) && NextFits(eventID) && RotationFits({})))
      ensures env.Some? ==> IsTransfer(env.value, eventID, old(row), TrimSpace(peer), self, key)
    {
      var p := TrimSpace(peer);
      if !present || row.archived || row.controller != self || p == "" || p == self || p !in members
          || members[p].state != Active {
        return None;
      }
      env := RotateTo(p, eventID, key);
    }

    /** An active member of an active group, and a message of that group. */
    predicate MayTouch(msgID: string)
      reads this
    {
      present && !row.archived && HasState(self, Active) && msgID in messages && messages[msgID].group == groupID
    }

    /** The controller may revoke a message whatever it knows of the sender, but other replicas
        accept the event only from a sender they list, and only with a message ID: the command
        agrees with receiving its event exactly when both hold. */
    method RevokeGroupMessage(msgID: string, sendState: SendState, eventID: string) returns (env: Option<Envelope>)
      requires Valid()
      modifies this
      ensures Valid() && present == old(present)
      ensures env.None? ==> View() == old(View())
      ensures env.None? ==>
              Tables() == old(Tables()).(messages := if old(MayTouch(msgID)) && sendState != Sent && msgID != ""
                                                                     then old(messages) - {msgID} else old(messages))
      ensures env.Some? <==> old(
        && MayTouch(msgID) && sendState == Sent && NextFits(eventID)
        && (|| messages[msgID].sender == self || members[self].role == Controller
            || (&& members[self].role == Admin && messages[msgID].sender in members
                && members[messages[msgID].sender].role != Controller)))
      ensures env.Some? ==> old(msgID in messages) && View() == Effect(old(View()), env.value)
      ensures env.Some? ==> env.value.signer == self && RevokesLocally(old(View()), env.value)
      ensures env.Some? ==> Tables() == LocalAfter(old(Tables()), env.value)
      ensures env.Some? ==> (Issued(old(State()), State(), env)
                             <==> old(msgID != "" && messages[msgID].sender != "" && messages[msgID].sender in members))
      ensures env.Some? ==>
        env.value == Envelope(eventID, old(row.lastSeq) + 1, self, self, Revoke(msgID, old(messages[msgID].sender)))
    {
      if !present || row.archived || self !in members || members[self].state != Active
         || msgID !in messages || messages[msgID].group != groupID {
        return None;
      }
      if sendState != Sent {
        if msgID != "" {
          messages := messages - {msgID};
        }
        return None;
      }
      var sender := messages[msgID].sender;
      if sender != self {
        match members[self].role
        case Controller =>
        case Admin =>
          if sender !in members || members[sender].role == Controller {
            return None;
          }
        case _ => return None;
      }
      var e := Envelope(eventID, row.lastSeq + 1, self, self, Revoke(msgID, sender));
      var ok := StoreRevoke(msgID, e);
      env := if ok then Some(e) else None;
    }
  }

  // ----- chains of invites -----

  /** A member invite for `p` with this event ID. */
  predicate IsInvite(env: Envelope, p: Peer, eventID: string) {
    env.payload.Invite? && env.payload.invitee == p && env.payload.role == Member && env.eventID == eventID
  }

  /** An invite of `p` succeeds in this state. */
  predicate Invitable(at: (Rep, Local), p: Peer, hasConversation: Peer -> bool, eventID: string) {
    && !at.0.archived && at.0.controller == at.1.self && p != "" && p != at.1.self && hasConversation(p)
    && (p in at.0.members ==> at.0.members[p].state in {Left, Removed})
    && at.0.epoch in at.1.epochs && eventID !in at.1.eventIDs && at.0.seqNo + 1 !in at.1.eventSeqs
  }

  /** The invite is the next event of the state and hands on its epoch, and is applied. */
  predicate InvitesOn(before: (Rep, Local), env: Envelope, after: (Rep, Local)) {
    && env.payload.Invite? && env.payload.epoch == before.0.epoch && env.seqNo == before.0.seqNo + 1
    && after == (Effect(before.0, env), LocalAfter(before.1, env))
  }

  predicate NewIDs(taken: set<string>, eventID: nat -> string, n: nat) {
    && (forall i :: 0 <= i < n ==> eventID(i) !in taken)
    && (forall i, j :: 0 <= i < j < n ==> eventID(i) != eventID(j))
  }

  /** The peers from `i` on can be invited one after the other. */
  ghost predicate InvitableFrom(
    at: (Rep, Local), peers: seq<Peer>, i: nat, hasConversation: Peer -> bool, eventID: nat -> string)
  {
    && (i < |peers| ==> !at.0.archived && at.0.controller == at.1.self && at.0.epoch in at.1.epochs)
    && (forall n :: n in at.1.eventSeqs ==> n <= at.0.seqNo)
    && Distinct(peers)
    && (forall j :: i <= j < |peers| ==>
          && peers[j] != "" && peers[j] != at.1.self && hasConversation(peers[j])
          && (peers[j] in at.0.members ==> at.0.members[peers[j]].state in {Left, Removed}))
    && (forall j :: i <= j < |peers| ==> eventID(j) !in at.1.eventIDs)
    && (forall j, k :: i <= j < k < |peers| ==> eventID(j) != eventID(k))
  }

  /** So the next one succeeds, and the others still can be invited after it. */
  lemma InvitableNext(
        before: (Rep, Local), after: (Rep, Local), peers: seq<Peer>, i: nat, hasConversation: Peer -> bool,
        eventID: nat -> string, e: Option<Envelope>)
    requires i < |peers| && InvitableFrom(before, peers, i, hasConversation, eventID)
    requires e.Some? <==> Invitable(before, peers[i], hasConversation, eventID(i))
    requires e.Some? ==> IsInvite(e.value, peers[i], eventID(i)) && InvitesOn(before, e.value, after)
    ensures e.Some? && InvitableFrom(after, peers, i + 1, hasConversation, eventID)
  {
  }

  /** Right after creation all listed peers can be invited. */
  lemma AllInvitable(at: (Rep, Local), peers: seq<Peer>, hasConversation: Peer -> bool, eventID: nat -> string)
    requires !at.0.archived && at.0.controller == at.1.self && at.0.epoch in at.1.epochs
    requires at.1.eventSeqs == {at.0.seqNo} && at.0.members.Keys == {at.1.self}
    requires AllHave(Invitees(at.1.self, peers), hasConversation)
    requires NewIDs(at.1.eventIDs, eventID, |Invitees(at.1.self, peers)|)
    ensures InvitableFrom(at, Invitees(at.1.self, peers), 0, hasConversation, eventID)
  {
    InviteesFacts(at.1.self, peers);
  }

  lemma {:induction false} InviteesFacts(self: Peer, peers: seq<Peer>)
    ensures Distinct(Invitees(self, peers)) && "" !in Invitees(self, peers) && self !in Invitees(self, peers)
    ensures forall p :: p in Invitees(self, peers) <==> p in UniqueSet(peers) && p != self
  {
    if peers != [] {
      var rest, last := peers[..|peers| - 1], peers[|peers| - 1];
      InviteesFacts(self, rest);
      assert peers == rest + [last];
      assert UniqueSet(peers) == UniqueSet(rest) + if TrimSpace(last) == "" then {} else {TrimSpace(last)};
    }
  }

  // ----- the events of the rotating commands -----

  /** Every key handed out is the one fresh key. */
  predicate HandsOut(keys: Keys, key: Bytes) {
    forall p :: p in keys ==> keys[p] == key
  }

  predicate IsLeave(env: Envelope, eventID: string, row: Header, p: Peer, self: Peer, key: Bytes) {
    && env.payload.Leave? && HandsOut(env.payload.keys, key)
    && env == Envelope(eventID, row.lastSeq + 1, p, self, Leave(p, row.epoch + 1, env.payload.keys))
  }

  predicate IsRemove(env: Envelope, eventID: string, row: Header, p: Peer, self: Peer, key: Bytes) {
    && env.payload.Remove? && HandsOut(env.payload.keys, key)
    && env == Envelope(eventID, row.lastSeq + 1, self, self, Remove(p, row.epoch + 1, env.payload.keys))
  }

  predicate IsTransfer(env: Envelope, eventID: string, row: Header, p: Peer, self: Peer, key: Bytes) {
    && env.payload.Transfer? && HandsOut(env.payload.keys, key)
    && env == Envelope(eventID, row.lastSeq + 1, self, self, Transfer(self, p, row.epoch + 1, env.payload.keys))
  }

  // ----- what commands write is what receiving their events writes -----

  predicate Rotates(r: Rep, l: Local, e: Envelope, remaining: set<Peer>) {
    && IsRotation(e) && e.seqNo == r.seqNo + 1 && e.signer == l.self == r.controller && !r.archived
    && (CleanMembers(r) ==> RotationKeys(e).Keys == remaining)
    && r.epoch + 1 !in l.epochs && KeyStorable(l, RotationKeys(e)) && EventRowFits(l, e)
  }

  function Rotated(l: Local, epoch: nat, e: Envelope): Local
    requires IsRotation(e)
  {
    EventStored(l, e).(epochs := l.epochs[epoch := KeyFor(l, RotationKeys(e))])
  }

  lemma TransferIsIssued(r: Rep, l: Local, p: Peer, e: Envelope)
    requires Rotates(r, l, e, ActivePeers(r)) && e.actor == l.self
    requires e.payload == Transfer(l.self, p, r.epoch + 1, RotationKeys(e))
    requires p != l.self && p in r.members && r.members[p].state == Active
    ensures Issued((r, l), (r.(members := SetRole(SetRole(r.members, l.self, Member), p, Controller), controller := p,
                               epoch := r.epoch + 1, seqNo := e.seqNo), Rotated(l, r.epoch + 1, e)), Some(e))
  {
  }

  lemma InviteIsIssued(r: Rep, l: Local, p: Peer, e: Envelope)
    requires e.seqNo == r.seqNo + 1 && e.signer == e.actor == l.self == r.controller && !r.archived
            && EventRowFits(l, e)
    requires e.payload.Invite? && e.payload.invitee == p && e.payload.role in {Admin, Member}
    requires r.epoch in l.epochs && e.payload.epoch == r.epoch && e.payload.wrapped == l.epochs[r.epoch]
    requires e.payload.title == r.title && e.payload.controller == r.controller && Clean(p) && p != l.self
    requires p in r.members ==> r.members[p].state in {Left, Removed}
    requires CleanMembers(r) ==> SetOf(e.payload.known) == ActivePeers(r) + {p}
    ensures var after := (r.(members := r.members[p := MemberRow(e.payload.role, Invited, l.self, 0, 0)],
                             seqNo := e.seqNo),
                          EventStored(l, e));
            Emitted((r, l), after, e) && (Issued((r, l), after, Some(e)) <==> InviteKeyStorable(l, e))
  {
    assert l.epochs[r.epoch := l.epochs[r.epoch]] == l.epochs;
  }

  lemma LeaveIsIssued(r: Rep, l: Local, p: Peer, e: Envelope)
    requires Rotates(r, l, e, ActivePeers(r) - {p}) && e.payload == Leave(p, r.epoch + 1, RotationKeys(e))
    requires p in r.members && r.members[p].state == Active
    ensures Issued((r, l),
            (r.(members := SetState(r.members, p, Left, r.epoch), epoch := r.epoch + 1, seqNo := e.seqNo),
                            Rotated(l, r.epoch + 1, e)), Some(e))
  {
  }

  lemma RemoveIsIssued(r: Rep, l: Local, p: Peer, e: Envelope)
    requires Rotates(r, l, e, ActivePeers(r) - {p}) && e.payload == Remove(p, r.epoch + 1, RotationKeys(e))
    requires e.actor == l.self && p != l.self && p in r.members && r.members[p].state in {Active, Invited}
    ensures Issued((r, l),
            (r.(members := SetState(r.members, p, Removed, r.epoch), epoch := r.epoch + 1, seqNo := e.seqNo),
                            Rotated(l, r.epoch + 1, e)), Some(e))
  {
  }

  // ----- functions of the rows -----

  /** The peers a new group invites: as listed, without the creator. */
  function Invitees(self: Peer, peers: seq<Peer>): seq<Peer> {
    if peers == [] then []
    else
      var before, p := Invitees(self, peers[..|peers| - 1]), TrimSpace(peers[|peers| - 1]);
      if p == "" || p == self || p in before then before else before + [p]
  }

  predicate AllHave(peers: seq<Peer>, hasConversation: Peer -> bool) {
    forall i :: 0 <= i < |peers| ==> hasConversation(peers[i])
  }

  method NormalizeInitialInvitees(
        self: Peer, peers: seq<string>, hasConversation: Peer -> bool) returns (r: Result<seq<Peer>>)
    ensures r.Ok? <==> AllHave(Invitees(self, peers), hasConversation)
    ensures r.Ok? ==> r.value == Invitees(self, peers)
  {
    var out: seq<Peer> := [];
    for i := 0 to |peers|
      invariant out == Invitees(self, peers[..i]) && AllHave(out, hasConversation)
    {
      assert peers[..i + 1][..i] == peers[..i];
      var p := TrimSpace(peers[i]);
      if p != "" && p != self && p !in out {
        if !hasConversation(p) {
          assert Invitees(self, peers[..i + 1]) == out + [p];
          InviteesGrow(self, peers, i + 1, |peers|);
          assert peers[..|peers|] == peers;
          assert Invitees(self, peers)[|out|] == p;
          return Err;
        }
        out := out + [p];
      }
    }
    assert peers[..|peers|] == peers;
    r := Ok(out);
  }

  lemma {:induction false} InviteesGrow(self: Peer, peers: seq<Peer>, i: nat, j: nat)
    requires i <= j <= |peers|
    ensures Invitees(self, peers[..i]) <= Invitees(self, peers[..j])
  {
    if i < j {
      InviteesGrow(self, peers, i, j - 1);
      assert peers[..j][..j - 1] == peers[..j - 1];
    }
  }

  /** Trimming once is enough. */
  lemma {:induction false} TrimmedInvitee(self: Peer, peers: seq<Peer>, i: nat)
    requires i < |Invitees(self, peers)|
    ensures TrimSpace(Invitees(self, peers)[i]) == Invitees(self, peers)[i]
  {
    var n := |peers| - 1;
    if i < |Invitees(self, peers[..n])| {
      TrimmedInvitee(self, peers[..n], i);
    } else {
      TrimSpaceClean(peers[n]);
      TrimSpaceClean(TrimSpace(peers[n]));
    }
  }

  function EffectAll(r: Rep, envs: seq<Envelope>): Rep {
    if envs == [] then r else Effect(EffectAll(r, envs[..|envs| - 1]), envs[|envs| - 1])
  }

  /** Each event was emitted on the state its predecessors left. */
  predicate EmitsAll(r: Rep, nilKeys: bool, envs: seq<Envelope>) {
    envs != [] ==>
      && EmitsAll(r, nilKeys, envs[..|envs| - 1])
      && Emits(EffectAll(r, envs[..|envs| - 1]), nilKeys, envs[|envs| - 1])
  }

  /** The invites were emitted one after the other, from `start` to `now`. */
  ghost predicate Chained(start: Rep, nilKeys: bool, invites: seq<Envelope>, now: Rep) {
    CleanMembers(now) && EmitsAll(start, nilKeys, invites) && now == EffectAll(start, invites)
  }

  lemma ChainedMore(start: Rep, invites: seq<Envelope>, before: (Rep, Local), after: (Rep, Local), e: Envelope)
    requires Chained(start, before.1.nilKeys, invites, before.0) && Emitted(before, after, e) && e.payload.Invite?
    ensures Chained(start, before.1.nilKeys, invites + [e], after.0)
  {
    assert (invites + [e])[..|invites|] == invites;
  }

  /** A command's outcome: nothing happened; or its event was emitted, every replica in the same
      state would have ended in the same state by receiving that event, and the event is one of
      those `LogInvariant` is about. */
  ghost predicate Issued(before: (Rep, Local), after: (Rep, Local), env: Option<Envelope>) {
    match env
    case None => after == before
    case Some(e) => Accepts(before.0, before.1, e) && Emitted(before, after, e)
  }

  /** The event was applied, and is one of those `LogInvariant` is about. */
  ghost predicate Emitted(before: (Rep, Local), after: (Rep, Local), e: Envelope) {
    && after == (Effect(before.0, e), LocalAfter(before.1, e))
    && e.signer == before.1.self
    && (CleanMembers(before.0) ==> Emits(before.0, before.1.nilKeys, e))
  }

  /** An issued event leaves what receiving it leaves. */
  lemma IssuedIsReceived(before: (Rep, Local), after: (Rep, Local), e: Envelope)
    requires Issued(before, after, Some(e))
    ensures after == Receive(before, e) && !Rejects(before.0, before.1, e)
  {
  }

  /** What passes the authority check when the group is unknown. */
  predicate MayIntroduce(env: Envelope) {
    match env.payload
    case Create(_, controller, _, _, _) => env.signer == controller && env.actor == controller
    case Invite(_, _, _, _, controller, _, _) => env.signer == controller && env.actor == env.signer
    case Other => true
    case _ => false
  }

  /** The event row added to the tables. */
  function EventStored(l: Local, env: Envelope): Local {
    l.(eventIDs := l.eventIDs + {env.eventID}, eventSeqs := l.eventSeqs + {env.seqNo})
  }

  function NotOf(messages: map<string, MessageRow>, group: string): map<string, MessageRow> {
    map m | m in messages && messages[m].group != group :: messages[m]
  }

  function Unsaid(messages: map<string, MessageRow>, group: string, id: string): map<string, MessageRow> {
    map m | m in messages && !(m == id && messages[m].group == group) :: messages[m]
  }

  predicate DistinctPeers(rows: seq<Listed>) {
    forall i, j :: 0 <= i < j < |rows| ==> rows[i].peer != rows[j].peer
  }

  function RowsOf(rows: seq<Listed>): map<Peer, MemberRow> {
    if rows == [] then map[] else RowsOf(rows[..|rows| - 1])[rows[|rows| - 1].peer := rows[|rows| - 1].row]
  }

  function BootstrapRowOf(p: Payload, q: Peer): MemberRow
    requires p.Invite?
  {
    MemberRow(if q == p.controller then Controller else Member,
              if q == p.invitee then Invited else Active, p.controller, 0, 0)
  }

  /** The rows for the members an invite lists. */
  method BootstrapRows(env: Envelope) returns (rows: seq<Listed>)
    requires env.payload.Invite? && env.seqNo >= 1
    ensures DistinctPeers(rows) && RowsOf(rows) == Bootstrap(env).members
  {
    var p := env.payload;
    var initial := UniquePeers([p.controller] + p.known);
    rows := [];
    for i := 0 to |initial|
      invariant |rows| == i && forall j :: 0 <= j < i ==> rows[j] == Listed(initial[j], BootstrapRowOf(p, initial[j]))
    {
      var role, state := Member, Active;
      if initial[i] == p.controller {
        role := Controller;
      }
      if initial[i] == p.invitee {
        state := Invited;
      }
      rows := rows + [Listed(initial[i], MemberRow(role, state, p.controller, 0, 0))];
    }
    RowsOfPeers(rows, initial, q => BootstrapRowOf(p, q));
    BootstrapRowsOf(p, initial);
  }

  lemma BootstrapRowsOf(p: Payload, initial: seq<Peer>)
    requires p.Invite? && SetOf(initial) == UniqueSet([p.controller] + p.known)
    ensures (map q | q in initial :: BootstrapRowOf(p, q))
            == BootstrapMembers(UniqueSet([p.controller] + p.known), p.controller, p.invitee)
  {
    assert forall q :: q in initial <==> q in SetOf(initial);
  }

  /** The rows for the members a create event lists. */
  method CreatedRows(p: Payload) returns (rows: seq<Listed>)
    requires p.Create?
    ensures DistinctPeers(rows) <==> Distinct(p.initialMembers)
    ensures RowsOf(rows) == CreatedFrom(p).members
  {
    rows := [];
    for i := 0 to |p.initialMembers|
      invariant |rows| == i && forall j :: 0 <= j < i ==>
              rows[j] == Listed(p.initialMembers[j], CreatedRow(p, p.initialMembers[j]))
    {
      var q := p.initialMembers[i];
      var role, state, joinedEpoch := Member, Invited, 0;
      if q == p.controller {
        role, state, joinedEpoch := Controller, Active, p.epoch;
      }
      rows := rows + [Listed(q, MemberRow(role, state, p.controller, joinedEpoch, 0))];
    }
    RowsOfPeers(rows, p.initialMembers, q => CreatedRow(p, q));
  }

  lemma {:induction false} RowsOfKeys(rows: seq<Listed>)
    ensures forall p :: p in RowsOf(rows) <==> exists i :: 0 <= i < |rows| && rows[i].peer == p
  {
    if rows != [] {
      RowsOfKeys(rows[..|rows| - 1]);
      assert forall i :: 0 <= i < |rows| - 1 ==> rows[..|rows| - 1][i] == rows[i];
      assert rows[|rows| - 1].peer in RowsOf(rows);
    }
  }

  lemma RowsOfSnoc(rows: seq<Listed>, i: nat)
    requires i < |rows| && DistinctPeers(rows[..i]) && rows[i].peer !in RowsOf(rows[..i])
    ensures DistinctPeers(rows[..i + 1])
    ensures RowsOf(rows[..i + 1]) == RowsOf(rows[..i])[rows[i].peer := rows[i].row]
  {
    RowsOfKeys(rows[..i]);
    assert rows[..i + 1][..i] == rows[..i];
    assert forall j :: 0 <= j < i ==> rows[..i][j] == rows[j];
  }

  lemma NotDistinct(rows: seq<Listed>, i: nat)
    requires i < |rows| && rows[i].peer in RowsOf(rows[..i])
    ensures !DistinctPeers(rows)
  {
    RowsOfKeys(rows[..i]);
    var j :| 0 <= j < i && rows[..i][j].peer == rows[i].peer;
    assert rows[j].peer == rows[i].peer;
  }

  /** Rows built peer by peer: one per listed peer, and distinct exactly when the list is. */
  lemma {:induction false} RowsOfPeers(rows: seq<Listed>, peers: seq<Peer>, row: Peer -> MemberRow)
    requires |rows| == |peers| && forall j :: 0 <= j < |peers| ==> rows[j] == Listed(peers[j], row(peers[j]))
    ensures DistinctPeers(rows) <==> Distinct(peers)
    ensures RowsOf(rows) == map q | q in peers :: row(q)
  {
    if peers != [] {
      var n := |peers| - 1;
      RowsOfPeers(rows[..n], peers[..n], row);
      assert peers == peers[..n] + [peers[n]];
    }
  }
}
