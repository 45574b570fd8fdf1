/** Group messages and their revocation: the message, delivery and revocation tables, the incoming
    message and revoke handlers on them, when the two commute, and that a revoked message never
    comes back. */
module GroupMessages {
  import opened Basics
  import opened GroupLog

  /** A row of `group_messages`: keyed by message ID over all groups, and unique in
      (group, sender, sender sequence number). */
  datatype Msg = Msg(group: string, sender: Peer, senderSeq: nat, body: string)

  datatype Revocation = Revocation(sender: Peer, revoker: Peer)

  /** Delivery rows: message ID, then recipient, then state. */
  type Deliveries = map<string, map<Peer, string>>

  datatype Delivery = Delivery(peer: Peer, state: string)

  datatype Mail = Mail(messages: map<string, Msg>, deliveries: Deliveries, revoked: map<(string, string), Revocation>)

  /** Another message holds the (group, sender, sender sequence number) of `m`. */
  predicate Clashes(messages: map<string, Msg>, id: string, m: Msg, other: string) {
    && other in messages && other != id
    && messages[other].group == m.group && messages[other].sender == m.sender
        && messages[other].senderSeq == m.senderSeq
  }

  /** `INSERT OR REPLACE`: the row replaces every row it shares a unique key with. */
  function Put(messages: map<string, Msg>, id: string, m: Msg): map<string, Msg> {
    (map o | o in messages && !Clashes(messages, id, m, o) :: messages[o])[id := m]
  }

  /** An incoming message; `admitted` stands for the sender being an active member and the
      ciphertext opening under the epoch key. */
  function Incoming(t: Mail, id: string, m: Msg, admitted: bool): Mail {
    if (m.group, id) in t.revoked || !admitted then t else t.(messages := Put(t.messages, id, m))
  }

  /** The handler of a revoke event refuses one whose sender is not the stored message's. */
  predicate SenderFits(t: Mail, id: string, sender: Peer) {
    id in t.messages ==> t.messages[id].sender == sender
  }

  function DropMessage(messages: map<string, Msg>, group: string, id: string): map<string, Msg> {
    if id in messages && messages[id].group == group then messages - {id} else messages
  }

  function Revoked(t: Mail, group: string, id: string, sender: Peer, revoker: Peer): Mail {
    if !SenderFits(t, id, sender) then t
    else Mail(DropMessage(t.messages, group, id), t.deliveries - {id},
              t.revoked[(group, id) := Revocation(sender, revoker)])
  }

  function DeliveredTo(deliveries: Deliveries, id: string, d: Delivery): Deliveries {
    deliveries[id := (if id in deliveries then deliveries[id] else map[])[d.peer := d.state]]
  }

  function DeliveredToAll(deliveries: Deliveries, id: string, ds: seq<Delivery>): Deliveries {
    if ds == [] then deliveries
    else DeliveredTo(DeliveredToAll(deliveries, id, ds[..|ds| - 1]), id, ds[|ds| - 1])
  }

  // ----- the store -----

  class MessageTables {
    var messages: map<string, Msg>
    var deliveries: Deliveries
    var revoked: map<(string, string), Revocation>

    ghost function Contents(): Mail
      reads this
    {
      Mail(messages, deliveries, revoked)
    }

    method AddGroupMessage(id: string, m: Msg, ds: seq<Delivery>)
      modifies this`messages, this`deliveries
      ensures Contents() == old(Contents()).(messages := Put(old(messages), id, m),
                                             deliveries := DeliveredToAll(old(deliveries), id, ds))
    {
      messages := (map o | o in messages && !Clashes(messages, id, m, o) :: messages[o])[id := m];
      for i := 0 to |ds|
        invariant messages == Put(old(messages), id, m) && deliveries == DeliveredToAll(old(deliveries), id, ds[..i])
      {
        assert ds[..i + 1][..i] == ds[..i];
        deliveries := deliveries[id := (if id in deliveries then deliveries[id] else map[])[ds[i].peer := ds[i].state]];
      }
      assert ds[..|ds|] == ds;
    }

    method HandleIncomingMessage(id: string, m: Msg, admitted: bool)
      modifies this
      ensures Contents() == Incoming(old(Contents()), id, m, admitted)
    {
      if (m.group, id) in revoked || !admitted {
        return;
      }
      AddGroupMessage(id, m, []);
    }

    method RevokeGroupMessage(group: string, id: string, sender: Peer, revoker: Peer)
      modifies this
      ensures Contents() == Revoked(old(Contents()), group, id, sender, revoker)
    {
      if id in messages && messages[id].sender != sender {
        return;
      }
      revoked := revoked[(group, id) := Revocation(sender, revoker)];
      deliveries := deliveries - {id};
      if id in messages && messages[id].group == group {
        messages := messages - {id};
      }
    }

    /** Shared by deletion of one message, retention cleanup and the purge of a dissolved group:
        rows of one group go, with their deliveries. */
    method DeleteRows(group: string, ids: set<string>)
      modifies this`messages, this`deliveries
      ensures Contents() == Deleted(old(Contents()), group, ids)
    {
      var gone := set i | i in ids && i in messages && messages[i].group == group;
      deliveries := deliveries - gone;
      messages := messages - gone;
    }
  }

  function Deleted(t: Mail, group: string, ids: set<string>): Mail {
    var gone := set i | i in ids && i in t.messages && t.messages[i].group == group;
    t.(messages := t.messages - gone, deliveries := t.deliveries - gone)
  }

  // ----- what is stored -----

  /** An admitted message that is not revoked is stored as it is; every other row stays unless it has the same
      place in the same sender's sequence; nothing else changes. Any other message changes nothing. */
  lemma AdmittedIsStored(t: Mail, id: string, m: Msg, admitted: bool, o: string)
    ensures var t' := Incoming(t, id, m, admitted);
            if !admitted || (m.group, id) in t.revoked then t' == t
            else
              && t'.deliveries == t.deliveries && t'.revoked == t.revoked
              && id in t'.messages && t'.messages[id] == m
              && (o != id ==>
                  (o in t'.messages <==>
                     && o in t.messages
                     && !(t.messages[o].group == m.group && t.messages[o].sender == m.sender
                          && t.messages[o].senderSeq == m.senderSeq)))
              && (o != id && o in t'.messages ==> t'.messages[o] == t.messages[o])
  {
  }

  /** Of several delivery rows for one recipient the last counts. */
  lemma {:induction false} LastStateWins(deliveries: Deliveries, id: string, ds: seq<Delivery>, i: nat)
    requires i < |ds| && forall j :: i < j < |ds| ==> ds[j].peer != ds[i].peer
    ensures var d := DeliveredToAll(deliveries, id, ds);
            id in d && ds[i].peer in d[id] && d[id][ds[i].peer] == ds[i].state
  {
    if i + 1 < |ds| {
      LastStateWins(deliveries, id, ds[..|ds| - 1], i);
    }
  }

  /** Recipients that are not named, and other messages, keep theirs. */
  lemma {:induction false} OtherStatesStay(deliveries: Deliveries, id: string, ds: seq<Delivery>, p: Peer, o: string)
    requires o == id ==> forall j :: 0 <= j < |ds| ==> ds[j].peer != p
    ensures StateFor(DeliveredToAll(deliveries, id, ds), o, p) == StateFor(deliveries, o, p)
  {
    if ds != [] {
      OtherStatesStay(deliveries, id, ds[..|ds| - 1], p, o);
    }
  }

  function StateFor(deliveries: Deliveries, id: string, p: Peer): Option<string> {
    if id in deliveries && p in deliveries[id] then Some(deliveries[id][p]) else None
  }

  /** A deletion takes exactly the listed rows of the group, with their deliveries. */
  lemma DeletedExactly(t: Mail, group: string, ids: set<string>, id: string)
    ensures var t' := Deleted(t, group, ids);
            var gone := id in ids && id in t.messages && t.messages[id].group == group;
            && t'.revoked == t.revoked
            && (id in t'.messages <==> id in t.messages && !gone)
            && (id in t'.messages ==> t'.messages[id] == t.messages[id])
            && (id in t'.deliveries <==> id in t.deliveries && !gone)
            && (id in t'.deliveries ==> t'.deliveries[id] == t.deliveries[id])
  {
  }

  /** A revocation that names another sender than the stored one changes nothing; any other is recorded, takes the
      message if it is of the group, takes its deliveries, and leaves all else alone. */
  lemma RevokedExactly(t: Mail, group: string, id: string, sender: Peer, revoker: Peer, o: string)
    ensures var t' := Revoked(t, group, id, sender, revoker);
            if id in t.messages && t.messages[id].sender != sender then t' == t
            else
              && t'.revoked == t.revoked[(group, id) := Revocation(sender, revoker)]
              && (o in t'.messages <==> o in t.messages && !(o == id && t.messages[o].group == group))
              && (o in t'.messages ==> t'.messages[o] == t.messages[o])
              && (o in t'.deliveries <==> o in t.deliveries && o != id)
              && (o in t'.deliveries ==> t'.deliveries[o] == t.deliveries[o])
  {
  }

  // ----- the same rows in the group log -----

  /** What the group log's model keeps of a message row. */
  function Senders(t: Mail): map<string, MessageRow> {
    map id | id in t.messages :: MessageRow(t.messages[id].group, t.messages[id].sender)
  }

  /** Both models of a revoke event agree: they refuse the same ones and drop the same rows. */
  lemma RevocationMatchesLog(t: Mail, l: Local, env: Envelope)
    requires env.payload.Revoke? && l.messages == Senders(t)
    ensures SenderFits(t, env.payload.msgID, env.payload.sender) <==> SenderMatches(l, env)
    ensures SenderFits(t, env.payload.msgID, env.payload.sender) ==>
              Senders(Revoked(t, l.group, env.payload.msgID, env.payload.sender, env.actor)) == MessagesAfter(l, env)
  {
  }

  /** So do both models of a dissolution, which deletes every row of the group. */
  lemma DissolutionMatchesLog(t: Mail, l: Local, env: Envelope)
    requires env.payload.Dissolve? && l.messages == Senders(t)
    ensures Senders(Deleted(t, l.group, t.messages.Keys)) == MessagesAfter(l, env)
  {
  }

  // ----- a message and its revocation, in either order -----

  /** No row has the message's ID under another group or sender, and no other row has its place in
      the sender's sequence. */
  ghost predicate NoRival(t: Mail, id: string, m: Msg) {
    && (id in t.messages ==> t.messages[id].group == m.group && t.messages[id].sender == m.sender)
    && forall o :: o in t.messages ==> !Clashes(t.messages, id, m, o)
  }

  /** Delivering a message and its revocation in either order gives the same tables exactly when the
      message is revoked already or not admitted, or no row rivals it. */
  lemma RevocationCommutesIff(t: Mail, id: string, m: Msg, admitted: bool, revoker: Peer)
    ensures Revoked(Incoming(t, id, m, admitted), m.group, id, m.sender, revoker)
            == Incoming(Revoked(t, m.group, id, m.sender, revoker), id, m, admitted)
            <==> (m.group, id) in t.revoked || !admitted || NoRival(t, id, m)
  {
    var a := Revoked(Incoming(t, id, m, admitted), m.group, id, m.sender, revoker);
    var b := Incoming(Revoked(t, m.group, id, m.sender, revoker), id, m, admitted);
    if admitted && (m.group, id) !in t.revoked {
      assert id !in a.messages;
      if !SenderFits(t, id, m.sender) {
        assert id in b.messages;
      } else {
        assert b == Revoked(t, m.group, id, m.sender, revoker);
        if o :| o in t.messages && Clashes(t.messages, id, m, o) {
          assert o in b.messages && o !in a.messages;
        } else if id in t.messages && t.messages[id].group != m.group {
          assert id in b.messages;
        } else {
          assert a.messages == b.messages;
        }
      }
    }
  }

  /** And then the message is gone, with its deliveries, and recorded as revoked. */
  lemma RevocationWins(t: Mail, id: string, m: Msg, admitted: bool, revoker: Peer)
    requires (m.group, id) !in t.revoked && SenderFits(t, id, m.sender)
    ensures forall t' :: t' in {Revoked(Incoming(t, id, m, admitted), m.group, id, m.sender, revoker),
                                Incoming(Revoked(t, m.group, id, m.sender, revoker), id, m, admitted)} ==>
              Absorbed(t', m.group, id) && id !in t'.deliveries
                  && t'.revoked[(m.group, id)] == Revocation(m.sender, revoker)
  {
  }

  /** Sender sequence numbers are recomputed from the rows that remain, so a sender that revokes its
      last message reuses the number. A replica that gets the new message first then loses it to
      the late delivery of the revoked one. */
  lemma ReusedNumberLosesAMessage(group: string, sender: Peer, revoker: Peer)
    ensures var late, next := Msg(group, sender, 5, "revoked"), Msg(group, sender, 5, "kept");
            var t := Mail(map["next" := next], map[], map[]);
            && Revoked(Incoming(t, "late", late, true), group, "late", sender, revoker).messages == map[]
            && Incoming(Revoked(t, group, "late", sender, revoker), "late", late, true).messages == t.messages
  {
  }

  // ----- once revoked, gone for good -----

  datatype Action =
    | Receive(id: string, msg: Msg, admitted: bool)
    | LocalSend(id: string, msg: Msg, deliveries: seq<Delivery>)
    | RevokeEvent(group: string, id: string, sender: Peer, revoker: Peer)
    | Delete(group: string, ids: set<string>)

  /** Pushes, retries, sync and offline redelivery all end in `Receive`; a local send has a fresh
      ID, in particular none that was revoked. */
  predicate Enabled(t: Mail, a: Action) {
    a.LocalSend? ==> (a.msg.group, a.id) !in t.revoked
  }

  function Step(t: Mail, a: Action): Mail {
    match a
    case Receive(id, m, admitted) => Incoming(t, id, m, admitted)
    case LocalSend(id, m, ds) =>
      t.(messages := Put(t.messages, id, m), deliveries := DeliveredToAll(t.deliveries, id, ds))
    case RevokeEvent(group, id, sender, revoker) => Revoked(t, group, id, sender, revoker)
    case Delete(group, ids) => Deleted(t, group, ids)
  }

  /** A local send stores its message as it is, with its deliveries. */
  lemma SentIsStored(t: Mail, id: string, m: Msg, ds: seq<Delivery>, i: nat)
    ensures var t' := Step(t, LocalSend(id, m, ds));
            && id in t'.messages && t'.messages[id] == m && t'.revoked == t.revoked
            && (i < |ds| && (forall j :: i < j < |ds| ==> ds[j].peer != ds[i].peer) ==>
                id in t'.deliveries && ds[i].peer in t'.deliveries[id] && t'.deliveries[id][ds[i].peer] == ds[i].state)
  {
    if i < |ds| && forall j :: i < j < |ds| ==> ds[j].peer != ds[i].peer {
      LastStateWins(t.deliveries, id, ds, i);
    }
  }

  predicate Absorbed(t: Mail, group: string, id: string) {
    (group, id) in t.revoked && !(id in t.messages && t.messages[id].group == group)
  }

  function After(t: Mail, actions: seq<Action>, n: nat): Mail
    requires n <= |actions|
  {
    if n == 0 then t else Step(After(t, actions, n - 1), actions[n - 1])
  }

  lemma StepKeepsAbsorbed(t: Mail, a: Action, group: string, id: string)
    requires Absorbed(t, group, id) && Enabled(t, a)
    ensures Absorbed(Step(t, a), group, id)
  {
  }

  /** Once revoked, a message never comes back, whatever is delivered, sent, revoked or deleted. */
  lemma {:induction false} RevokedStaysGone(t: Mail, actions: seq<Action>, n: nat, group: string, id: string)
    requires n <= |actions| && Absorbed(t, group, id)
    requires forall i :: 0 <= i < |actions| ==> Enabled(After(t, actions, i), actions[i])
    ensures Absorbed(After(t, actions, n), group, id)
  {
    if n > 0 {
      RevokedStaysGone(t, actions, n - 1, group, id);
      StepKeepsAbsorbed(After(t, actions, n - 1), actions[n - 1], group, id);
    }
  }
}
