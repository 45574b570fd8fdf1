/** The sending side of relay-v1: one reusable session object per destination, which seals each
    packet under its transmit key with a nonce made from the packet sequence number. A nonce must
    never be used twice under one key. */
module RelaySender {
  import opened Basics

  datatype Session = Session(
    relay: Bytes, sessionID: Bytes, expireAt: int,
    txKey: Bytes, packetSeq: U64, handshakeOK: bool)

  /** A session object as it is first put into the map. */
  const NEW_SESSION: Session := Session([], [], 0, [], 0, false)

  /** How an attempt to establish a session ends. The connect phase already rewrites the session
      ID, relay and expiry; only a finished handshake replaces the key. */
  datatype Attempt =
    | ConnectFailed
    | HandshakeFailed(sessionID: Bytes, expireAt: int)
    | Established(sessionID: Bytes, expireAt: int, tx: Bytes)

  function Establish(st: Session, relay: Bytes, a: Attempt): Session {
    match a
    case ConnectFailed => st
    case HandshakeFailed(sid, exp) => st.(sessionID := sid, relay := relay, expireAt := exp)
    case Established(sid, exp, tx) => Session(relay, sid, exp, tx, 0, true)
  }

  predicate NeedsEstablish(st: Session, relay: Bytes, now: int) {
    !st.handshakeOK || st.sessionID == [] || now >= st.expireAt - 5 || st.relay != relay
  }

  /** A sealed packet: the transmit key and the packet sequence number, which make the nonce, and the
      plaintext. */
  datatype Seal = Seal(key: Bytes, number: U64, plain: Bytes)

  /** One locked send. `sealOK` is false when sealing itself fails. */
  function Send(st: Session, relay: Bytes, now: int, a: Attempt, plain: Bytes, sealOK: bool)
    : (Session, Option<Seal>)
  {
    var st1 := if NeedsEstablish(st, relay, now) then Establish(st, relay, a) else st;
    if (NeedsEstablish(st, relay, now) && !a.Established?) || !sealOK then (st1, None)
    else (st1.(packetSeq := Increment(st1.packetSeq)), Some(Seal(st1.txKey, st1.packetSeq, plain)))
  }

  class PeerSession {
    var relay: Bytes
    var sessionID: Bytes
    var expireAt: int
    var txKey: Bytes
    var packetSeq: U64
    var handshakeOK: bool

    ghost function View(): Session
      reads this
    {
      Session(relay, sessionID, expireAt, txKey, packetSeq, handshakeOK)
    }

    constructor ()
      ensures View() == NEW_SESSION
    {
      relay, sessionID, expireAt, txKey, packetSeq, handshakeOK := [], [], 0, [], 0, false;
    }

    method EstablishVia(relayPID: Bytes, a: Attempt) returns (ok: bool)
      modifies this
      ensures View() == Establish(old(View()), relayPID, a) && ok == a.Established?
      ensures a.ConnectFailed? ==> View() == old(View())
      ensures a.HandshakeFailed? ==>
        View() == Session(relayPID, a.sessionID, a.expireAt, old(txKey), old(packetSeq), old(handshakeOK))
      ensures a.Established? ==> View() == Session(relayPID, a.sessionID, a.expireAt, a.tx, 0, true)
    {
      if a.ConnectFailed? {
        return false;
      }
      sessionID, relay, expireAt := a.sessionID, relayPID, a.expireAt;
      if a.HandshakeFailed? {
        return false;
      }
      txKey := a.tx;
      packetSeq := 0;
      handshakeOK := true;
      return true;
    }

    /** Seals and numbers one packet; the number is spent even if the frame is then not written. A session
        that is not ready, goes by another relay or is about to expire is first established anew, with a
        new key and numbers from zero; without a new session nothing is sealed. */
    method SendVia(relayPID: Bytes, now: int, a: Attempt, plain: Bytes, sealOK: bool) returns (seal: Option<Seal>)
      modifies this
      ensures (View(), seal) == Send(old(View()), relayPID, now, a, plain, sealOK)
      ensures var anew := || !old(handshakeOK) || old(sessionID) == [] || old(relay) != relayPID
                          || now >= old(expireAt) - 5;
              && (seal.Some? <==> sealOK && (anew ==> a.Established?))
              && (seal.Some? ==>
                  && seal == Some(Seal(if anew then a.tx else old(txKey), if anew then 0 else old(packetSeq), plain))
                  && handshakeOK && txKey == seal.value.key && packetSeq == (seal.value.number + 1) % TWO64
                  && relay == relayPID && sessionID == if anew then a.sessionID else old(sessionID))
    {
      var needEstablish := !handshakeOK || sessionID == [] || now >= expireAt - 5;
      if handshakeOK && relay != relayPID {
        needEstablish := true;
      }
      if needEstablish {
        var ok := EstablishVia(relayPID, a);
        if !ok {
          return None;
        }
      }
      if !sealOK {
        return None;
      }
      seal := Some(Seal(txKey, packetSeq, plain));
      packetSeq := Increment(packetSeq);
    }

    /** After answering a handshake, the endpoint reuses the session in its own direction. */
    method ActivateOutbound(relayPID: Bytes, sid: Bytes, exp: int, tx: Bytes)
      modifies this
      ensures View() == Establish(old(View()), relayPID, Established(sid, exp, tx))
      ensures View() == Session(relayPID, sid, exp, tx, 0, true)
    {
      relay, sessionID, expireAt := relayPID, sid, exp;
      txKey := tx;
      packetSeq := 0;
      handshakeOK := true;
    }
  }

  // ----- whole runs of one node -----

  /** All session objects of a node, whether or not still in its map, what it has sealed so far,
      and the keys its handshakes have derived. */
  datatype Node = Node(objects: map<nat, Session>, sealed: seq<Seal>, issued: set<Bytes>)

  datatype Action =
    | Create(id: nat)
    | SendOn(id: nat, relay: Bytes, now: int, attempt: Attempt, plain: Bytes, sealOK: bool)
    | Activate(id: nat, relay: Bytes, sessionID: Bytes, expireAt: int, tx: Bytes)

  /** The key an action derives, if it completes a handshake. */
  function Derived(n: Node, a: Action): Option<Bytes> {
    match a
    case Create(_) => None
    case SendOn(id, relay, now, attempt, _, _) =>
      if id in n.objects && NeedsEstablish(n.objects[id], relay, now) && attempt.Established?
      then Some(attempt.tx) else None
    case Activate(id, _, _, _, tx) => if id in n.objects then Some(tx) else None
  }

  function Step(n: Node, a: Action): Node {
    var issued := n.issued + (match Derived(n, a) case Some(k) => {k} case None => {});
    match a
    case Create(id) => if id in n.objects then n else n.(objects := n.objects[id := NEW_SESSION])
    case SendOn(id, relay, now, attempt, plain, sealOK) =>
      if id !in n.objects then n
      else
        var (st, seal) := Send(n.objects[id], relay, now, attempt, plain, sealOK);
        Node(n.objects[id := st], n.sealed + (if seal.Some? then [seal.value] else []), issued)
    case Activate(id, relay, sid, exp, tx) =>
      if id !in n.objects then n
      else Node(n.objects[id := Establish(n.objects[id], relay, Established(sid, exp, tx))], n.sealed, issued)
  }

  /** What each action does to the session objects: a new one has no key and no number, a send does to its object
      what the method does, an activation gives its object a key and numbers from zero; all others stay. */
  lemma StepOnObjects(n: Node, a: Action, id: nat)
    ensures var n' := Step(n, a);
            && (id in n.objects && id != a.id ==> id in n'.objects && n'.objects[id] == n.objects[id])
            && (id !in n.objects && id != a.id ==> id !in n'.objects)
            && (a.Create? && a.id !in n.objects ==>
                a.id in n'.objects && n'.objects[a.id] == Session([], [], 0, [], 0, false))
            && (a.Create? && a.id in n.objects ==> n' == n)
            && (!a.Create? && a.id !in n.objects ==> n' == n)
            && (a.SendOn? && a.id in n.objects ==>
                a.id in n'.objects
                && n'.objects[a.id] == Send(n.objects[a.id], a.relay, a.now, a.attempt, a.plain, a.sealOK).0)
            && (a.Activate? && a.id in n.objects ==>
                a.id in n'.objects && n'.objects[a.id] == Session(a.relay, a.sessionID, a.expireAt, a.tx, 0, true)
                && n'.sealed == n.sealed)
  {
  }

  /** Every handshake derives a key no earlier handshake of the run derived. */
  ghost predicate FreshKeys(n: Node, actions: seq<Action>)
    decreases |actions|
  {
    actions != [] ==>
      && (Derived(n, actions[0]).Some? ==> Derived(n, actions[0]).value !in n.issued)
      && FreshKeys(Step(n, actions[0]), actions[1..])
  }

  function Run(n: Node, actions: seq<Action>): Node
    decreases |actions|
  {
    if actions == [] then n else Run(Step(n, actions[0]), actions[1..])
  }

  const START: Node := Node(map[], [], {})

  /** How many of the first `n` packets were sealed under `key`. */
  function CountTo(sealed: seq<Seal>, n: nat, key: Bytes): nat
    requires n <= |sealed|
  {
    if n == 0 then 0 else CountTo(sealed, n - 1, key) + if sealed[n - 1].key == key then 1 else 0
  }

  /** How many packets were sealed under `key`. */
  function Count(sealed: seq<Seal>, key: Bytes): nat {
    CountTo(sealed, |sealed|, key)
  }

  lemma {:induction false} CountStable(sealed: seq<Seal>, x: Seal, n: nat, key: Bytes)
    requires n <= |sealed|
    ensures CountTo(sealed + [x], n, key) == CountTo(sealed, n, key)
  {
    if n > 0 {
      CountStable(sealed, x, n - 1, key);
    }
  }

  /** The packets under each key are numbered 0, 1, 2, ... (mod 2^64). */
  ghost predicate Numbered(sealed: seq<Seal>) {
    forall i :: 0 <= i < |sealed| ==> InTurn(sealed, i)
  }

  predicate InTurn(sealed: seq<Seal>, i: nat)
    requires i < |sealed|
  {
    sealed[i].number == CountTo(sealed, i, sealed[i].key) % TWO64
  }

  /** A keyed object continues the numbering of its key. */
  ghost predicate Continues(n: Node, id: nat)
    requires id in n.objects
  {
    n.objects[id].handshakeOK ==>
      && n.objects[id].txKey in n.issued
      && n.objects[id].packetSeq == Count(n.sealed, n.objects[id].txKey) % TWO64
  }

  /** Two keyed objects have different keys. */
  predicate OwnKeys(a: Session, b: Session) {
    a.handshakeOK && b.handshakeOK ==> a.txKey != b.txKey
  }

  /** Every keyed object owns its key alone and continues its numbering. */
  ghost predicate Inv(n: Node) {
    && Numbered(n.sealed)
    && (forall id :: id in n.objects ==> Continues(n, id))
    && (forall i, j :: i in n.objects && j in n.objects && i != j ==> OwnKeys(n.objects[i], n.objects[j]))
    && (forall key :: key !in n.issued ==> Count(n.sealed, key) == 0)
  }

  lemma StepKeepsInv(n: Node, a: Action)
    requires Inv(n)
    requires Derived(n, a).Some? ==> Derived(n, a).value !in n.issued
    ensures Inv(Step(n, a))
  {
    match a
    case Create(id) =>
    case Activate(id, relay, sid, exp, tx) =>
      if id in n.objects {
        AttemptKeepsInv(n, id, relay, Established(sid, exp, tx));
      }
    case SendOn(id, relay, now, attempt, plain, sealOK) =>
      if id in n.objects {
        SendKeepsInv(n, id, relay, now, attempt, plain, sealOK);
      }
  }

  /** The node after object `id` has tried to establish a session. */
  function Attempted(n: Node, id: nat, relay: Bytes, a: Attempt): Node
    requires id in n.objects
  {
    Node(n.objects[id := Establish(n.objects[id], relay, a)], n.sealed,
         n.issued + if a.Established? then {a.tx} else {})
  }

  lemma AttemptKeepsInv(n: Node, id: nat, relay: Bytes, a: Attempt)
    requires Inv(n) && id in n.objects
    requires a.Established? ==> a.tx !in n.issued
    ensures Inv(Attempted(n, id, relay, a))
  {
  }

  lemma SendKeepsInv(n: Node, id: nat, relay: Bytes, now: int, a: Attempt, plain: Bytes, sealOK: bool)
    requires Inv(n) && id in n.objects
    requires NeedsEstablish(n.objects[id], relay, now) && a.Established? ==> a.tx !in n.issued
    ensures Inv(Step(n, SendOn(id, relay, now, a, plain, sealOK)))
  {
    var st := n.objects[id];
    var need := NeedsEstablish(st, relay, now);
    var n' := Step(n, SendOn(id, relay, now, a, plain, sealOK));
    var n1 := if need then Attempted(n, id, relay, a) else n;
    if need {
      AttemptKeepsInv(n, id, relay, a);
    }
    if Send(st, relay, now, a, plain, sealOK).1.Some? {
      SealKeepsInv(n1, id, plain);
      assert n' == Sealed(n1, id, plain);
    } else {
      assert n' == n1;
    }
  }

  /** The node after object `id` has sealed one packet. */
  function Sealed(n: Node, id: nat, plain: Bytes): Node
    requires id in n.objects
  {
    var st := n.objects[id];
    Node(n.objects[id := st.(packetSeq := Increment(st.packetSeq))],
         n.sealed + [Seal(st.txKey, st.packetSeq, plain)], n.issued)
  }

  lemma SealKeepsInv(n: Node, id: nat, plain: Bytes)
    requires Inv(n) && id in n.objects && n.objects[id].handshakeOK
    ensures Inv(Sealed(n, id, plain))
  {
    var st := n.objects[id];
    var x := Seal(st.txKey, st.packetSeq, plain);
    assert Continues(n, id);
    SealKeepsNumbers(n.sealed, x);
    forall j | j in n.objects ensures Continues(Sealed(n, id, plain), j) {
      assert Continues(n, j);
      SealKeepsObject(n, id, j, plain);
    }
    forall key | key !in n.issued ensures Count(Sealed(n, id, plain).sealed, key) == 0 {
      CountSnoc(n.sealed, x, key);
    }
  }

  lemma CountSnoc(sealed: seq<Seal>, x: Seal, key: Bytes)
    ensures Count(sealed + [x], key) == Count(sealed, key) + if x.key == key then 1 else 0
  {
    CountStable(sealed, x, |sealed|, key);
  }

  lemma SealKeepsNumbers(sealed: seq<Seal>, x: Seal)
    requires Numbered(sealed) && x.number == Count(sealed, x.key) % TWO64
    ensures Numbered(sealed + [x])
  {
    forall i | 0 <= i < |sealed| + 1 ensures InTurn(sealed + [x], i) {
      CountStable(sealed, x, i, (sealed + [x])[i].key);
      assert i < |sealed| ==> InTurn(sealed, i);
    }
  }

  lemma SealKeepsObject(n: Node, id: nat, j: nat, plain: Bytes)
    requires id in n.objects && j in n.objects && n.objects[id].handshakeOK && Continues(n, id) && Continues(n, j)
    requires j != id && n.objects[j].handshakeOK ==> n.objects[j].txKey != n.objects[id].txKey
    ensures Continues(Sealed(n, id, plain), j)
  {
    var st := n.objects[id];
    CountSnoc(n.sealed, Seal(st.txKey, st.packetSeq, plain), n.objects[j].txKey);
    WrapNext(Count(n.sealed, st.txKey));
  }

  lemma WrapNext(c: nat)
    ensures (c + 1) % TWO64 == (c % TWO64 + 1) % TWO64
  {
  }

  lemma WrapSmall(c: nat)
    ensures c < TWO64 ==> c % TWO64 == c
  {
  }

  lemma {:induction false} RunKeepsInv(n: Node, actions: seq<Action>)
    requires Inv(n) && FreshKeys(n, actions)
    ensures Inv(Run(n, actions))
    decreases |actions|
  {
    if actions != [] {
      StepKeepsInv(n, actions[0]);
      RunKeepsInv(Step(n, actions[0]), actions[1..]);
    }
  }

  /** Two packets sealed with the same nonce under the same key. */
  predicate Clash(a: Seal, b: Seal) {
    a.key == b.key && a.number == b.number
  }

  // ----- what is sealed is what was handed over -----

  /** The plaintexts among the first `n` packets that were sealed under `key`. */
  function SealedUnder(sealed: seq<Seal>, n: nat, key: Bytes): (plains: seq<Bytes>)
    requires n <= |sealed|
    ensures |plains| == CountTo(sealed, n, key)
  {
    if n == 0 then []
    else SealedUnder(sealed, n - 1, key) + if sealed[n - 1].key == key then [sealed[n - 1].plain] else []
  }

  /** The key an action seals under, if it seals at all: a new one if the session has to be established,
      the session's otherwise. */
  function SealingKey(n: Node, a: Action): Option<Bytes> {
    if !a.SendOn? || a.id !in n.objects || !a.sealOK then None
    else
      var st := n.objects[a.id];
      if st.handshakeOK && st.sessionID != [] && a.now < st.expireAt - 5 && st.relay == a.relay then Some(st.txKey)
      else if a.attempt.Established? then Some(a.attempt.tx)
      else None
  }

  /** The plaintexts the run hands to sends that seal under `key`, in order. */
  function Handed(n: Node, actions: seq<Action>, key: Bytes): seq<Bytes>
    decreases |actions|
  {
    if actions == [] then []
    else
      (if SealingKey(n, actions[0]) == Some(key) then [actions[0].plain] else [])
      + Handed(Step(n, actions[0]), actions[1..], key)
  }

  lemma {:induction false} SealedUnderSnoc(sealed: seq<Seal>, x: Seal, n: nat, key: Bytes)
    requires n <= |sealed|
    ensures SealedUnder(sealed + [x], n, key) == SealedUnder(sealed, n, key)
  {
    if n > 0 {
      SealedUnderSnoc(sealed, x, n - 1, key);
    }
  }

  lemma StepSeals(n: Node, a: Action, key: Bytes)
    ensures var n' := Step(n, a);
            SealedUnder(n'.sealed, |n'.sealed|, key)
            == SealedUnder(n.sealed, |n.sealed|, key) + if SealingKey(n, a) == Some(key) then [a.plain] else []
  {
    var n' := Step(n, a);
    if n'.sealed != n.sealed {
      var x := n'.sealed[|n.sealed|];
      assert n'.sealed == n.sealed + [x];
      SealedUnderSnoc(n.sealed, x, |n.sealed|, key);
    }
  }

  /** Over every run, the plaintexts sealed under a key are those handed to the sends that seal under it,
      in the order of the sends. */
  lemma {:induction false} SealedAsHanded(n: Node, actions: seq<Action>, key: Bytes)
    ensures var end := Run(n, actions);
            SealedUnder(end.sealed, |end.sealed|, key)
            == SealedUnder(n.sealed, |n.sealed|, key) + Handed(n, actions, key)
    decreases |actions|
  {
    if actions != [] {
      StepSeals(n, actions[0], key);
      SealedAsHanded(Step(n, actions[0]), actions[1..], key);
    }
  }

  ghost predicate NoRepeat(sealed: seq<Seal>) {
    forall i, j :: 0 <= i < j < |sealed| ==> !Clash(sealed[i], sealed[j])
  }

  /** Over any run of sends, relay changes, failed and completed handshakes on any number of
      session objects, no key and number are sealed twice, exactly as long as no single key seals
      more than 2^64 packets. */
  lemma SealsNeverRepeatIff(actions: seq<Action>)
    requires FreshKeys(START, actions)
    ensures var sealed := Run(START, actions).sealed;
            NoRepeat(sealed) <==> forall key :: Count(sealed, key) <= TWO64
  {
    assert Inv(START);
    RunKeepsInv(START, actions);
    var sealed := Run(START, actions).sealed;
    if forall key :: Count(sealed, key) <= TWO64 {
      forall i, j | 0 <= i < j < |sealed| ensures !Clash(sealed[i], sealed[j]) {
        FewDiffer(sealed, i, j);
      }
    }
    if NoRepeat(sealed) {
      forall key ensures Count(sealed, key) <= TWO64 {
        ManyRepeat(sealed, key);
      }
    }
  }

  lemma FewDiffer(sealed: seq<Seal>, i: nat, j: nat)
    requires Numbered(sealed) && i < j < |sealed|
    requires Count(sealed, sealed[j].key) <= TWO64
    ensures !Clash(sealed[i], sealed[j])
  {
    var key := sealed[j].key;
    assert InTurn(sealed, i) && InTurn(sealed, j);
    CountMonotone(sealed, i + 1, j, key);
    CountMonotone(sealed, j + 1, |sealed|, key);
    WrapSmall(CountTo(sealed, i, key));
    WrapSmall(CountTo(sealed, j, key));
  }

  lemma ManyRepeat(sealed: seq<Seal>, key: Bytes)
    requires Numbered(sealed)
    ensures Count(sealed, key) > TWO64 ==> !NoRepeat(sealed)
  {
    if Count(sealed, key) > TWO64 {
      var i := Nth(sealed, |sealed|, key, 0);
      var j := Nth(sealed, |sealed|, key, TWO64);
      if j < i {
        CountMonotone(sealed, j, i, key);
      }
      assert InTurn(sealed, i) && InTurn(sealed, j);
      assert Clash(sealed[i], sealed[j]);
    }
  }

  lemma {:induction false} CountMonotone(sealed: seq<Seal>, i: nat, j: nat, key: Bytes)
    requires i <= j <= |sealed|
    ensures CountTo(sealed, i, key) <= CountTo(sealed, j, key)
    decreases j - i
  {
    if i < j {
      CountMonotone(sealed, i, j - 1, key);
    }
  }

  /** The position of the `c`-th packet sealed under `key`. */
  lemma {:induction false} Nth(sealed: seq<Seal>, n: nat, key: Bytes, c: nat) returns (i: nat)
    requires n <= |sealed| && c < CountTo(sealed, n, key)
    ensures i < n && sealed[i].key == key && CountTo(sealed, i, key) == c
  {
    if c < CountTo(sealed, n - 1, key) {
      i := Nth(sealed, n - 1, key, c);
    } else {
      i := n - 1;
    }
  }
}
