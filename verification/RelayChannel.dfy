/** The two ends of a relay-v1 session together: what the receiving endpoint releases for a session is
    what the sending node was given to send under its key, in order. */
module RelayChannel {
  import opened Basics
  import opened RelayReorder
  import Sender = RelaySender
  import opened RelayTables
  import opened RelayClock

  /** Every packet of key entry `entry` among steps `i .. j-1` that opened under `rx` was sealed under
      it with that number: the guarantee of authenticated encryption. */
  ghost predicate Authentic(
    actions: seq<Action>, entry: Bytes, sealed: seq<Sender.Seal>, rx: Bytes, i: nat, j: nat)
    requires i <= j <= |actions|
  {
    forall l :: i <= l < j && actions[l].Packet? && Key(actions[l].sid, actions[l].src) == entry ==>
      Sender.Seal(rx, actions[l].seqNo, actions[l].plain) in sealed
  }

  lemma {:induction false} SealedAt(sealed: seq<Sender.Seal>, n: nat, key: Bytes, x: nat)
    requires x < n <= |sealed| && sealed[x].key == key
    ensures var c := Sender.CountTo(sealed, x, key);
            c < Sender.CountTo(sealed, n, key) && Sender.SealedUnder(sealed, n, key)[c] == sealed[x].plain
  {
    if x + 1 < n {
      SealedAt(sealed, n - 1, key, x);
    }
  }

  /** The plaintext sealed with number `n`, and `other` for numbers never used. */
  function Payload(plains: seq<Bytes>, other: Bytes): int -> Bytes {
    n => if 0 <= n < |plains| then plains[n] else other
  }

  lemma AuthenticUnaltered(
      actions: seq<Action>, entry: Bytes, sealed: seq<Sender.Seal>, rx: Bytes, other: Bytes, i: nat, j: nat)
    requires i <= j <= |actions| && Authentic(actions, entry, sealed, rx, i, j)
    requires Sender.Numbered(sealed) && Sender.Count(sealed, rx) < TWO64
    ensures Unaltered(actions, entry, Payload(Sender.SealedUnder(sealed, |sealed|, rx), other), i, j)
  {
    forall l | i <= l < j && actions[l].Packet? && Key(actions[l].sid, actions[l].src) == entry
      ensures actions[l].seqNo < MAX_U64
      ensures actions[l].plain == Payload(Sender.SealedUnder(sealed, |sealed|, rx), other)(actions[l].seqNo)
    {
      var x :| 0 <= x < |sealed| && sealed[x] == Sender.Seal(rx, actions[l].seqNo, actions[l].plain);
      assert Sender.InTurn(sealed, x);
      SealedAt(sealed, |sealed|, rx, x);
      Sender.WrapSmall(Sender.CountTo(sealed, x, rx));
    }
  }

  /** A stretch that does not depend on what stands for unused numbers holds none of them. */
  lemma StretchInside(plains: seq<Bytes>, n: nat)
    ensures Stretch(Payload(plains, []), 0, n) == Stretch(Payload(plains, [0]), 0, n) ==>
              n <= |plains| && Stretch(Payload(plains, []), 0, n) == plains[..n]
  {
    if n > |plains| {
      assert Stretch(Payload(plains, []), 0, n)[|plains|] != Stretch(Payload(plains, [0]), 0, n)[|plains|];
    }
  }

  /** Over every run of the sending node and every run of the endpoint, with any loss, duplication and
      reordering in between: from the handshake that installs the sender's key, for as long as the
      registration lasts, what has been released for the session is the beginning of what the node was
      given to send under that key, each plaintext once and in the order of the sends. */
  lemma ReleasedIsSent(
      sends: seq<Sender.Action>, states: seq<Tables>, actions: seq<Action>, outs: seq<seq<Bytes>>,
      i: nat, j: nat, sid: Bytes, gen: nat)
    requires Sender.FreshKeys(Sender.START, sends)
    requires IsRun(states, actions, outs) && i < j <= |actions|
    requires Installs(states, actions, i, sid, gen) && Holds(states[j], sid, gen)
    requires |Sender.Handed(Sender.START, sends, actions[i].rx)| < TWO64
    requires Authentic(actions, Key(sid, actions[i].src), Sender.Run(Sender.START, sends).sealed, actions[i].rx,
                       i + 1, j)
    ensures var entry := Key(sid, actions[i].src);
            && entry in states[j].keys && states[j].keys[entry].rx == actions[i].rx
            && Released(actions, outs, entry, i + 1, j) <= Sender.Handed(Sender.START, sends, actions[i].rx)
            && |Released(actions, outs, entry, i + 1, j)| == Frontier(states[j].keys[entry])
  {
    var sealed, rx, entry := Sender.Run(Sender.START, sends).sealed, actions[i].rx, Key(sid, actions[i].src);
    assert Sender.Inv(Sender.START);
    Sender.RunKeepsInv(Sender.START, sends);
    var plains := Sender.SealedUnder(sealed, |sealed|, rx);
    Sender.SealedAsHanded(Sender.START, sends, rx);
    assert plains == Sender.Handed(Sender.START, sends, rx);
    AuthenticUnaltered(actions, entry, sealed, rx, [], i + 1, j);
    AuthenticUnaltered(actions, entry, sealed, rx, [0], i + 1, j);
    SessionStreamInOrder(states, actions, outs, i, j, sid, gen, Payload(plains, []));
    SessionStreamInOrder(states, actions, outs, i, j, sid, gen, Payload(plains, [0]));
    StretchInside(plains, Frontier(states[j].keys[entry]));
    InstalledKeyStays(states, actions, outs, i, j, sid, gen);
  }

  /** With the endpoint's clock, nothing has to be assumed about the registration: below the caps and
      until it expires, the same holds. */
  lemma ReleasedIsSentUntilExpiry(
      sends: seq<Sender.Action>, cs: seq<Clocked>, calls: seq<Call>, outs: seq<seq<Bytes>>,
      i: nat, j: nat, sid: Bytes, gen: nat)
    requires Sender.FreshKeys(Sender.START, sends)
    requires TimedRun(cs, calls, outs) && i < j <= |calls|
    requires Installs(TablesOf(cs), ActionsOf(calls), i, sid, gen)
    requires AllQuiet(cs, calls, cs[i + 1].tables.connect[sid], i + 1, j)
    requires |Sender.Handed(Sender.START, sends, calls[i].action.rx)| < TWO64
    requires Authentic(ActionsOf(calls), Key(sid, calls[i].action.src), Sender.Run(Sender.START, sends).sealed,
                       calls[i].action.rx, i + 1, j)
    ensures var entry := Key(sid, calls[i].action.src);
            && entry in cs[j].tables.keys && cs[j].tables.keys[entry].rx == calls[i].action.rx
            && Released(ActionsOf(calls), outs, entry, i + 1, j)
               <= Sender.Handed(Sender.START, sends, calls[i].action.rx)
            && |Released(ActionsOf(calls), outs, entry, i + 1, j)| == Frontier(cs[j].tables.keys[entry])
  {
    TimedRunIsRun(cs, calls, outs);
    LastsUntilExpiry(cs, calls, outs, i + 1, j, sid);
    ReleasedIsSent(sends, TablesOf(cs), ActionsOf(calls), outs, i, j, sid, gen);
  }

  lemma InstalledKeyStays(
      states: seq<Tables>, actions: seq<Action>, outs: seq<seq<Bytes>>, i: nat, j: nat, sid: Bytes, gen: nat)
    requires IsRun(states, actions, outs) && i < j <= |actions|
    requires Installs(states, actions, i, sid, gen) && Holds(states[j], sid, gen)
    ensures var entry := Key(sid, actions[i].src);
            entry in states[j].keys && states[j].keys[entry].rx == actions[i].rx
  {
    assert StepAt(states, actions, outs, i);
    InstalledSource(states[i], actions[i], states[i + 1], outs[i]);
    EntryStays(states, actions, outs, i + 1, j, sid, gen);
  }
}
