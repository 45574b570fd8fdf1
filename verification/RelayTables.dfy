/** The three cross-referenced tables of a relay-v1 endpoint (registered connects, sessions by
    source in FIFO order, key entries), the atomic steps that change them, and what every run of
    those steps keeps. Each locked section of the handlers is one step. */
module RelayTables {
  import opened Basics
  import opened RelayReorder

  const MAX_PER_SRC: nat := 64
  const MAX_TOTAL: nat := 8192

  /** `1<<62 - 1`: eviction looks only at registrations that expire before this. */
  const NEVER: int := 0x3FFF_FFFF_FFFF_FFFF

  /** A registration. `gen` numbers registrations in order; only the model keeps it, to tell two
      registrations of the same session apart. */
  datatype Reg = Reg(srcID: Bytes, expireAt: int, gen: nat)

  datatype Tables = Tables(
    connect: map<Bytes, Reg>,
    bySrc: map<Bytes, seq<Bytes>>,
    keys: map<Bytes, KeyEntry>,
    gens: nat)

  /** The key table is indexed by `session_id + "\x00" + src_id`. */
  function Key(sid: Bytes, src: Bytes): Bytes { sid + [0] + src }

  /** A missing map entry reads as the empty list. */
  function ListOf(t: Tables, src: Bytes): seq<Bytes> {
    if src in t.bySrc then t.bySrc[src] else []
  }

  predicate NulFree(s: Bytes) { 0 !in s }

  ghost predicate NoDup(l: seq<Bytes>) {
    l != [] ==> l[0] !in l[1..] && NoDup(l[1..])
  }

  /** Key entry `k` belongs to a registered session. */
  ghost predicate Backed(t: Tables, k: Bytes) {
    exists sid :: sid in t.connect && k == Key(sid, t.connect[sid].srcID)
  }

  /** Each by-source list is duplicate-free and holds exactly the sessions registered to that
      source; every key entry belongs to a registered session. */
  ghost predicate Inv(t: Tables) {
    && (forall src :: NoDup(ListOf(t, src)))
    && (forall src, sid :: sid in ListOf(t, src) <==> sid in t.connect && t.connect[sid].srcID == src)
    && (forall k :: k in t.keys ==> Backed(t, k))
    && (forall sid :: sid in t.connect ==> sid != [] && NulFree(t.connect[sid].srcID) && t.connect[sid].gen < t.gens)
  }

  /** The sessions eviction can see. */
  function Evictable(t: Tables): set<Bytes> {
    set sid | sid in t.connect && t.connect[sid].expireAt < NEVER
  }

  /** At most 64 sessions per source, and at most `MAX_TOTAL + 1` that eviction can see. */
  ghost predicate WithinCaps(t: Tables) {
    && (forall src :: |ListOf(t, src)| <= MAX_PER_SRC)
    && |Evictable(t)| <= MAX_TOTAL + 1
  }

  // ----- order-preserving filters -----

  function Keep(l: seq<Bytes>, alive: set<Bytes>): seq<Bytes> {
    if l == [] then [] else (if l[0] in alive then [l[0]] else []) + Keep(l[1..], alive)
  }

  function Without(l: seq<Bytes>, x: Bytes): seq<Bytes> {
    if l == [] then [] else (if l[0] != x then [l[0]] else []) + Without(l[1..], x)
  }

  lemma {:induction false} KeepMembers(l: seq<Bytes>, alive: set<Bytes>)
    ensures forall x :: x in Keep(l, alive) <==> x in l && x in alive
    ensures |Keep(l, alive)| <= |l|
    ensures NoDup(l) ==> NoDup(Keep(l, alive))
  {
    if l != [] {
      KeepMembers(l[1..], alive);
      if l[0] in alive {
        assert Keep(l, alive)[1..] == Keep(l[1..], alive);
      } else {
        assert Keep(l, alive) == Keep(l[1..], alive);
      }
    }
  }

  lemma {:induction false} KeepTwice(l: seq<Bytes>, a: set<Bytes>, b: set<Bytes>)
    requires b <= a
    ensures Keep(Keep(l, a), b) == Keep(l, b)
  {
    if l != [] {
      KeepTwice(l[1..], a, b);
      var rest := Keep(l[1..], a);
      if l[0] in a {
        assert Keep(l, a) == [l[0]] + rest;
        assert ([l[0]] + rest)[1..] == rest;
      } else {
        assert Keep(l, a) == rest;
      }
    }
  }

  lemma {:induction false} KeepAll(l: seq<Bytes>, alive: set<Bytes>)
    requires forall x :: x in l ==> x in alive
    ensures Keep(l, alive) == l
  {
    if l != [] {
      KeepAll(l[1..], alive);
      assert l == [l[0]] + l[1..];
    }
  }

  lemma {:induction false} WithoutIsKeep(l: seq<Bytes>, x: Bytes, alive: set<Bytes>)
    requires forall y :: y in l ==> (y in alive <==> y != x)
    ensures Without(l, x) == Keep(l, alive)
  {
    if l != [] {
      WithoutIsKeep(l[1..], x, alive);
    }
  }

  lemma {:induction false} WithoutAppend(l: seq<Bytes>, y: Bytes, x: Bytes)
    ensures Without(l + [y], x) == Without(l, x) + (if y != x then [y] else [])
  {
    if l == [] {
      assert l + [y] == [y];
    } else {
      assert (l + [y])[1..] == l[1..] + [y];
      WithoutAppend(l[1..], y, x);
    }
  }

  /** Source IDs decode as peer IDs and so hold no NUL: two sessions never share a key entry. */
  lemma KeyInjective(s1: Bytes, r1: Bytes, s2: Bytes, r2: Bytes)
    requires NulFree(r1) && NulFree(r2)
    requires Key(s1, r1) == Key(s2, r2)
    ensures s1 == s2 && r1 == r2
  {
    var k := Key(s1, r1);
    assert k[|s1|] == 0 && k[|s2|] == 0;
    assert forall i :: |s1| < i < |k| ==> k[i] == r1[i - |s1| - 1];
    assert forall i :: |s2| < i < |k| ==> k[i] == r2[i - |s2| - 1];
    assert |s1| == |s2|;
    assert s1 == k[..|s1|] && s2 == k[..|s2|];
    assert r1 == k[|s1| + 1..] && r2 == k[|s2| + 1..];
  }

  // ----- the steps -----

  /** Some registrations disappeared, each together with its list entry and its key entry; the
      others, their order and their key entries are as before. */
  ghost predicate Shrinks(t: Tables, t': Tables) {
    && t'.gens == t.gens
    && (forall sid :: sid in t'.connect ==> sid in t.connect && t'.connect[sid] == t.connect[sid])
    && (forall src :: ListOf(t', src) == Keep(ListOf(t, src), t'.connect.Keys))
    && (forall k :: k in t'.keys ==> k in t.keys && t'.keys[k] == t.keys[k])
    && (forall k :: k in t.keys ==> (k in t'.keys <==> Backed(t', k)))
  }

  function Registered(t: Tables, sid: Bytes, src: Bytes, expireAt: int): Tables {
    t.(connect := t.connect[sid := Reg(src, expireAt, t.gens)],
       bySrc := t.bySrc[src := ListOf(t, src) + [sid]],
       gens := t.gens + 1)
  }

  datatype Action =
    | Register(sid: Bytes, src: Bytes, expireAt: int)
    | Install(sid: Bytes, src: Bytes, tx: Bytes, rx: Bytes)
    | Packet(sid: Bytes, src: Bytes, seqNo: U64, plain: Bytes)
    | Query

  /** What an action does to the tables `m` left after purging, and what it releases.
      A refused action changes nothing. */
  ghost predicate Acts(m: Tables, a: Action, t': Tables, out: seq<Bytes>) {
    match a
    case Register(sid, src, expireAt) =>
      && out == []
      && (t' == m
          || (&& sid !in m.connect && sid != [] && NulFree(src)
              && |ListOf(m, src)| < MAX_PER_SRC && |Evictable(m)| <= MAX_TOTAL
              && t' == Registered(m, sid, src, expireAt)))
    case Install(sid, src, tx, rx) =>
      && out == []
      && (t' == m
          || (&& sid in m.connect && m.connect[sid].srcID == src
              && Key(sid, src) !in m.keys
              && t' == m.(keys := m.keys[Key(sid, src) := FreshEntry(tx, rx)])))
    case Packet(sid, src, seqNo, plain) =>
      if Key(sid, src) in m.keys then
        var (k, released) := Ingest(m.keys[Key(sid, src)], seqNo, plain);
        out == released && t' == m.(keys := m.keys[Key(sid, src) := k])
      else
        out == [] && t' == m
    case Query => out == [] && t' == m
  }

  /** One locked section: purge, then act. */
  ghost predicate Step(t: Tables, a: Action, t': Tables, out: seq<Bytes>) {
    exists m :: Shrinks(t, m) && Acts(m, a, t', out)
  }

  lemma ShrinksRefl(t: Tables)
    requires Inv(t)
    ensures Shrinks(t, t)
  {
    forall src ensures ListOf(t, src) == Keep(ListOf(t, src), t.connect.Keys) {
      KeepAll(ListOf(t, src), t.connect.Keys);
    }
  }

  lemma ShrinksTrans(t: Tables, m: Tables, u: Tables)
    requires Shrinks(t, m) && Shrinks(m, u)
    ensures Shrinks(t, u)
  {
    forall src ensures ListOf(u, src) == Keep(ListOf(t, src), u.connect.Keys) {
      KeepTwice(ListOf(t, src), m.connect.Keys, u.connect.Keys);
    }
    forall k | k in t.keys ensures k in u.keys <==> Backed(u, k) {
      if Backed(u, k) {
        var sid :| sid in u.connect && k == Key(sid, u.connect[sid].srcID);
        assert sid in m.connect && k == Key(sid, m.connect[sid].srcID);
      }
    }
  }

  lemma ShrinksKeepsInv(t: Tables, m: Tables)
    requires Inv(t) && Shrinks(t, m)
    ensures Inv(m)
    ensures Evictable(m) <= Evictable(t)
    ensures WithinCaps(t) ==> WithinCaps(m)
  {
    forall src ensures NoDup(ListOf(m, src)) && |ListOf(m, src)| <= |ListOf(t, src)| {
      KeepMembers(ListOf(t, src), m.connect.Keys);
    }
    forall src, sid ensures sid in ListOf(m, src) <==> sid in m.connect && m.connect[sid].srcID == src {
      KeepMembers(ListOf(t, src), m.connect.Keys);
    }
    SubsetSize(Evictable(m), Evictable(t));
  }

  lemma {:induction false} SubsetSize<T>(a: set<T>, b: set<T>)
    requires a <= b
    ensures |a| <= |b|
  {
    assert b == a + (b - a);
  }

  /** Every step keeps the cross-table invariant and the caps. */
  lemma StepKeepsInv(t: Tables, a: Action, t': Tables, out: seq<Bytes>)
    requires Inv(t) && WithinCaps(t) && Step(t, a, t', out)
    ensures Inv(t') && WithinCaps(t')
  {
    var m :| Shrinks(t, m) && Acts(m, a, t', out);
    ShrinksKeepsInv(t, m);
    if t' != m {
      match a
      case Register(sid, src, expireAt) =>
        RegisterKeepsInv(m, sid, src, expireAt);
      case Install(sid, src, tx, rx) =>
        KeysOnly(m, t', Key(sid, src));
      case Packet(sid, src, seqNo, plain) =>
        assert Backed(m, Key(sid, src));
        KeysOnly(m, t', Key(sid, src));
      case Query =>
    }
  }

  lemma KeysOnly(m: Tables, t': Tables, k: Bytes)
    requires Inv(m) && WithinCaps(m) && Backed(m, k)
    requires t' == m.(keys := t'.keys) && t'.keys.Keys <= m.keys.Keys + {k}
    ensures Inv(t') && WithinCaps(t')
  {
    forall src ensures ListOf(t', src) == ListOf(m, src) {}
    forall x | x in t'.keys ensures Backed(t', x) {
      assert Backed(m, x);
      var sid :| sid in m.connect && x == Key(sid, m.connect[sid].srcID);
      assert sid in t'.connect && x == Key(sid, t'.connect[sid].srcID);
    }
    assert Evictable(t') == Evictable(m);
  }

  lemma RegisterKeepsInv(m: Tables, sid: Bytes, src: Bytes, expireAt: int)
    requires Inv(m) && WithinCaps(m)
    requires sid !in m.connect && sid != [] && NulFree(src)
    requires |ListOf(m, src)| < MAX_PER_SRC && |Evictable(m)| <= MAX_TOTAL
    ensures Inv(Registered(m, sid, src, expireAt)) && WithinCaps(Registered(m, sid, src, expireAt))
  {
    var t' := Registered(m, sid, src, expireAt);
    forall r ensures NoDup(ListOf(t', r)) && |ListOf(t', r)| <= MAX_PER_SRC {
      RegisteredLists(m, sid, src, expireAt, r);
    }
    forall r, x ensures x in ListOf(t', r) <==> x in t'.connect && t'.connect[x].srcID == r {
      RegisteredLists(m, sid, src, expireAt, r);
    }
    forall k | k in t'.keys ensures Backed(t', k) {
      assert Backed(m, k);
      var x :| x in m.connect && k == Key(x, m.connect[x].srcID);
      assert x in t'.connect && k == Key(x, t'.connect[x].srcID);
    }
    assert Evictable(t') <= Evictable(m) + {sid};
    SubsetSize(Evictable(t'), Evictable(m) + {sid});
  }

  lemma RegisteredLists(m: Tables, sid: Bytes, src: Bytes, expireAt: int, r: Bytes)
    requires Inv(m) && WithinCaps(m)
    requires sid !in m.connect && |ListOf(m, src)| < MAX_PER_SRC
    ensures var t' := Registered(m, sid, src, expireAt);
            && ListOf(t', r) == (if r == src then ListOf(m, r) + [sid] else ListOf(m, r))
            && NoDup(ListOf(t', r)) && |ListOf(t', r)| <= MAX_PER_SRC
            && forall x :: x in ListOf(t', r) <==> x in t'.connect && t'.connect[x].srcID == r
  {
    assert sid !in ListOf(m, r);
    assert NoDup(ListOf(m, r)) && |ListOf(m, r)| <= MAX_PER_SRC;
    NoDupAppend(ListOf(m, r), sid);
  }

  lemma {:induction false} NoDupAppend(l: seq<Bytes>, x: Bytes)
    requires NoDup(l) && x !in l
    ensures NoDup(l + [x])
  {
    if l != [] {
      NoDupAppend(l[1..], x);
      assert (l + [x])[1..] == l[1..] + [x];
    }
  }

  // ----- whole runs -----

  const EMPTY: Tables := Tables(map[], map[], map[], 0)

  /** `states[0]` is empty and each step leads from one state to the next, releasing
      `outs[i]`. Any interleaving of any number of handlers is such a run. */
  ghost predicate IsRun(states: seq<Tables>, actions: seq<Action>, outs: seq<seq<Bytes>>) {
    && |states| == |actions| + 1 && |outs| == |actions|
    && states[0] == EMPTY
    && forall i :: 0 <= i < |actions| ==> StepAt(states, actions, outs, i)
  }

  ghost predicate StepAt(states: seq<Tables>, actions: seq<Action>, outs: seq<seq<Bytes>>, i: nat)
    requires |states| == |actions| + 1 && |outs| == |actions| && i < |actions|
  {
    Step(states[i], actions[i], states[i + 1], outs[i])
  }

  /** In every reachable state the by-source lists mirror the connect table, every key entry has
      its registration, and the caps hold; so if no registration expires at or after `NEVER`,
      there are at most `MAX_TOTAL + 1` of them. */
  lemma {:induction false} RunKeepsInv(states: seq<Tables>, actions: seq<Action>, outs: seq<seq<Bytes>>, n: nat)
    requires IsRun(states, actions, outs) && n <= |actions|
    ensures Inv(states[n]) && WithinCaps(states[n])
    ensures (forall sid :: sid in states[n].connect ==> states[n].connect[sid].expireAt < NEVER)
            ==> |states[n].connect| <= MAX_TOTAL + 1
  {
    if n == 0 {
      assert Evictable(EMPTY) == {};
      assert forall src :: ListOf(EMPTY, src) == [];
    } else {
      RunKeepsInv(states, actions, outs, n - 1);
      assert StepAt(states, actions, outs, n - 1);
      StepKeepsInv(states[n - 1], actions[n - 1], states[n], outs[n - 1]);
    }
    if forall sid :: sid in states[n].connect ==> states[n].connect[sid].expireAt < NEVER {
      assert Evictable(states[n]) == states[n].connect.Keys;
      assert |states[n].connect.Keys| == |states[n].connect|;
    }
  }

  /** Session `sid` holds registration number `gen`. */
  predicate Holds(t: Tables, sid: Bytes, gen: nat) {
    sid in t.connect && t.connect[sid].gen == gen
  }

  function KeyOf(t: Tables, sid: Bytes): Bytes
    requires sid in t.connect
  {
    Key(sid, t.connect[sid].srcID)
  }

  /** Across one step that keeps the registration, its source and key material stay, and its key
      entry changes only by ingesting a packet addressed to that entry. */
  lemma StepOnSession(t: Tables, a: Action, t': Tables, out: seq<Bytes>, sid: Bytes, gen: nat)
    requires Inv(t) && Step(t, a, t', out)
    requires Holds(t', sid, gen) && gen < t.gens
    ensures Holds(t, sid, gen) && t.connect[sid] == t'.connect[sid]
    ensures KeyOf(t, sid) in t.keys ==> KeyOf(t, sid) in t'.keys
    ensures KeyOf(t, sid) in t.keys ==>
              var k := KeyOf(t, sid);
              if a.Packet? && Key(a.sid, a.src) == k
              then (t'.keys[k], out) == Ingest(t.keys[k], a.seqNo, a.plain)
              else t'.keys[k] == t.keys[k]
  {
    var m :| Shrinks(t, m) && Acts(m, a, t', out);
    assert Holds(m, sid, gen) && m.connect[sid] == t'.connect[sid] by {
      if a.Register? && t' != m {
        assert t' == Registered(m, a.sid, a.src, a.expireAt);
      }
    }
    var k := KeyOf(t, sid);
    if k in t.keys {
      assert Backed(m, k);
      assert k in m.keys && m.keys[k] == t.keys[k];
      ActsOnKey(m, a, t', out, k);
    }
  }

  lemma ActsOnKey(m: Tables, a: Action, t': Tables, out: seq<Bytes>, k: Bytes)
    requires Acts(m, a, t', out) && k in m.keys
    ensures k in t'.keys
    ensures if a.Packet? && Key(a.sid, a.src) == k
            then (t'.keys[k], out) == Ingest(m.keys[k], a.seqNo, a.plain)
            else t'.keys[k] == m.keys[k]
  {
  }

  /** The entry of a session that holds its registration across step `j` of a run. */
  lemma RunStepOnSession(states: seq<Tables>, actions: seq<Action>, outs: seq<seq<Bytes>>, j: nat, sid: Bytes, gen: nat)
    requires IsRun(states, actions, outs) && j < |actions|
    requires Holds(states[j + 1], sid, gen) && gen < states[j].gens
    ensures Holds(states[j], sid, gen) && states[j].connect[sid] == states[j + 1].connect[sid]
    ensures var t, a, t' := states[j], actions[j], states[j + 1];
            var k := KeyOf(t, sid);
            k in t.keys ==>
              && k in t'.keys
              && if a.Packet? && Key(a.sid, a.src) == k
                 then (t'.keys[k], outs[j]) == Ingest(t.keys[k], a.seqNo, a.plain)
                 else t'.keys[k] == t.keys[k]
  {
    RunKeepsInv(states, actions, outs, j);
    assert StepAt(states, actions, outs, j);
    StepOnSession(states[j], actions[j], states[j + 1], outs[j], sid, gen);
  }

  lemma HolderIsNumbered(states: seq<Tables>, actions: seq<Action>, outs: seq<seq<Bytes>>, i: nat, sid: Bytes, gen: nat)
    requires IsRun(states, actions, outs) && i <= |actions|
    requires Holds(states[i], sid, gen)
    ensures gen < states[i].gens
  {
    RunKeepsInv(states, actions, outs, i);
  }

  /** Registration numbers are never reused: a later holder of `gen` is the same session, held
      without interruption. */
  lemma {:induction false} HeldThroughout(
      states: seq<Tables>, actions: seq<Action>, outs: seq<seq<Bytes>>, i: nat, l: nat, j: nat, sid: Bytes, gen: nat)
    requires IsRun(states, actions, outs) && i <= l <= j <= |actions|
    requires Holds(states[j], sid, gen) && gen < states[i].gens
    ensures Holds(states[l], sid, gen) && states[l].connect[sid] == states[j].connect[sid]
    ensures gen < states[l].gens
    decreases j - l
  {
    GensGrow(states, actions, outs, i, l);
    if l < j {
      HeldThroughout(states, actions, outs, i, l + 1, j, sid, gen);
      RunStepOnSession(states, actions, outs, l, sid, gen);
    }
  }

  lemma {:induction false} GensGrow(states: seq<Tables>, actions: seq<Action>, outs: seq<seq<Bytes>>, i: nat, j: nat)
    requires IsRun(states, actions, outs) && i <= j <= |actions|
    ensures states[i].gens <= states[j].gens
    decreases j - i
  {
    if i < j {
      GensGrow(states, actions, outs, i, j - 1);
      assert StepAt(states, actions, outs, j - 1);
    }
  }

  // ----- the reorder buffers in every run -----

  /** The buffer is in its window, and no more packets are delivered or waiting than `n`. */
  ghost predicate Fits(k: KeyEntry, n: nat) {
    Above(k) && Frontier(k) + |k.pending| <= n
  }

  /** In every state of every run, whatever packets were sent, every buffer is in its window; so it
      never holds more than 64 packets, and the cap rejects none that the other checks admit. */
  lemma {:induction false} WindowInEveryRun(
        states: seq<Tables>, actions: seq<Action>, outs: seq<seq<Bytes>>, n: nat, key: Bytes)
    requires IsRun(states, actions, outs) && n <= |actions| && key in states[n].keys
    ensures var k := states[n].keys[key];
            && Fits(k, n) && |k.pending| <= MAX_PENDING
            && (forall seqNo: U64 :: seqNo !in k.pending && Frontier(k) < seqNo <= Frontier(k) + MAX_GAP ==>
                |k.pending| < MAX_PENDING)
  {
    assert n > 0;
    assert StepAt(states, actions, outs, n - 1);
    if key in states[n - 1].keys {
      WindowInEveryRun(states, actions, outs, n - 1, key);
    }
    StepKeepsWindow(states[n - 1], actions[n - 1], states[n], outs[n - 1], key, n - 1);
    var k := states[n].keys[key];
    forall seqNo: U64
      ensures |k.pending| <= MAX_PENDING
      ensures seqNo !in k.pending && Frontier(k) < seqNo <= Frontier(k) + MAX_GAP ==> |k.pending| < MAX_PENDING
    {
      CapNeverRejects(k, seqNo);
    }
  }

  lemma StepKeepsWindow(t: Tables, a: Action, t': Tables, out: seq<Bytes>, key: Bytes, n: nat)
    requires Step(t, a, t', out) && key in t'.keys
    requires key in t.keys ==> Fits(t.keys[key], n)
    ensures Fits(t'.keys[key], n + 1)
  {
    var m :| Shrinks(t, m) && Acts(m, a, t', out);
    if key in m.keys {
      ActsOnKey(m, a, t', out, key);
      if a.Packet? && Key(a.sid, a.src) == key {
        IngestKeepsWindow(m.keys[key], a.seqNo, a.plain);
      }
    }
  }

  /** Step `j` is a packet for the entry that puts its frontier back to the start. It can be told
      before the step. */
  ghost predicate ResetsAt(states: seq<Tables>, actions: seq<Action>, key: Bytes, j: nat)
    requires j < |actions| < |states|
  {
    && key in states[j].keys
    && actions[j].Packet? && Key(actions[j].sid, actions[j].src) == key
    && Resets(states[j].keys[key], actions[j].seqNo)
  }

  /** Across a step that keeps the registration its entry stays and keeps its keys, and the receive
      frontier goes back if and only if the step is a reset. */
  lemma FrontierDropsIff(states: seq<Tables>, actions: seq<Action>, outs: seq<seq<Bytes>>, j: nat, sid: Bytes, gen: nat)
    requires IsRun(states, actions, outs) && j < |actions|
    requires Holds(states[j], sid, gen) && Holds(states[j + 1], sid, gen) && KeyOf(states[j], sid) in states[j].keys
    ensures KeyOf(states[j + 1], sid) == KeyOf(states[j], sid) && KeyOf(states[j], sid) in states[j + 1].keys
    ensures var k, k' := states[j].keys[KeyOf(states[j], sid)], states[j + 1].keys[KeyOf(states[j], sid)];
            && k'.tx == k.tx && k'.rx == k.rx
            && (Frontier(k') < Frontier(k) <==> ResetsAt(states, actions, KeyOf(states[j], sid), j))
  {
    var key, a := KeyOf(states[j], sid), actions[j];
    HolderIsNumbered(states, actions, outs, j, sid, gen);
    RunStepOnSession(states, actions, outs, j, sid, gen);
    WindowInEveryRun(states, actions, outs, j, key);
    if a.Packet? && Key(a.sid, a.src) == key {
      IngestKeepsWindow(states[j].keys[key], a.seqNo, a.plain);
    }
  }

  /** A reset takes at least `2^64 - 1` steps before it; `SentinelRestartsTheStream` shows that as many
      packets suffice. */
  lemma ResetIsLate(states: seq<Tables>, actions: seq<Action>, outs: seq<seq<Bytes>>, key: Bytes, j: nat)
    requires IsRun(states, actions, outs) && j < |actions| && ResetsAt(states, actions, key, j)
    ensures j >= MAX_U64
  {
    WindowInEveryRun(states, actions, outs, j, key);
    ResetNeedsAll(states[j].keys[key], actions[j].seqNo);
  }

  /** While a registration lasts, an installed key entry stays and keeps its keys, whatever packets
      arrive. */
  lemma {:induction false} EntryStays(
      states: seq<Tables>, actions: seq<Action>, outs: seq<seq<Bytes>>, i: nat, j: nat, sid: Bytes, gen: nat)
    requires IsRun(states, actions, outs) && i <= j <= |actions|
    requires Holds(states[i], sid, gen) && Holds(states[j], sid, gen)
    requires KeyOf(states[i], sid) in states[i].keys
    ensures states[i].connect[sid] == states[j].connect[sid]
    ensures KeyOf(states[j], sid) in states[j].keys
    ensures var k, k' := states[i].keys[KeyOf(states[i], sid)], states[j].keys[KeyOf(states[j], sid)];
            k'.tx == k.tx && k'.rx == k.rx
    decreases j - i
  {
    if i < j {
      HolderIsNumbered(states, actions, outs, i, sid, gen);
      HeldThroughout(states, actions, outs, i, i, j, sid, gen);
      HeldThroughout(states, actions, outs, i, j - 1, j, sid, gen);
      EntryStays(states, actions, outs, i, j - 1, sid, gen);
      FrontierDropsIff(states, actions, outs, j - 1, sid, gen);
    }
  }

  /** And unless one of the steps is a reset, its receive frontier never moves back. */
  lemma {:induction false} FrontierNeverReset(
      states: seq<Tables>, actions: seq<Action>, outs: seq<seq<Bytes>>, i: nat, j: nat, sid: Bytes, gen: nat)
    requires IsRun(states, actions, outs) && i <= j <= |actions|
    requires Holds(states[i], sid, gen) && Holds(states[j], sid, gen)
    requires KeyOf(states[i], sid) in states[i].keys
    requires forall l :: i <= l < j ==> !ResetsAt(states, actions, KeyOf(states[i], sid), l)
    ensures KeyOf(states[j], sid) == KeyOf(states[i], sid) && KeyOf(states[j], sid) in states[j].keys
    ensures Frontier(states[i].keys[KeyOf(states[i], sid)]) <= Frontier(states[j].keys[KeyOf(states[j], sid)])
    decreases j - i
  {
    if i < j {
      HolderIsNumbered(states, actions, outs, i, sid, gen);
      HeldThroughout(states, actions, outs, i, i, j, sid, gen);
      HeldThroughout(states, actions, outs, i, j - 1, j, sid, gen);
      FrontierNeverReset(states, actions, outs, i, j - 1, sid, gen);
      FrontierDropsIff(states, actions, outs, j - 1, sid, gen);
    }
  }

  /** So in the first `2^64 - 1` steps of any run it never does, whatever packets arrive. */
  lemma FrontierNeverResetEarly(
      states: seq<Tables>, actions: seq<Action>, outs: seq<seq<Bytes>>, i: nat, j: nat, sid: Bytes, gen: nat)
    requires IsRun(states, actions, outs) && i <= j <= |actions| && j <= MAX_U64
    requires Holds(states[i], sid, gen) && Holds(states[j], sid, gen)
    requires KeyOf(states[i], sid) in states[i].keys
    ensures KeyOf(states[j], sid) in states[j].keys
    ensures Frontier(states[i].keys[KeyOf(states[i], sid)]) <= Frontier(states[j].keys[KeyOf(states[j], sid)])
  {
    forall l | i <= l < j ensures !ResetsAt(states, actions, KeyOf(states[i], sid), l) {
      if ResetsAt(states, actions, KeyOf(states[i], sid), l) {
        ResetIsLate(states, actions, outs, KeyOf(states[i], sid), l);
      }
    }
    FrontierNeverReset(states, actions, outs, i, j, sid, gen);
  }

  /** Step `i` finishes a handshake: it puts a key entry where there was none. */
  ghost predicate Installs(states: seq<Tables>, actions: seq<Action>, i: nat, sid: Bytes, gen: nat)
    requires |states| == |actions| + 1 && i < |actions|
  {
    && actions[i].Install? && actions[i].sid == sid
    && Holds(states[i + 1], sid, gen)
    && Key(sid, actions[i].src) !in states[i].keys && Key(sid, actions[i].src) in states[i + 1].keys
  }

  /** However handshakes interleave between their two locked checks, at most one of them installs
      keys for a given registration. */
  lemma AtMostOneInstall(
      states: seq<Tables>, actions: seq<Action>, outs: seq<seq<Bytes>>, i: nat, j: nat, sid: Bytes, gen: nat)
    requires IsRun(states, actions, outs) && i < |actions| && j < |actions|
    requires Installs(states, actions, i, sid, gen) && Installs(states, actions, j, sid, gen)
    ensures i == j
  {
    if i < j {
      SecondInstallRefused(states, actions, outs, i, j, sid, gen);
    } else if j < i {
      SecondInstallRefused(states, actions, outs, j, i, sid, gen);
    }
  }

  lemma SecondInstallRefused(
      states: seq<Tables>, actions: seq<Action>, outs: seq<seq<Bytes>>, i: nat, j: nat, sid: Bytes, gen: nat)
    requires IsRun(states, actions, outs) && i < j < |actions|
    requires Installs(states, actions, i, sid, gen)
    ensures !Installs(states, actions, j, sid, gen)
  {
    HolderIsNumbered(states, actions, outs, i + 1, sid, gen);
    if Holds(states[j + 1], sid, gen) {
      HeldThroughout(states, actions, outs, i + 1, j, j + 1, sid, gen);
      assert StepAt(states, actions, outs, i) && StepAt(states, actions, outs, j);
      InstalledSource(states[i], actions[i], states[i + 1], outs[i]);
      EntryStays(states, actions, outs, i + 1, j, sid, gen);
      if Installs(states, actions, j, sid, gen) {
        InstalledSource(states[j], actions[j], states[j + 1], outs[j]);
      }
    }
  }

  /** A handshake installs only for the source that registered the session. */
  lemma InstalledSource(t: Tables, a: Action, t': Tables, out: seq<Bytes>)
    requires Step(t, a, t', out) && a.Install?
    requires Key(a.sid, a.src) !in t.keys && Key(a.sid, a.src) in t'.keys
    ensures a.sid in t'.connect && t'.connect[a.sid].srcID == a.src
    ensures t'.keys[Key(a.sid, a.src)] == FreshEntry(a.tx, a.rx)
  {
  }

  function Contribution(a: Action, out: seq<Bytes>, key: Bytes): seq<Bytes> {
    if a.Packet? && Key(a.sid, a.src) == key then out else []
  }

  /** Everything steps `i .. j-1` released for key entry `key`, in order. */
  function Released(actions: seq<Action>, outs: seq<seq<Bytes>>, key: Bytes, i: nat, j: nat): seq<Bytes>
    requires i <= j <= |actions| == |outs|
  {
    if i == j then []
    else
      Released(actions, outs, key, i, j - 1) + Contribution(actions[j - 1], outs[j - 1], key)
  }

  /** Packets for `key` among steps `i .. j-1` are unaltered and below the sentinel. */
  ghost predicate Unaltered(actions: seq<Action>, key: Bytes, payload: int -> Bytes, i: nat, j: nat)
    requires i <= j <= |actions|
  {
    forall l :: i <= l < j && actions[l].Packet? && Key(actions[l].sid, actions[l].src) == key ==>
      actions[l].seqNo < MAX_U64 && actions[l].plain == payload(actions[l].seqNo)
  }

  /** The reorder guarantee inside the full endpoint: from the handshake on, for as long as the
      registration lasts and whatever happens to other sessions in between, packets
      `0 .. n-1` of the session are released once each and in order. */
  lemma SessionStreamInOrder(
      states: seq<Tables>, actions: seq<Action>, outs: seq<seq<Bytes>>, i: nat, j: nat,
      sid: Bytes, gen: nat, payload: int -> Bytes)
    requires IsRun(states, actions, outs) && i < j <= |actions|
    requires Installs(states, actions, i, sid, gen) && Holds(states[j], sid, gen)
    requires Unaltered(actions, Key(sid, actions[i].src), payload, i + 1, j)
    ensures var key := Key(sid, actions[i].src);
            && key in states[j].keys
            && Windowed(states[j].keys[key], payload)
            && Released(actions, outs, key, i + 1, j) == Stretch(payload, 0, Frontier(states[j].keys[key]))
  {
    assert StepAt(states, actions, outs, i);
    InstalledSource(states[i], actions[i], states[i + 1], outs[i]);
    StreamFrom(states, actions, outs, i + 1, j, sid, gen, payload);
  }

  lemma {:induction false} StreamFrom(
      states: seq<Tables>, actions: seq<Action>, outs: seq<seq<Bytes>>, i: nat, j: nat,
      sid: Bytes, gen: nat, payload: int -> Bytes)
    requires IsRun(states, actions, outs) && i <= j <= |actions|
    requires Holds(states[i], sid, gen) && Holds(states[j], sid, gen)
    requires KeyOf(states[i], sid) in states[i].keys
    requires states[i].keys[KeyOf(states[i], sid)].lastDataSeq == MAX_U64
    requires states[i].keys[KeyOf(states[i], sid)].pending == map[]
    requires Unaltered(actions, KeyOf(states[i], sid), payload, i, j)
    ensures var key := KeyOf(states[i], sid);
            && key in states[j].keys
            && Windowed(states[j].keys[key], payload)
            && Released(actions, outs, key, i, j) == Stretch(payload, 0, Frontier(states[j].keys[key]))
    decreases j
  {
    if i < j {
      var key := KeyOf(states[i], sid);
      HolderIsNumbered(states, actions, outs, i, sid, gen);
      HeldThroughout(states, actions, outs, i, i, j, sid, gen);
      HeldThroughout(states, actions, outs, i, j - 1, j, sid, gen);
      StreamFrom(states, actions, outs, i, j - 1, sid, gen, payload);
      StreamStep(states, actions, outs, j - 1, sid, gen, payload);
    }
  }

  lemma StreamStep(
      states: seq<Tables>, actions: seq<Action>, outs: seq<seq<Bytes>>, j: nat,
      sid: Bytes, gen: nat, payload: int -> Bytes)
    requires IsRun(states, actions, outs) && j < |actions|
    requires Holds(states[j], sid, gen) && gen < states[j].gens && Holds(states[j + 1], sid, gen)
    requires KeyOf(states[j], sid) in states[j].keys
    requires Windowed(states[j].keys[KeyOf(states[j], sid)], payload)
    requires Unaltered(actions, KeyOf(states[j], sid), payload, j, j + 1)
    ensures var key := KeyOf(states[j], sid);
            && key in states[j + 1].keys
            && Windowed(states[j + 1].keys[key], payload)
            && Stretch(payload, 0, Frontier(states[j + 1].keys[key]))
               == Stretch(payload, 0, Frontier(states[j].keys[key])) + Contribution(actions[j], outs[j], key)
  {
    var key := KeyOf(states[j], sid);
    RunStepOnSession(states, actions, outs, j, sid, gen);
    ExtendStream(states[j].keys[key], actions[j], states[j + 1].keys[key], outs[j], key, payload);
  }

  lemma ExtendStream(k: KeyEntry, a: Action, k': KeyEntry, out: seq<Bytes>, key: Bytes, payload: int -> Bytes)
    requires Windowed(k, payload)
    requires a.Packet? && Key(a.sid, a.src) == key ==> a.seqNo < MAX_U64 && a.plain == payload(a.seqNo)
    requires if a.Packet? && Key(a.sid, a.src) == key
             then (k', out) == Ingest(k, a.seqNo, a.plain)
             else k' == k
    ensures Windowed(k', payload)
    ensures Stretch(payload, 0, Frontier(k'))
         == Stretch(payload, 0, Frontier(k)) + Contribution(a, out, key)
  {
    if a.Packet? && Key(a.sid, a.src) == key {
      IngestStep(k, a.seqNo, payload);
      assert Stretch(payload, 0, Frontier(k)) + Stretch(payload, Frontier(k), Frontier(k'))
          == Stretch(payload, 0, Frontier(k'));
    }
  }
}
