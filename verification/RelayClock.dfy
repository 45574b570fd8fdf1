/** The relay-v1 endpoint with its clock: what purging, the two caps and the connect rate limit may
    remove or refuse at which time, as timed steps over `RelayTables`. Over every timed run a
    registration below the caps lasts until it expires, and so does its stream. Clock readings are in
    nanoseconds, expiry times in seconds. */
module RelayClock {
  import opened Basics
  import opened RelayReorder
  import opened RelayTables

  const SECOND: int := 1_000_000_000
  const PURGE_INTERVAL: int := 2 * SECOND
  const MIN_CONNECT_GAP: int := 200_000_000

  function Unix(now: int): int { now / SECOND }

  /** The tables, when they were last purged, and when each source last connected. */
  datatype Clocked = Clocked(tables: Tables, lastPurge: Option<int>, lastConnectAt: map<Bytes, int>)

  const START: Clocked := Clocked(EMPTY, None, map[])

  /** Two seconds have passed, or the total cap is exceeded. */
  predicate Due(c: Clocked, now: int) {
    c.lastPurge.None? || now - c.lastPurge.value >= PURGE_INTERVAL || |c.tables.connect| > MAX_TOTAL
  }

  /** The sessions of `t` that have not expired at `unix`. */
  function Unexpired(t: Tables, unix: int): set<Bytes> {
    set sid | sid in t.connect && unix <= t.connect[sid].expireAt
  }

  /** Of the sessions in `all`, what is not in `t'` expires no later than anything that is. */
  ghost predicate OldestFirst(t: Tables, all: set<Bytes>, t': Tables) {
    forall x, y :: x in all && x in t.connect && x !in t'.connect && y in t'.connect && y in t.connect ==>
      t.connect[x].expireAt <= t.connect[y].expireAt
  }

  /** Of the sessions in `all`, `t'` has as many as the total cap allows: all if they fit; otherwise
      those that expire first are gone, no more than necessary, and only what eviction cannot see may
      be left above the cap. */
  ghost predicate Capped(t: Tables, all: set<Bytes>, t': Tables) {
    && Shrinks(t, t') && t'.connect.Keys <= all
    && (|all| <= MAX_TOTAL ==> t'.connect.Keys == all)
    && (t'.connect.Keys != all ==> |t'.connect| >= MAX_TOTAL)
    && (|t'.connect| <= MAX_TOTAL || Evictable(t') == {})
    && OldestFirst(t, all, t')
  }

  /** `m` and `last` are the tables and the time of the last purge after the purge that starts a locked
      section at time `now`. */
  ghost predicate Purged(c: Clocked, now: int, m: Tables, last: Option<int>) {
    if Due(c, now) then Capped(c.tables, Unexpired(c.tables, Unix(now)), m) && last == Some(now)
    else m == c.tables && last == c.lastPurge
  }

  /** The first `n` of a list. */
  function FirstOf(l: seq<Bytes>, n: nat): set<Bytes>
    requires n <= |l|
  {
    if n == 0 then {} else FirstOf(l, n - 1) + {l[n - 1]}
  }

  /** How many of a source's sessions make way for another one. */
  function Surplus(l: seq<Bytes>): (n: nat)
    ensures n <= |l|
  {
    if |l| >= MAX_PER_SRC then |l| - (MAX_PER_SRC - 1) else 0
  }

  /** The source's oldest sessions are gone, as many as it takes to free a place. */
  ghost predicate Freed(m: Tables, src: Bytes, f: Tables) {
    Shrinks(m, f) && f.connect.Keys == m.connect.Keys - FirstOf(ListOf(m, src), Surplus(ListOf(m, src)))
  }

  /** Both caps are enforced on `m` before a session of `src` is added. */
  ghost predicate RoomMade(m: Tables, src: Bytes, r: Tables) {
    exists f :: Freed(m, src, f) && Capped(f, f.connect.Keys, r)
  }

  predicate TooSoon(c: Clocked, src: Bytes, now: int) {
    src in c.lastConnectAt && now - c.lastConnectAt[src] < MIN_CONNECT_GAP
  }

  /** The session is registered to this source and has not expired. */
  predicate ConnectValid(t: Tables, sid: Bytes, src: Bytes, unix: int) {
    sid in t.connect && t.connect[sid].srcID == src && unix <= t.connect[sid].expireAt
  }

  /** A locked section: what it does, the time it starts, and the time a handshake checks its
      registration. */
  datatype Call = Call(action: Action, now: int, later: int)

  /** A connect request on the tables `m` the purge left: a known session is left alone, a hasty source
      refused, any other request registered once there is room. */
  ghost predicate Connects(c: Clocked, m: Tables, a: Action, now: int, c': Clocked)
    requires a.Register?
  {
    if a.sid in m.connect || TooSoon(c, a.src, now) then
      c'.tables == m && c'.lastConnectAt == c.lastConnectAt
    else
      && c'.lastConnectAt == c.lastConnectAt[a.src := now]
      && exists r :: RoomMade(m, a.src, r) && c'.tables == Registered(r, a.sid, a.src, a.expireAt)
  }

  /** What an action does to the tables `m` the purge left. */
  ghost predicate Follows(c: Clocked, m: Tables, call: Call, c': Clocked, out: seq<Bytes>) {
    match call.action
    case Register(_, _, _) => out == [] && Connects(c, m, call.action, call.now, c')
    case Install(sid, src, tx, rx) =>
      && out == [] && c'.lastConnectAt == c.lastConnectAt
      && c'.tables == if ConnectValid(m, sid, src, Unix(call.later)) && Key(sid, src) !in m.keys
                      then m.(keys := m.keys[Key(sid, src) := FreshEntry(tx, rx)]) else m
    case Packet(_, _, _, _) => c'.lastConnectAt == c.lastConnectAt && Acts(m, call.action, c'.tables, out)
    case Query => out == [] && c'.lastConnectAt == c.lastConnectAt && c'.tables == m
  }

  /** A connect request without a session or a source is refused before anything else. */
  predicate Nameless(a: Action) {
    a.Register? && (a.sid == [] || a.src == [])
  }

  /** One locked section. */
  ghost predicate TimedStep(c: Clocked, call: Call, c': Clocked, out: seq<Bytes>) {
    if Nameless(call.action) then c' == c && out == []
    else exists m :: Purged(c, call.now, m, c'.lastPurge) && Follows(c, m, call, c', out)
  }

  // ----- timed steps are steps -----

  lemma PurgedShrinks(c: Clocked, now: int, m: Tables, last: Option<int>)
    requires Inv(c.tables) && Purged(c, now, m, last)
    ensures Shrinks(c.tables, m)
  {
    if !Due(c, now) {
      ShrinksRefl(m);
    }
  }

  /** Once room is made the source has a free place and the cap holds for what eviction can see. */
  lemma RoomIsThere(m: Tables, src: Bytes, r: Tables)
    requires Inv(m) && WithinCaps(m) && RoomMade(m, src, r)
    ensures Shrinks(m, r) && |ListOf(r, src)| < MAX_PER_SRC && |Evictable(r)| <= MAX_TOTAL
  {
    var f :| Freed(m, src, f) && Capped(f, f.connect.Keys, r);
    ShrinksTrans(m, f, r);
    FreedList(m, src, f);
    KeepMembers(ListOf(f, src), r.connect.Keys);
    CapHolds(f, r);
  }

  lemma CapHolds(f: Tables, r: Tables)
    requires Capped(f, f.connect.Keys, r)
    ensures |Evictable(r)| <= MAX_TOTAL
  {
    SubsetSize(Evictable(r), r.connect.Keys);
    assert |r.connect.Keys| == |r.connect|;
  }

  /** The source's list without its surplus. */
  lemma FreedList(m: Tables, src: Bytes, f: Tables)
    requires Inv(m) && Freed(m, src, f)
    ensures ListOf(f, src) == ListOf(m, src)[Surplus(ListOf(m, src))..]
  {
    var l := ListOf(m, src);
    var n := Surplus(l);
    assert forall x :: x in l ==> x in m.connect;
    FirstOfMembers(l, n);
    KeepTail(l, n, f.connect.Keys);
  }

  lemma {:induction false} FirstOfMembers(l: seq<Bytes>, n: nat)
    requires n <= |l|
    ensures forall x :: x in FirstOf(l, n) <==> x in l[..n]
  {
    if n > 0 {
      FirstOfMembers(l, n - 1);
      assert l[..n] == l[..n - 1] + [l[n - 1]];
    }
  }

  lemma {:induction false} KeepTail(l: seq<Bytes>, n: nat, alive: set<Bytes>)
    requires n <= |l| && NoDup(l) && forall x :: x in l ==> (x in alive <==> x !in l[..n])
    ensures Keep(l, alive) == l[n..]
  {
    if n == 0 {
      KeepAll(l, alive);
    } else {
      assert l[0] in l[..n];
      assert l[..n][1..] == l[1..][..n - 1];
      assert l[..n] == [l[0]] + l[1..][..n - 1];
      KeepTail(l[1..], n - 1, alive);
    }
  }

  /** A timed step is a step of the untimed tables, so everything `RelayTables` proves of runs holds of
      timed runs. */
  lemma TimedIsStep(c: Clocked, call: Call, c': Clocked, out: seq<Bytes>)
    requires Inv(c.tables) && WithinCaps(c.tables) && TimedStep(c, call, c', out)
    requires call.action.Register? ==> NulFree(call.action.src)
    ensures Step(c.tables, call.action, c'.tables, out)
  {
    if Nameless(call.action) {
      ShrinksRefl(c.tables);
    } else {
      var m :| Purged(c, call.now, m, c'.lastPurge) && Follows(c, m, call, c', out);
      PurgedShrinks(c, call.now, m, c'.lastPurge);
      ShrinksKeepsInv(c.tables, m);
      if call.action.Register? {
        ConnectIsStep(c, m, call.action, call.now, c');
      } else {
        assert Acts(m, call.action, c'.tables, out);
      }
    }
  }

  lemma ConnectIsStep(c: Clocked, m: Tables, a: Action, now: int, c': Clocked)
    requires a.Register? && !Nameless(a) && NulFree(a.src) && Connects(c, m, a, now, c')
    requires Shrinks(c.tables, m) && Inv(m) && WithinCaps(m)
    ensures Step(c.tables, a, c'.tables, [])
  {
    if a.sid in m.connect || TooSoon(c, a.src, now) {
      assert Acts(m, a, c'.tables, []);
    } else {
      var r :| RoomMade(m, a.src, r) && c'.tables == Registered(r, a.sid, a.src, a.expireAt);
      RoomIsThere(m, a.src, r);
      ShrinksTrans(c.tables, m, r);
      assert Acts(r, a, c'.tables, []);
    }
  }

  // ----- when a registration goes -----

  /** The connect request makes the session give up its place: its source has 64 sessions, and it is the
      oldest of them. */
  ghost predicate Displaces(c: Clocked, m: Tables, call: Call, sid: Bytes) {
    && call.action.Register? && call.action.sid !in m.connect && !TooSoon(c, call.action.src, call.now)
    && |ListOf(m, call.action.src)| == MAX_PER_SRC && ListOf(m, call.action.src)[0] == sid
  }

  /** Below the total cap a registration goes in a step exactly when a purge is due and it has expired,
      or when the purge leaves its source 64 sessions, of which it is the oldest, and another one is
      registered. */
  lemma GoesIff(c: Clocked, call: Call, m: Tables, c': Clocked, out: seq<Bytes>, sid: Bytes)
    requires Inv(c.tables) && WithinCaps(c.tables) && |c.tables.connect| <= MAX_TOTAL && sid in c.tables.connect
    requires !Nameless(call.action) && Purged(c, call.now, m, c'.lastPurge) && Follows(c, m, call, c', out)
    ensures !Holds(c'.tables, sid, c.tables.connect[sid].gen) <==>
            || (Due(c, call.now) && Unix(call.now) > c.tables.connect[sid].expireAt)
            || Displaces(c, m, call, sid)
  {
    PurgeDrops(c, call.now, m, c'.lastPurge, sid);
    PurgedShrinks(c, call.now, m, c'.lastPurge);
    ShrinksKeepsInv(c.tables, m);
    SubsetSize(m.connect.Keys, c.tables.connect.Keys);
    assert |m.connect.Keys| == |m.connect| && |c.tables.connect.Keys| == |c.tables.connect|;
    if call.action.Register? && call.action.sid !in m.connect && !TooSoon(c, call.action.src, call.now) {
      RegisterDrops(m, call.action, c'.tables, sid, c.tables.connect[sid].gen);
    } else {
      assert c'.tables.connect == m.connect;
    }
  }

  /** Registering alone, below the total cap. */
  lemma RegisterDrops(m: Tables, a: Action, t': Tables, sid: Bytes, gen: nat)
    requires Inv(m) && WithinCaps(m) && |m.connect| <= MAX_TOTAL && a.Register? && a.sid !in m.connect
    requires gen < m.gens && (sid in m.connect ==> m.connect[sid].gen == gen)
    requires exists r :: RoomMade(m, a.src, r) && t' == Registered(r, a.sid, a.src, a.expireAt)
    ensures !Holds(t', sid, gen) <==>
            sid !in m.connect || (|ListOf(m, a.src)| == MAX_PER_SRC && ListOf(m, a.src)[0] == sid)
  {
    var r :| RoomMade(m, a.src, r) && t' == Registered(r, a.sid, a.src, a.expireAt);
    RoomIsPart(m, a.src, r, sid);
    if sid in m.connect {
      RoomDrops(m, a.src, r, sid);
    }
    RegisteredHolds(r, a, sid, gen);
  }

  lemma RoomIsPart(m: Tables, src: Bytes, r: Tables, sid: Bytes)
    requires Inv(m) && WithinCaps(m) && RoomMade(m, src, r)
    ensures r.gens == m.gens && (sid in r.connect ==> sid in m.connect && r.connect[sid] == m.connect[sid])
  {
    RoomIsThere(m, src, r);
  }

  lemma RegisteredHolds(r: Tables, a: Action, sid: Bytes, gen: nat)
    requires a.Register? && gen < r.gens && a.sid !in r.connect
    ensures Holds(Registered(r, a.sid, a.src, a.expireAt), sid, gen) <==> Holds(r, sid, gen)
  {
  }

  /** Purging alone, below the total cap. */
  lemma PurgeDrops(c: Clocked, now: int, m: Tables, last: Option<int>, sid: Bytes)
    requires |c.tables.connect| <= MAX_TOTAL && Purged(c, now, m, last) && sid in c.tables.connect
    ensures sid !in m.connect <==> Due(c, now) && Unix(now) > c.tables.connect[sid].expireAt
  {
    var all := Unexpired(c.tables, Unix(now));
    SubsetSize(all, c.tables.connect.Keys);
    assert |c.tables.connect.Keys| == |c.tables.connect|;
  }

  /** Making room alone, below the total cap. */
  lemma RoomDrops(m: Tables, src: Bytes, r: Tables, sid: Bytes)
    requires Inv(m) && WithinCaps(m) && |m.connect| <= MAX_TOTAL && RoomMade(m, src, r) && sid in m.connect
    ensures sid !in r.connect <==> |ListOf(m, src)| == MAX_PER_SRC && ListOf(m, src)[0] == sid
  {
    var f :| Freed(m, src, f) && Capped(f, f.connect.Keys, r);
    SubsetSize(f.connect.Keys, m.connect.Keys);
    assert |m.connect.Keys| == |m.connect| && |f.connect.Keys| == |f.connect|;
    var l := ListOf(m, src);
    assert |l| <= MAX_PER_SRC;
    FirstOfMembers(l, Surplus(l));
    assert |l| == MAX_PER_SRC ==> l[..1] == [l[0]];
  }

  // ----- timed runs -----

  /** `cs` is what the endpoint goes through from its start by `calls`, releasing `outs`. Sources are
      peer IDs and so NUL-free. */
  ghost predicate TimedRun(cs: seq<Clocked>, calls: seq<Call>, outs: seq<seq<Bytes>>) {
    && |cs| == |calls| + 1 && |outs| == |calls| && cs[0] == START
    && forall i :: 0 <= i < |calls| ==> TimedAt(cs, calls, outs, i)
  }

  ghost predicate TimedAt(cs: seq<Clocked>, calls: seq<Call>, outs: seq<seq<Bytes>>, i: nat)
    requires |cs| == |calls| + 1 && |outs| == |calls| && i < |calls|
  {
    TimedStep(cs[i], calls[i], cs[i + 1], outs[i]) && (calls[i].action.Register? ==> NulFree(calls[i].action.src))
  }

  function TablesOf(cs: seq<Clocked>): (states: seq<Tables>)
    ensures |states| == |cs| && forall i :: 0 <= i < |cs| ==> states[i] == cs[i].tables
  {
    seq(|cs|, i requires 0 <= i < |cs| => cs[i].tables)
  }

  function ActionsOf(calls: seq<Call>): (actions: seq<Action>)
    ensures |actions| == |calls| && forall i :: 0 <= i < |calls| ==> actions[i] == calls[i].action
  {
    seq(|calls|, i requires 0 <= i < |calls| => calls[i].action)
  }

  lemma EmptyIsFine()
    ensures Inv(EMPTY) && WithinCaps(EMPTY)
  {
    assert Evictable(EMPTY) == {};
    assert forall src :: ListOf(EMPTY, src) == [];
  }

  lemma {:induction false} TimedKeepsInv(cs: seq<Clocked>, calls: seq<Call>, outs: seq<seq<Bytes>>, n: nat)
    requires TimedRun(cs, calls, outs) && n <= |calls|
    ensures Inv(cs[n].tables) && WithinCaps(cs[n].tables)
    ensures n < |calls| ==> Step(cs[n].tables, calls[n].action, cs[n + 1].tables, outs[n])
  {
    if n == 0 {
      EmptyIsFine();
    } else {
      TimedKeepsInv(cs, calls, outs, n - 1);
      StepKeepsInv(cs[n - 1].tables, calls[n - 1].action, cs[n].tables, outs[n - 1]);
    }
    if n < |calls| {
      assert TimedAt(cs, calls, outs, n);
      TimedIsStep(cs[n], calls[n], cs[n + 1], outs[n]);
    }
  }

  lemma TimedRunIsRun(cs: seq<Clocked>, calls: seq<Call>, outs: seq<seq<Bytes>>)
    requires TimedRun(cs, calls, outs)
    ensures IsRun(TablesOf(cs), ActionsOf(calls), outs)
  {
    forall i | 0 <= i < |calls| ensures StepAt(TablesOf(cs), ActionsOf(calls), outs, i) {
      TimedKeepsInv(cs, calls, outs, i);
    }
  }

  /** Call `l` threatens no registration of `src` that expires at `expireAt`: it comes before the end of
      that second, the endpoint is within its total cap, and it is no connect request of a source that
      has 64 sessions. */
  predicate Quiet(cs: seq<Clocked>, calls: seq<Call>, src: Bytes, expireAt: int, l: nat)
    requires l < |calls| < |cs|
  {
    && calls[l].now < (expireAt + 1) * SECOND
    && |cs[l].tables.connect| <= MAX_TOTAL
    && !(&& calls[l].action.Register? && calls[l].action.src == src
         && |ListOf(cs[l].tables, src)| >= MAX_PER_SRC)
  }

  ghost predicate AllQuiet(cs: seq<Clocked>, calls: seq<Call>, reg: Reg, i: nat, j: nat)
    requires j <= |calls| < |cs|
  {
    forall l :: i <= l < j ==> Quiet(cs, calls, reg.srcID, reg.expireAt, l)
  }

  lemma StaysOneStep(cs: seq<Clocked>, calls: seq<Call>, outs: seq<seq<Bytes>>, l: nat, sid: Bytes)
    requires TimedRun(cs, calls, outs) && l < |calls| && sid in cs[l].tables.connect
    requires Quiet(cs, calls, cs[l].tables.connect[sid].srcID, cs[l].tables.connect[sid].expireAt, l)
    ensures Holds(cs[l + 1].tables, sid, cs[l].tables.connect[sid].gen)
  {
    var c, call, c', out := cs[l], calls[l], cs[l + 1], outs[l];
    TimedKeepsInv(cs, calls, outs, l);
    assert TimedAt(cs, calls, outs, l);
    if !Nameless(call.action) {
      var m :| Purged(c, call.now, m, c'.lastPurge) && Follows(c, m, call, c', out);
      GoesIff(c, call, m, c', out, sid);
      BeforeExpiry(call.now, c.tables.connect[sid].expireAt);
      if Displaces(c, m, call, sid) {
        NotDisplaced(c.tables, m, call.action.src, sid);
      }
    }
  }

  lemma BeforeExpiry(now: int, expireAt: int)
    requires now < (expireAt + 1) * SECOND
    ensures Unix(now) <= expireAt
  {
  }

  /** What a full list after purging displaces belongs to its source, whose list was full before. */
  lemma NotDisplaced(t: Tables, m: Tables, src: Bytes, sid: Bytes)
    requires Inv(t) && Shrinks(t, m) && |ListOf(m, src)| == MAX_PER_SRC && ListOf(m, src)[0] == sid
    ensures sid in t.connect && t.connect[sid].srcID == src && |ListOf(t, src)| >= MAX_PER_SRC
  {
    KeepMembers(ListOf(t, src), m.connect.Keys);
    assert sid in ListOf(m, src);
    assert sid in ListOf(t, src);
  }

  /** Over every timed run a registration lasts until it expires, whatever is sent or registered
      meanwhile, as long as the endpoint is within its total cap and its source does not connect with 64
      sessions open. */
  lemma {:induction false} LastsUntilExpiry(
      cs: seq<Clocked>, calls: seq<Call>, outs: seq<seq<Bytes>>, i: nat, j: nat, sid: Bytes)
    requires TimedRun(cs, calls, outs) && i <= j <= |calls| && sid in cs[i].tables.connect
    requires AllQuiet(cs, calls, cs[i].tables.connect[sid], i, j)
    ensures sid in cs[j].tables.connect && cs[j].tables.connect[sid] == cs[i].tables.connect[sid]
    decreases j - i
  {
    if i < j {
      LastsUntilExpiry(cs, calls, outs, i, j - 1, sid);
      StaysOneStep(cs, calls, outs, j - 1, sid);
      TimedKeepsInv(cs, calls, outs, j - 1);
      StepOnSession(cs[j - 1].tables, calls[j - 1].action, cs[j].tables, outs[j - 1], sid,
                    cs[j - 1].tables.connect[sid].gen);
    }
  }

  /** So from the handshake to the expiry of its registration, below the caps, packets `0 .. n-1` of a
      session are released once each and in order: nothing has to be assumed about what the endpoint
      holds in the end. */
  lemma StreamUntilExpiry(
      cs: seq<Clocked>, calls: seq<Call>, outs: seq<seq<Bytes>>, i: nat, j: nat, sid: Bytes, gen: nat,
      payload: int -> Bytes)
    requires TimedRun(cs, calls, outs) && i < j <= |calls|
    requires Installs(TablesOf(cs), ActionsOf(calls), i, sid, gen)
    requires AllQuiet(cs, calls, cs[i + 1].tables.connect[sid], i + 1, j)
    requires Unaltered(ActionsOf(calls), Key(sid, calls[i].action.src), payload, i + 1, j)
    ensures var key := Key(sid, calls[i].action.src);
            && Holds(cs[j].tables, sid, gen) && key in cs[j].tables.keys
            && Windowed(cs[j].tables.keys[key], payload)
            && Released(ActionsOf(calls), outs, key, i + 1, j)
               == Stretch(payload, 0, Frontier(cs[j].tables.keys[key]))
  {
    TimedRunIsRun(cs, calls, outs);
    LastsUntilExpiry(cs, calls, outs, i + 1, j, sid);
    SessionStreamInOrder(TablesOf(cs), ActionsOf(calls), outs, i, j, sid, gen, payload);
  }

  // ----- the connect rate -----

  /** Call `l` adds a registration for `src`. */
  predicate RegistersAt(cs: seq<Clocked>, calls: seq<Call>, l: nat, src: Bytes)
    requires l < |calls| < |cs|
  {
    && calls[l].action.Register? && calls[l].action.src == src
    && cs[l].tables.gens != cs[l + 1].tables.gens
  }

  /** A call that adds a registration does not come too soon and records the time; any other leaves the
      times alone. */
  lemma RecordsTime(cs: seq<Clocked>, calls: seq<Call>, outs: seq<seq<Bytes>>, l: nat, src: Bytes)
    requires TimedRun(cs, calls, outs) && l < |calls|
    ensures RegistersAt(cs, calls, l, src) ==>
              && !(src in cs[l].lastConnectAt && calls[l].now - cs[l].lastConnectAt[src] < MIN_CONNECT_GAP)
              && cs[l + 1].lastConnectAt == cs[l].lastConnectAt[src := calls[l].now]
    ensures !RegistersAt(cs, calls, l, src) && src in cs[l].lastConnectAt ==>
              src in cs[l + 1].lastConnectAt && cs[l + 1].lastConnectAt[src] == cs[l].lastConnectAt[src]
  {
    TimedKeepsInv(cs, calls, outs, l);
    assert TimedAt(cs, calls, outs, l);
    var c, call, c' := cs[l], calls[l], cs[l + 1];
    if !Nameless(call.action) {
      var m :| Purged(c, call.now, m, c'.lastPurge) && Follows(c, m, call, c', outs[l]);
      PurgedShrinks(c, call.now, m, c'.lastPurge);
      ShrinksKeepsInv(c.tables, m);
      NumberedIff(c, m, call, c', outs[l]);
    }
  }

  lemma NumberedIff(c: Clocked, m: Tables, call: Call, c': Clocked, out: seq<Bytes>)
    requires Inv(m) && WithinCaps(m) && Follows(c, m, call, c', out)
    ensures var a := call.action;
            c'.tables.gens != m.gens <==> a.Register? && a.sid !in m.connect && !TooSoon(c, a.src, call.now)
  {
    var a := call.action;
    if a.Register? && a.sid !in m.connect && !TooSoon(c, a.src, call.now) {
      var r :| RoomMade(m, a.src, r) && c'.tables == Registered(r, a.sid, a.src, a.expireAt);
      RoomIsPart(m, a.src, r, []);
    }
  }

  lemma {:induction false} TimeIsKept(
      cs: seq<Clocked>, calls: seq<Call>, outs: seq<seq<Bytes>>, i: nat, j: nat, src: Bytes)
    requires TimedRun(cs, calls, outs) && i < j <= |calls| && RegistersAt(cs, calls, i, src)
    requires forall l :: i < l < j ==> !RegistersAt(cs, calls, l, src)
    ensures src in cs[j].lastConnectAt && cs[j].lastConnectAt[src] == calls[i].now
    decreases j
  {
    if i + 1 < j {
      TimeIsKept(cs, calls, outs, i, j - 1, src);
    }
    RecordsTime(cs, calls, outs, j - 1, src);
  }

  /** In every run two registrations of one source that follow each other are at least 200 ms apart. */
  lemma ConnectsApart(cs: seq<Clocked>, calls: seq<Call>, outs: seq<seq<Bytes>>, i: nat, j: nat, src: Bytes)
    requires TimedRun(cs, calls, outs) && i < j < |calls|
    requires RegistersAt(cs, calls, i, src) && RegistersAt(cs, calls, j, src)
    requires forall l :: i < l < j ==> !RegistersAt(cs, calls, l, src)
    ensures calls[j].now - calls[i].now >= 200_000_000
  {
    TimeIsKept(cs, calls, outs, i, j, src);
    RecordsTime(cs, calls, outs, j, src);
  }
}
