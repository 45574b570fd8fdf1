/** The relay-v1 endpoint as the service runs it: maps changed in place under one lock, with
    loops that purge, cap and evict. Every method that a handler calls is one locked section and is
    proved to be one step of `RelayClock.TimedStep`, so the run lemmas there and in `RelayTables` apply
    to any order of calls. Clock readings are parameters, in nanoseconds. */
module RelayEndpoint {
  import opened Basics
  import opened RelayReorder
  import opened RelayTables
  import opened RelayClock

  method RemoveString(l: seq<Bytes>, x: Bytes) returns (out: seq<Bytes>)
    ensures out == Without(l, x)
  {
    out := [];
    var i := 0;
    while i < |l|
      invariant 0 <= i <= |l|
      invariant out == Without(l[..i], x)
    {
      WithoutAppend(l[..i], l[i], x);
      assert l[..i + 1] == l[..i] + [l[i]];
      if l[i] != x {
        out := out + [l[i]];
      }
      i := i + 1;
    }
    assert l[..|l|] == l;
  }

  /** Removing one registration, as a function of the tables. */
  function Removed(t: Tables, sid: Bytes): Tables
    requires sid in t.connect
  {
    var src := t.connect[sid].srcID;
    t.(connect := t.connect - {sid},
       bySrc := t.bySrc[src := Without(ListOf(t, src), sid)],
       keys := t.keys - {Key(sid, src)})
  }

  lemma RemovedShrinks(t: Tables, sid: Bytes)
    requires Inv(t) && sid in t.connect
    ensures Shrinks(t, Removed(t, sid))
  {
    var u := Removed(t, sid);
    var src := t.connect[sid].srcID;
    forall r ensures ListOf(u, r) == Keep(ListOf(t, r), u.connect.Keys) {
      if r == src {
        WithoutIsKeep(ListOf(t, r), sid, u.connect.Keys);
      } else {
        assert sid !in ListOf(t, r);
        KeepAll(ListOf(t, r), u.connect.Keys);
      }
    }
    forall k | k in t.keys ensures k in u.keys <==> Backed(u, k) {
      RemovedBacking(t, sid, k);
    }
  }

  lemma RemovedBacking(t: Tables, sid: Bytes, k: Bytes)
    requires Inv(t) && sid in t.connect && k in t.keys
    ensures k in Removed(t, sid).keys <==> Backed(Removed(t, sid), k)
  {
    var u := Removed(t, sid);
    var src := t.connect[sid].srcID;
    var x :| x in t.connect && k == Key(x, t.connect[x].srcID);
    if k == Key(sid, src) {
      KeyInjective(x, t.connect[x].srcID, sid, src);
      if Backed(u, k) {
        var y :| y in u.connect && k == Key(y, u.connect[y].srcID);
        KeyInjective(y, u.connect[y].srcID, sid, src);
      }
    } else {
      assert x in u.connect && k == Key(x, u.connect[x].srcID);
    }
  }

  /** Removing one more registration keeps the tables consistent and touches nothing else. */
  lemma ShrinksMore(t: Tables, m: Tables, sid: Bytes)
    requires Inv(t) && Shrinks(t, m) && Inv(m) && sid in m.connect
    ensures Shrinks(t, Removed(m, sid)) && Inv(Removed(m, sid))
  {
    RemovedShrinks(m, sid);
    ShrinksTrans(t, m, Removed(m, sid));
    ShrinksKeepsInv(m, Removed(m, sid));
  }

  /** Dropping what has expired and then enforcing the total cap. */
  lemma CappedAfter(t: Tables, u: Tables, all: set<Bytes>, v: Tables)
    requires Shrinks(t, u) && u.connect.Keys == all && Capped(u, all, v)
    ensures Capped(t, all, v)
  {
    ShrinksTrans(t, u, v);
  }

  class Endpoint {
    var connect: map<Bytes, Reg>
    var bySrc: map<Bytes, seq<Bytes>>
    var keys: map<Bytes, KeyEntry>
    var gens: nat
    var lastPurge: Option<int>
    var lastConnectAt: map<Bytes, int>

    ghost function View(): Tables
      reads this
    {
      Tables(connect, bySrc, keys, gens)
    }

    ghost function State(): Clocked
      reads this
    {
      Clocked(View(), lastPurge, lastConnectAt)
    }

    constructor ()
      ensures State() == START
    {
      connect, bySrc, keys, gens := map[], map[], map[], 0;
      lastPurge, lastConnectAt := None, map[];
    }

    /** Removes one registration with its list entry and its key entry. */
    method RemoveConnect(sid: Bytes)
      modifies this`connect, this`bySrc, this`keys
      ensures View() == if sid in old(connect) then Removed(old(View()), sid) else old(View())
    {
      if sid !in connect {
        return;
      }
      var r := connect[sid];
      connect := connect - {sid};
      var kept := RemoveString(if r.srcID in bySrc then bySrc[r.srcID] else [], sid);
      bySrc := bySrc[r.srcID := kept];
      keys := keys - {Key(sid, r.srcID)};
    }

    /** The registration that expires first among those expiring before `NEVER`, or nothing. */
    method OldestVictim() returns (victim: Bytes)
      requires forall sid :: sid in connect ==> sid != []
      ensures if victim == [] then Evictable(View()) == {}
              else && victim in Evictable(View())
                   && forall sid :: sid in connect ==> connect[victim].expireAt <= connect[sid].expireAt
      ensures victim == [] <==> forall sid :: sid in connect ==> connect[sid].expireAt >= 0x3FFF_FFFF_FFFF_FFFF
    {
      victim := [];
      var minExp := NEVER;
      var todo := connect.Keys;
      while todo != {}
        invariant todo <= connect.Keys
        invariant victim == [] ==> minExp == NEVER
        invariant victim != [] ==> victim in connect && connect[victim].expireAt == minExp < NEVER
        invariant forall sid :: sid in connect && sid !in todo ==> minExp <= connect[sid].expireAt
        decreases |todo|
      {
        var sid :| sid in todo;
        todo := todo - {sid};
        if connect[sid].expireAt < minExp {
          minExp, victim := connect[sid].expireAt, sid;
        }
      }
    }

    /** Removes that registration, if there is one. */
    method EvictOldest() returns (ghost victim: Bytes)
      requires Inv(View())
      modifies this`connect, this`bySrc, this`keys
      ensures Evictable(old(View())) == {} ==> View() == old(View())
      ensures Evictable(old(View())) != {} ==>
                && victim in old(connect) && View() == Removed(old(View()), victim)
                && forall sid :: sid in old(connect) ==> old(connect)[victim].expireAt <= old(connect)[sid].expireAt
    {
      var v := OldestVictim();
      victim := v;
      if v != [] {
        RemoveConnect(v);
      }
    }

    method EnforceTotalCap()
      requires Inv(View())
      modifies this`connect, this`bySrc, this`keys
      ensures Inv(View()) && Capped(old(View()), old(connect.Keys), View())
    {
      ghost var u := View();
      ShrinksRefl(u);
      assert |u.connect.Keys| == |u.connect|;
      while |connect| > MAX_TOTAL
        invariant Inv(View()) && Shrinks(u, View()) && OldestFirst(u, u.connect.Keys, View())
        invariant |u.connect| <= MAX_TOTAL ==> View() == u
        invariant connect.Keys != u.connect.Keys ==> |connect| >= MAX_TOTAL
        decreases |connect|
      {
        var n := |connect|;
        ghost var m := View();
        ghost var victim := EvictOldest();
        if Evictable(m) != {} {
          ShrinksMore(u, m, victim);
          EvictionKeepsOrder(u, m, victim);
        }
        if |connect| >= n {
          break;
        }
      }
    }

    method PurgeExpired(unix: int)
      requires Inv(View())
      modifies this`connect, this`bySrc, this`keys
      ensures Inv(View()) && Shrinks(old(View()), View()) && connect.Keys == Unexpired(old(View()), unix)
    {
      ghost var t := View();
      ShrinksRefl(t);
      var todo := connect.Keys;
      while todo != {}
        invariant Inv(View()) && Shrinks(t, View()) && HalfPurged(t, View(), todo, unix)
        decreases |todo|
      {
        var sid :| sid in todo;
        PurgeMore(t, View(), todo, unix, sid);
        todo := todo - {sid};
        if unix > connect[sid].expireAt {
          RemoveConnect(sid);
        }
      }
      assert connect.Keys == Unexpired(t, unix);
    }

    /** Every two seconds, or when over the total cap, drops what has expired and then, if still
        over the cap, what expires first. */
    method MaybePurge(now: int)
      requires Inv(View())
      modifies this`connect, this`bySrc, this`keys, this`lastPurge
      ensures Inv(View()) && Purged(old(State()), now, View(), lastPurge)
      ensures var due := || old(lastPurge).None? || now >= old(lastPurge).value + 2_000_000_000
                         || |old(connect)| > 8192;
              lastPurge == if due then Some(now) else old(lastPurge)
    {
      var nowUnix := Unix(now);
      var heavy := lastPurge.None? || now - lastPurge.value >= PURGE_INTERVAL || |connect| > MAX_TOTAL;
      if !heavy {
        return;
      }
      lastPurge := Some(now);
      ghost var t := View();
      PurgeExpired(nowUnix);
      ghost var u := View();
      EnforceTotalCap();
      CappedAfter(t, u, u.connect.Keys, View());
    }

    /** Drops the source's oldest sessions until fewer than 64 remain. The loop ends only because
        the head of a by-source list is always registered to that source. */
    method EnforcePerSrcCap(srcID: Bytes)
      requires Inv(View())
      modifies this`connect, this`bySrc, this`keys
      ensures Inv(View()) && Freed(old(View()), srcID, View())
    {
      ghost var t, n := View(), 0;
      NothingFreed(t, srcID);
      while srcID in bySrc && |bySrc[srcID]| >= MAX_PER_SRC
        invariant PartlyFreed(t, srcID, n, View())
        decreases |ListOf(t, srcID)| - n
      {
        DropHead(srcID, t, n);
        n := n + 1;
      }
      EnoughFreed(t, srcID, n, View());
    }

    /** One turn of the loop above. */
    method DropHead(srcID: Bytes, ghost t: Tables, ghost n: nat)
      requires Inv(t) && PartlyFreed(t, srcID, n, View())
      requires srcID in bySrc && |bySrc[srcID]| >= MAX_PER_SRC
      modifies this`connect, this`bySrc, this`keys
      ensures PartlyFreed(t, srcID, n + 1, View())
    {
      var ids := bySrc[srcID];
      FreesOneMore(t, srcID, n, View());
      RemoveConnect(ids[0]);
    }

    /** Registers a connect request. The caller has decoded `srcID` as a peer ID. */
    method TryRegisterConnect(sid: Bytes, srcID: Bytes, expireAt: int, now: int) returns (ok: bool)
      requires Inv(View()) && WithinCaps(View()) && NulFree(srcID)
      modifies this
      ensures Inv(View()) && WithinCaps(View())
      ensures TimedStep(old(State()), Call(Register(sid, srcID, expireAt), now, now), State(), [])
      ensures ok <==> sid != [] && srcID != [] && sid in connect
      ensures gens == old(gens) || (ok && gens == old(gens) + 1 && connect[sid] == Reg(srcID, expireAt, old(gens)))
      ensures var hasty := srcID in old(lastConnectAt) && now < old(lastConnectAt)[srcID] + 200_000_000;
              && (sid != [] && srcID != [] && !hasty ==> ok)
              && (hasty && sid !in old(connect) ==> !ok)
    {
      ghost var c, call := State(), Call(Register(sid, srcID, expireAt), now, now);
      if sid == [] || srcID == [] {
        return false;
      }
      MaybePurge(now);
      ghost var m := View();
      if sid in connect {
        NotRegistered(c, m, call, State());
        return true;
      }
      if srcID in lastConnectAt && now - lastConnectAt[srcID] < MIN_CONNECT_GAP {
        NotRegistered(c, m, call, State());
        return false;
      }
      lastConnectAt := lastConnectAt[srcID := now];
      ghost var r := AddRegistration(sid, srcID, expireAt);
      NowRegistered(c, m, r, call, State());
      return true;
    }

    method AddRegistration(sid: Bytes, srcID: Bytes, expireAt: int) returns (ghost r: Tables)
      requires Inv(View())
      modifies this`connect, this`bySrc, this`keys, this`gens
      ensures RoomMade(old(View()), srcID, r) && View() == Registered(r, sid, srcID, expireAt)
      ensures gens == old(gens) + 1 && sid in connect && connect[sid] == Reg(srcID, expireAt, old(gens))
    {
      MakeRoom(srcID);
      r := View();
      Insert(sid, srcID, expireAt);
    }

    method Insert(sid: Bytes, srcID: Bytes, expireAt: int)
      modifies this`connect, this`bySrc, this`gens
      ensures View() == Registered(old(View()), sid, srcID, expireAt)
    {
      connect := connect[sid := Reg(srcID, expireAt, gens)];
      bySrc := bySrc[srcID := (if srcID in bySrc then bySrc[srcID] else []) + [sid]];
      gens := gens + 1;
    }

    /** Makes room under both caps. */
    method MakeRoom(srcID: Bytes)
      requires Inv(View())
      modifies this`connect, this`bySrc, this`keys
      ensures RoomMade(old(View()), srcID, View())
    {
      EnforcePerSrcCap(srcID);
      EnforceTotalCap();
    }

    predicate Valid(sid: Bytes, srcID: Bytes, unix: int)
      reads this
    {
      sid in connect && connect[sid].srcID == srcID && unix <= connect[sid].expireAt
    }

    /** The first locked check of a handshake; it leaves no trace but the purge. */
    method HandshakeAllowed(sid: Bytes, srcID: Bytes, now: int, later: int) returns (ok: bool)
      requires Inv(View()) && WithinCaps(View())
      modifies this
      ensures Inv(View()) && WithinCaps(View())
      ensures TimedStep(old(State()), Call(Query, now, later), State(), [])
      ensures ok <==> && sid in connect && connect[sid].srcID == srcID
                      && later < (connect[sid].expireAt + 1) * 1_000_000_000 && Key(sid, srcID) !in keys
    {
      ghost var c := State();
      MaybePurge(now);
      assert Follows(c, View(), Call(Query, now, later), State(), []);
      SectionKeepsInv(c, Call(Query, now, later), State(), []);
      ok := Valid(sid, srcID, Unix(later)) && Key(sid, srcID) !in keys;
    }

    /** The second locked check, which installs the derived keys if nothing changed meanwhile. */
    method FinishHandshake(sid: Bytes, srcID: Bytes, tx: Bytes, rx: Bytes, now: int, later: int)
      returns (installed: bool)
      requires Inv(View()) && WithinCaps(View())
      modifies this
      ensures Inv(View()) && WithinCaps(View())
      ensures TimedStep(old(State()), Call(Install(sid, srcID, tx, rx), now, later), State(), [])
      ensures installed ==> Key(sid, srcID) in keys && keys[Key(sid, srcID)] == KeyEntry(tx, rx, MAX_U64, map[])
      ensures var valid := sid in connect && connect[sid].srcID == srcID
                           && later < (connect[sid].expireAt + 1) * 1_000_000_000;
              && (installed ==> valid) && (!installed ==> !valid || Key(sid, srcID) in keys)
    {
      ghost var c := State();
      MaybePurge(now);
      ghost var m := View();
      installed := Valid(sid, srcID, Unix(later)) && Key(sid, srcID) !in keys;
      if installed {
        keys := keys[Key(sid, srcID) := FreshEntry(tx, rx)];
      }
      assert Follows(c, m, Call(Install(sid, srcID, tx, rx), now, later), State(), []);
      SectionKeepsInv(c, Call(Install(sid, srcID, tx, rx), now, later), State(), []);
    }

    /** Takes in one decrypted packet and returns what is released, in order. For a session that has not
        expired, below the total cap, that and the new key entry are what the reorder buffer makes of
        the packet, and the session stays. */
    method IngestData(sid: Bytes, srcID: Bytes, seqNo: U64, plain: Bytes, now: int) returns (out: seq<Bytes>)
      requires Inv(View()) && WithinCaps(View())
      modifies this
      ensures Inv(View()) && WithinCaps(View())
      ensures TimedStep(old(State()), Call(Packet(sid, srcID, seqNo, plain), now, now), State(), out)
      ensures old(|connect| <= MAX_TOTAL && ConnectValid(View(), sid, srcID, Unix(now)) && Key(sid, srcID) in keys) ==>
                TakesIn(old(View()), sid, srcID, seqNo, plain, View(), out)
    {
      ghost var c, call := State(), Call(Packet(sid, srcID, seqNo, plain), now, now);
      MaybePurge(now);
      ghost var m := View();
      out := TakePacket(sid, srcID, seqNo, plain);
      PacketSection(c, m, call, State(), out);
    }

    method TakePacket(sid: Bytes, srcID: Bytes, seqNo: U64, plain: Bytes) returns (out: seq<Bytes>)
      modifies this`keys
      ensures Acts(old(View()), Packet(sid, srcID, seqNo, plain), View(), out)
    {
      out := [];
      var key := Key(sid, srcID);
      if key in keys {
        var k;
        k, out := IngestPacket(keys[key], seqNo, plain);
        keys := keys[key := k];
      }
    }
  }

  /** The session and its key entry stay, and entry and output are what the reorder buffer makes of the
      packet. */
  ghost predicate TakesIn(t: Tables, sid: Bytes, src: Bytes, seqNo: U64, plain: Bytes, t': Tables, out: seq<Bytes>) {
    && sid in t.connect && sid in t'.connect && t'.connect[sid] == t.connect[sid]
    && Key(sid, src) in t.keys && Key(sid, src) in t'.keys
    && (t'.keys[Key(sid, src)], out) == Ingest(t.keys[Key(sid, src)], seqNo, plain)
  }

  lemma PacketSection(c: Clocked, m: Tables, call: Call, c': Clocked, out: seq<Bytes>)
    requires Inv(c.tables) && WithinCaps(c.tables) && call.action.Packet?
    requires Purged(c, call.now, m, c'.lastPurge) && Follows(c, m, call, c', out)
    ensures Inv(c'.tables) && WithinCaps(c'.tables) && TimedStep(c, call, c', out)
    ensures var a, t := call.action, c.tables;
            && |t.connect| <= MAX_TOTAL && ConnectValid(t, a.sid, a.src, Unix(call.now))
            && Key(a.sid, a.src) in t.keys ==>
            TakesIn(t, a.sid, a.src, a.seqNo, a.plain, c'.tables, out)
  {
    SectionKeepsInv(c, call, c', out);
    var a, t := call.action, c.tables;
    if |t.connect| <= MAX_TOTAL && ConnectValid(t, a.sid, a.src, Unix(call.now)) && Key(a.sid, a.src) in t.keys {
      LiveEntryStays(c, call.now, m, c'.lastPurge, a.sid);
    }
  }

  /** A connect request for a known session, or one that comes too soon, leaves what the purge left. */
  lemma NotRegistered(c: Clocked, m: Tables, call: Call, c': Clocked)
    requires Inv(c.tables) && WithinCaps(c.tables) && call.action.Register? && NulFree(call.action.src)
    requires !Nameless(call.action) && Purged(c, call.now, m, c'.lastPurge)
    requires call.action.sid in m.connect || TooSoon(c, call.action.src, call.now)
    requires c'.tables == m && c'.lastConnectAt == c.lastConnectAt
    ensures Inv(c'.tables) && WithinCaps(c'.tables) && TimedStep(c, call, c', [])
  {
    assert Follows(c, m, call, c', []);
    SectionKeepsInv(c, call, c', []);
  }

  /** Any other is registered once there is room. */
  lemma NowRegistered(c: Clocked, m: Tables, r: Tables, call: Call, c': Clocked)
    requires Inv(c.tables) && WithinCaps(c.tables) && call.action.Register? && NulFree(call.action.src)
    requires !Nameless(call.action) && Purged(c, call.now, m, c'.lastPurge)
    requires call.action.sid !in m.connect && !TooSoon(c, call.action.src, call.now)
    requires RoomMade(m, call.action.src, r)
    requires c'.tables == Registered(r, call.action.sid, call.action.src, call.action.expireAt)
    requires c'.lastConnectAt == c.lastConnectAt[call.action.src := call.now]
    ensures Inv(c'.tables) && WithinCaps(c'.tables) && TimedStep(c, call, c', [])
  {
    assert Connects(c, m, call.action, call.now, c');
    assert Follows(c, m, call, c', []);
    SectionKeepsInv(c, call, c', []);
  }

  /** All but the sessions in `todo` have been looked at, and those expired at `unix` removed. */
  ghost predicate HalfPurged(t: Tables, m: Tables, todo: set<Bytes>, unix: int) {
    && todo <= m.connect.Keys
    && (forall sid :: sid in t.connect && (sid in todo || unix <= t.connect[sid].expireAt) ==> sid in m.connect)
    && (forall sid :: sid in m.connect && sid !in todo ==> unix <= m.connect[sid].expireAt)
  }

  lemma PurgeMore(t: Tables, m: Tables, todo: set<Bytes>, unix: int, sid: Bytes)
    requires Inv(t) && Inv(m) && Shrinks(t, m) && HalfPurged(t, m, todo, unix) && sid in todo
    ensures m.connect[sid].expireAt < unix ==>
              && Inv(Removed(m, sid)) && Shrinks(t, Removed(m, sid))
              && HalfPurged(t, Removed(m, sid), todo - {sid}, unix)
    ensures unix <= m.connect[sid].expireAt ==> HalfPurged(t, m, todo - {sid}, unix)
  {
    if m.connect[sid].expireAt < unix {
      ShrinksMore(t, m, sid);
    }
  }

  /** A locked section keeps the tables consistent and within their caps. */
  lemma SectionKeepsInv(c: Clocked, call: Call, c': Clocked, out: seq<Bytes>)
    requires Inv(c.tables) && WithinCaps(c.tables) && TimedStep(c, call, c', out)
    requires call.action.Register? ==> NulFree(call.action.src)
    ensures Inv(c'.tables) && WithinCaps(c'.tables)
  {
    TimedIsStep(c, call, c', out);
    StepKeepsInv(c.tables, call.action, c'.tables, out);
  }

  /** Purging below the total cap leaves a session that has not expired, with its key entry. */
  lemma LiveEntryStays(c: Clocked, now: int, m: Tables, last: Option<int>, sid: Bytes)
    requires Inv(c.tables) && |c.tables.connect| <= MAX_TOTAL && Purged(c, now, m, last)
    requires sid in c.tables.connect && Unix(now) <= c.tables.connect[sid].expireAt
    requires KeyOf(c.tables, sid) in c.tables.keys
    ensures sid in m.connect && m.connect[sid] == c.tables.connect[sid]
    ensures KeyOf(c.tables, sid) in m.keys && m.keys[KeyOf(c.tables, sid)] == c.tables.keys[KeyOf(c.tables, sid)]
  {
    PurgeDrops(c, now, m, last, sid);
    PurgedShrinks(c, now, m, last);
    assert Backed(m, KeyOf(c.tables, sid));
  }

  /** Evicting what expires first. */
  lemma EvictionKeepsOrder(u: Tables, m: Tables, victim: Bytes)
    requires Shrinks(u, m) && OldestFirst(u, u.connect.Keys, m) && victim in m.connect
    requires forall sid :: sid in m.connect ==> m.connect[victim].expireAt <= m.connect[sid].expireAt
    ensures OldestFirst(u, u.connect.Keys, Removed(m, victim))
    ensures |Removed(m, victim).connect| == |m.connect| - 1
  {
    var m' := Removed(m, victim);
    assert m'.connect.Keys == m.connect.Keys - {victim};
    assert |m'.connect.Keys| == |m'.connect| && |m.connect.Keys| == |m.connect|;
  }

  /** The first `n` sessions of the source are gone, and not more than the cap asks for. */
  ghost predicate PartlyFreed(t: Tables, src: Bytes, n: nat, m: Tables) {
    var was := ListOf(t, src);
    && Shrinks(t, m) && n <= |was| && ListOf(m, src) == was[n..]
    && (n == 0 || |was| - n >= MAX_PER_SRC - 1)
    && m.connect.Keys == t.connect.Keys - FirstOf(was, n)
  }

  lemma NothingFreed(t: Tables, src: Bytes)
    requires Inv(t)
    ensures PartlyFreed(t, src, 0, t)
  {
    ShrinksRefl(t);
  }

  lemma EnoughFreed(t: Tables, src: Bytes, n: nat, m: Tables)
    requires Inv(t) && PartlyFreed(t, src, n, m) && |ListOf(m, src)| < MAX_PER_SRC
    ensures Freed(t, src, m) && Inv(m)
  {
    assert n == Surplus(ListOf(t, src));
    ShrinksKeepsInv(t, m);
  }

  /** The head of the list is registered to the source, so removing it shortens the list. */
  lemma FreesOneMore(t: Tables, src: Bytes, n: nat, m: Tables)
    requires Inv(t) && PartlyFreed(t, src, n, m) && |ListOf(m, src)| >= MAX_PER_SRC
    ensures var head := ListOf(m, src)[0];
            head in m.connect && PartlyFreed(t, src, n + 1, Removed(m, head))
  {
    ShrinksKeepsInv(t, m);
    var was, l := ListOf(t, src), ListOf(m, src);
    assert l[0] in l;
    assert l[0] in m.connect && m.connect[l[0]].srcID == src && NoDup(l);
    ShrinksMore(t, m, l[0]);
    WithoutHead(l);
    assert was[n..][1..] == was[n + 1..];
    assert FirstOf(was, n + 1) == FirstOf(was, n) + {l[0]};
  }

  lemma WithoutHead(l: seq<Bytes>)
    requires l != [] && NoDup(l)
    ensures Without(l, l[0]) == l[1..]
  {
    WithoutAbsent(l[1..], l[0]);
  }

  lemma {:induction false} WithoutAbsent(l: seq<Bytes>, x: Bytes)
    requires x !in l
    ensures Without(l, x) == l
  {
    if l != [] {
      WithoutAbsent(l[1..], x);
      assert l == [l[0]] + l[1..];
    }
  }
}
