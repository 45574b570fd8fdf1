/** The bounded reorder buffer a relay-v1 endpoint keeps for each handshaken session: packets
    arrive on many streams, in any order and possibly more than once, and leave in sequence. */
module RelayReorder {
  import opened Basics

  /** How far ahead of the next expected packet one may arrive and still be buffered. */
  const MAX_GAP: nat := 64

  /** How many packets may wait in the buffer. */
  const MAX_PENDING: nat := 64

  /** One entry of the key table. `lastDataSeq` is the highest packet delivered without a hole;
      `MAX_U64` stands for "nothing delivered yet". */
  datatype KeyEntry = KeyEntry(tx: Bytes, rx: Bytes, lastDataSeq: U64, pending: map<U64, Bytes>)

  /** The entry a finished handshake installs. */
  function FreshEntry(tx: Bytes, rx: Bytes): KeyEntry {
    KeyEntry(tx, rx, MAX_U64, map[])
  }

  function NextExpected(k: KeyEntry): U64 {
    if k.lastDataSeq == MAX_U64 then 0 else k.lastDataSeq + 1
  }

  /** Delivers every buffered packet that directly follows the frontier. */
  function Flush(k: KeyEntry, out: seq<Bytes>): (KeyEntry, seq<Bytes>)
    decreases |k.pending|
  {
    var nx := Increment(k.lastDataSeq);
    if nx !in k.pending then (k, out)
    else
      assert |k.pending - {nx}| < |k.pending| by { DropsOne(k.pending, nx); }
      Flush(k.(lastDataSeq := nx, pending := k.pending - {nx}), out + [k.pending[nx]])
  }

  lemma DropsOne<V>(m: map<U64, V>, x: U64)
    requires x in m
    ensures |m - {x}| == |m| - 1
  {
  }

  /** Takes in one decrypted packet; returns the new entry and the payloads released, in order. */
  function Ingest(k: KeyEntry, seqNo: U64, plain: Bytes): (KeyEntry, seq<Bytes>) {
    var next := NextExpected(k);
    if k.lastDataSeq != MAX_U64 && seqNo <= k.lastDataSeq then (k, [])
    else if seqNo in k.pending then (k, [])
    else if seqNo == next then Flush(k.(lastDataSeq := seqNo), [plain])
    else if seqNo < next then (k, [])
    else if seqNo - next > MAX_GAP then (k, [])
    else if |k.pending| >= MAX_PENDING then (k, [])
    else (k.(pending := k.pending[seqNo := plain]), [])
  }

  /** The handler itself: the entry is copied out of the key table, updated step by step and
      handed back to be stored. */
  method IngestPacket(entry: KeyEntry, seqNo: U64, plain: Bytes) returns (k: KeyEntry, out: seq<Bytes>)
    ensures (k, out) == Ingest(entry, seqNo, plain)
  {
    k, out := entry, [];
    var nextExpected: U64 := 0;
    if k.lastDataSeq != MAX_U64 {
      nextExpected := k.lastDataSeq + 1;
    }
    if k.lastDataSeq != MAX_U64 && seqNo <= k.lastDataSeq {
      return;
    }
    if seqNo in k.pending {
      return;
    }
    if seqNo == nextExpected {
      out := [plain];
      k := k.(lastDataSeq := seqNo);
      ghost var started := k;
      while true
        invariant Flush(started, [plain]) == Flush(k, out)
        decreases |k.pending|
      {
        var nx := Increment(k.lastDataSeq);
        if nx !in k.pending {
          break;
        }
        DropsOne(k.pending, nx);
        out := out + [k.pending[nx]];
        k := k.(lastDataSeq := nx, pending := k.pending - {nx});
      }
      return;
    }
    if seqNo < nextExpected {
      return;
    }
    if seqNo - nextExpected > MAX_GAP {
      return;
    }
    if |k.pending| >= MAX_PENDING {
      return;
    }
    k := k.(pending := k.pending[seqNo := plain]);
  }

  /** Of any entry at all: a packet that was delivered or waits already, one more than 64 ahead, and one that would
      wait where 64 do, changes nothing and releases nothing, whatever it carries. */
  lemma IngestIgnores(k: KeyEntry, seqNo: U64, plain: Bytes)
    requires || (k.lastDataSeq < MAX_U64 && seqNo <= k.lastDataSeq) || seqNo in k.pending
             || seqNo > NextExpected(k) + 64 || (seqNo != NextExpected(k) && |k.pending| >= 64)
    ensures Ingest(k, seqNo, plain) == (k, [])
  {
  }

  /** Any other waits if it is ahead, and is released first if it is the next; keys never change. */
  lemma IngestTakes(k: KeyEntry, seqNo: U64, plain: Bytes)
    requires seqNo !in k.pending
    ensures NextExpected(k) < seqNo <= NextExpected(k) + 64 && |k.pending| < 64 ==>
              Ingest(k, seqNo, plain) == (k.(pending := k.pending[seqNo := plain]), [])
    ensures seqNo == NextExpected(k) ==>
              && Ingest(k, seqNo, plain) == Flush(k.(lastDataSeq := seqNo), [plain])
              && Ingest(k, seqNo, plain).1 != [] && Ingest(k, seqNo, plain).1[0] == plain
  {
    if seqNo == NextExpected(k) {
      FlushAppends(k.(lastDataSeq := seqNo), [plain]);
    }
  }

  lemma {:induction false} FlushAppends(k: KeyEntry, out: seq<Bytes>)
    ensures out <= Flush(k, out).1
    decreases |k.pending|
  {
    var nx := Increment(k.lastDataSeq);
    if nx in k.pending {
      DropsOne(k.pending, nx);
      FlushAppends(k.(lastDataSeq := nx, pending := k.pending - {nx}), out + [k.pending[nx]]);
    }
  }

  // ----- the window, whatever arrives -----

  /** The frontier, and so the number of packets released. */
  function Frontier(k: KeyEntry): int { NextExpected(k) as int }

  /** Everything buffered lies in the window just above the next expected packet. */
  ghost predicate Above(k: KeyEntry) {
    forall s :: s in k.pending ==> NextExpected(k) < s <= NextExpected(k) + MAX_GAP
  }

  /** By counting: there are at most 64 packets in the window, and one that the duplicate and gap
      checks admit always finds a free slot. */
  lemma CapNeverRejects(k: KeyEntry, seqNo: U64)
    requires Above(k)
    ensures |k.pending| <= MAX_PENDING
    ensures seqNo !in k.pending && NextExpected(k) < seqNo <= NextExpected(k) + MAX_GAP ==> |k.pending| < MAX_PENDING
  {
    var lo := NextExpected(k) + 1;
    IntervalBound(k.pending.Keys, lo, lo + MAX_GAP);
    assert |k.pending.Keys| == |k.pending|;
    if seqNo !in k.pending && lo <= seqNo < lo + MAX_GAP {
      IntervalBound(k.pending.Keys + {seqNo}, lo, lo + MAX_GAP);
      assert |k.pending.Keys + {seqNo}| == |k.pending.Keys| + 1;
    }
  }

  /** In the middle of a flush: everything buffered lies above what was just delivered. */
  ghost predicate Rising(k: KeyEntry, hi: int) {
    forall s :: s in k.pending ==> k.lastDataSeq < s <= hi
  }

  /** All packets from just above the frontier to the last possible one wait in the buffer. */
  ghost predicate FullAbove(k: KeyEntry, frontier: int) {
    forall s: U64 :: frontier < s ==> s in k.pending
  }

  lemma FullAboveNext(k: KeyEntry, nx: U64)
    requires nx in k.pending
    ensures FullAbove(k.(lastDataSeq := nx, pending := k.pending - {nx}), nx) <==> FullAbove(k, nx - 1)
  {
    var k1 := k.(lastDataSeq := nx, pending := k.pending - {nx});
    forall s: U64 | nx < s ensures s in k1.pending <==> s in k.pending {
    }
    if FullAbove(k1, nx) {
      forall s: U64 | nx - 1 < s ensures s in k.pending {
        assert s == nx || s in k1.pending;
      }
    }
  }

  /** A flush only moves packets from the buffer to the frontier; it reaches the last possible packet
      exactly when all of them were there. */
  lemma {:induction false} FlushRises(k: KeyEntry, out: seq<Bytes>, hi: int)
    requires Rising(k, hi)
    ensures var k' := Flush(k, out).0;
            && k.lastDataSeq <= k'.lastDataSeq && k'.tx == k.tx && k'.rx == k.rx
            && k'.lastDataSeq + |k'.pending| == k.lastDataSeq + |k.pending|
            && (k'.lastDataSeq == MAX_U64 <==> FullAbove(k, k.lastDataSeq))
            && (forall s :: s in k'.pending ==> k'.lastDataSeq < MAX_U64 && k'.lastDataSeq + 1 < s <= hi)
    decreases |k.pending|
  {
    var nx := Increment(k.lastDataSeq);
    if nx in k.pending {
      DropsOne(k.pending, nx);
      var k1 := k.(lastDataSeq := nx, pending := k.pending - {nx});
      FullAboveNext(k, nx);
      FlushRises(k1, out + [k.pending[nx]], hi);
    } else {
      assert k.lastDataSeq < MAX_U64 ==> !FullAbove(k, k.lastDataSeq);
    }
  }

  /** Ingesting the packet puts the frontier back to the start: it is the next one, and all after it
      to the last possible one are waiting. */
  ghost predicate Resets(k: KeyEntry, seqNo: U64) {
    0 < Frontier(k) && seqNo == NextExpected(k) && FullAbove(k, Frontier(k))
  }

  /** Any packet at all, whatever its number and content, keeps the buffer in its window, and adds at
      most one to what has been delivered or waits. The frontier goes back exactly on a reset. */
  lemma IngestKeepsWindow(k: KeyEntry, seqNo: U64, plain: Bytes)
    requires Above(k)
    ensures var k' := Ingest(k, seqNo, plain).0;
            && Above(k') && k'.tx == k.tx && k'.rx == k.rx
            && (Frontier(k') < Frontier(k) <==> Resets(k, seqNo))
            && Frontier(k') + |k'.pending| <= Frontier(k) + |k.pending| + 1
  {
    CapNeverRejects(k, seqNo);
    if seqNo == NextExpected(k) {
      var k1 := k.(lastDataSeq := seqNo);
      FlushRises(k1, [plain], NextExpected(k) + MAX_GAP);
      assert FullAbove(k1, seqNo) <==> FullAbove(k, Frontier(k));
      if NextExpected(k) == 0 {
        NotFull(k);
      }
    }
  }

  /** From the start, the packets up to the last possible one are too many to wait. */
  lemma NotFull(k: KeyEntry)
    requires Above(k) && NextExpected(k) == 0
    ensures !FullAbove(k, 0)
  {
    assert MAX_U64 !in k.pending;
  }

  /** A reset needs as many packets delivered or waiting as there are numbers below the last. */
  lemma ResetNeedsAll(k: KeyEntry, seqNo: U64)
    requires Above(k) && Resets(k, seqNo)
    ensures Frontier(k) + |k.pending| >= MAX_U64
  {
    Interval(k.pending.Keys, Frontier(k) + 1, TWO64);
    assert |k.pending.Keys| == |k.pending|;
  }

  /** A set that contains all of `[lo, hi)` has at least `hi - lo` elements. */
  lemma {:induction false} Interval(s: set<int>, lo: int, hi: int)
    requires lo <= hi && forall x :: lo <= x < hi ==> x in s
    ensures |s| >= hi - lo
    decreases hi - lo
  {
    if lo < hi {
      Interval(s - {lo}, lo + 1, hi);
    }
  }

  // ----- what the buffer guarantees -----

  /** `payload(lo), ..., payload(hi - 1)`. */
  function Stretch(payload: int -> Bytes, lo: int, hi: int): seq<Bytes>
    requires lo <= hi
  {
    seq(hi - lo, i => payload(lo + i))
  }

  /** Everything buffered lies in the window just above the next expected packet, is below the
      sentinel, and is the payload the sender gave that sequence number. */
  ghost predicate Windowed(k: KeyEntry, payload: int -> Bytes) {
    forall s :: s in k.pending ==>
      NextExpected(k) < s <= NextExpected(k) + MAX_GAP && s < MAX_U64 && k.pending[s] == payload(s)
  }

  lemma StretchHead(payload: int -> Bytes, lo: int, hi: int)
    requires lo < hi
    ensures Stretch(payload, lo, hi) == [payload(lo)] + Stretch(payload, lo + 1, hi)
  {
  }

  /** Buffered packets lie strictly above what was just delivered, below the sentinel, and carry their
      payloads. */
  ghost predicate Ahead(k: KeyEntry, payload: int -> Bytes) {
    Rising(k, MAX_U64 - 1) && forall s :: s in k.pending ==> k.pending[s] == payload(s)
  }

  /** Flushing releases the payloads the frontier moves over. */
  lemma {:induction false} FlushReleasesStretch(k: KeyEntry, out: seq<Bytes>, payload: int -> Bytes)
    requires Ahead(k, payload)
    ensures k.lastDataSeq <= Flush(k, out).0.lastDataSeq
    ensures Flush(k, out).1 == out + Stretch(payload, k.lastDataSeq + 1, Flush(k, out).0.lastDataSeq + 1)
    decreases |k.pending|
  {
    var nx := Increment(k.lastDataSeq);
    if nx in k.pending {
      DropsOne(k.pending, nx);
      var k1 := k.(lastDataSeq := nx, pending := k.pending - {nx});
      FlushReleasesStretch(k1, out + [payload(nx)], payload);
      StretchHead(payload, nx, Flush(k1, out + [payload(nx)]).0.lastDataSeq + 1);
    }
  }

  /** Flushing keeps exactly the packets above the new frontier. */
  lemma {:induction false} FlushKeepsTheRest(k: KeyEntry, out: seq<Bytes>, hi: int)
    requires Rising(k, hi)
    ensures var k' := Flush(k, out).0;
            && (forall s :: s in k'.pending <==> s in k.pending && s > k'.lastDataSeq)
            && (forall s :: s in k'.pending ==> k'.pending[s] == k.pending[s])
    decreases |k.pending|
  {
    var nx := Increment(k.lastDataSeq);
    if nx in k.pending {
      DropsOne(k.pending, nx);
      var k1 := k.(lastDataSeq := nx, pending := k.pending - {nx});
      FlushRises(k1, out + [k.pending[nx]], hi);
      FlushKeepsTheRest(k1, out + [k.pending[nx]], hi);
    }
  }

  /** Flushing passes over no packet that was not buffered. */
  lemma {:induction false} FlushPassesNoHole(k: KeyEntry, out: seq<Bytes>, hi: int, s: U64)
    requires Rising(k, hi)
    requires k.lastDataSeq < s <= Flush(k, out).0.lastDataSeq
    ensures s in k.pending
    decreases |k.pending|
  {
    var nx := Increment(k.lastDataSeq);
    if nx in k.pending && s != nx {
      DropsOne(k.pending, nx);
      FlushPassesNoHole(k.(lastDataSeq := nx, pending := k.pending - {nx}), out + [k.pending[nx]], hi, s);
    }
  }

  /** What one ingestion does, told without reference to how it is computed: it releases the
      stretch the frontier moves over, and afterwards holds exactly what it held before plus the
      new packet, unless that is more than 64 ahead. */
  lemma IngestStep(k: KeyEntry, seqNo: U64, payload: int -> Bytes)
    requires Windowed(k, payload) && seqNo < MAX_U64
    ensures var (k', out) := Ingest(k, seqNo, payload(seqNo));
            && Windowed(k', payload)
            && Frontier(k) <= Frontier(k')
            && out == Stretch(payload, Frontier(k), Frontier(k'))
            && (forall s: U64 :: Held(k', s) <==> Held(k, s) || (s == seqNo && s <= Frontier(k) + MAX_GAP))
  {
    var next := NextExpected(k);
    if Held(k, seqNo) {
    } else if seqNo == next {
      DeliverNext(k, payload);
      forall s: U64 ensures Held(Ingest(k, seqNo, payload(seqNo)).0, s) <==> Held(k, s) || s == Frontier(k) {
        DeliverNextHolds(k, [payload(seqNo)], payload, s);
      }
    } else if seqNo - next <= MAX_GAP {
      CapNeverRejects(k, seqNo);
    }
  }

  lemma DeliverNext(k: KeyEntry, payload: int -> Bytes)
    requires Windowed(k, payload) && NextExpected(k) < MAX_U64
    ensures var (k', out) := Flush(k.(lastDataSeq := NextExpected(k)), [payload(NextExpected(k))]);
            && Windowed(k', payload)
            && Frontier(k) < Frontier(k')
            && out == Stretch(payload, Frontier(k), Frontier(k'))
  {
    var seqNo := NextExpected(k);
    var k1, out1 := k.(lastDataSeq := seqNo), [payload(seqNo)];
    FlushWindowed(k1, out1, payload);
    FlushReleasesStretch(k1, out1, payload);
    StretchHead(payload, seqNo, Flush(k1, out1).0.lastDataSeq + 1);
  }

  lemma DeliverNextHolds(k: KeyEntry, out: seq<Bytes>, payload: int -> Bytes, s: U64)
    requires Windowed(k, payload) && NextExpected(k) < MAX_U64
    ensures Held(Flush(k.(lastDataSeq := NextExpected(k)), out).0, s) <==> Held(k, s) || s == Frontier(k)
  {
    var k1 := k.(lastDataSeq := NextExpected(k));
    FlushWindowed(k1, out, payload);
    FlushHolds(k1, out, MAX_U64 - 1);
  }

  /** From a delivery below the sentinel, a flush stays below it and leaves a window. */
  lemma FlushWindowed(k: KeyEntry, out: seq<Bytes>, payload: int -> Bytes)
    requires k.lastDataSeq < MAX_U64 && Ahead(k, payload) && Rising(k, k.lastDataSeq + MAX_GAP)
    ensures Windowed(Flush(k, out).0, payload) && k.lastDataSeq <= Flush(k, out).0.lastDataSeq < MAX_U64
  {
    FlushRises(k, out, k.lastDataSeq + MAX_GAP);
    assert MAX_U64 !in k.pending;
    FlushKeepsTheRest(k, out, MAX_U64 - 1);
  }

  /** A flush loses and gains nothing. */
  lemma FlushHolds(k: KeyEntry, out: seq<Bytes>, hi: int)
    requires Rising(k, hi)
    ensures var k' := Flush(k, out).0;
            forall s: U64 :: s <= k'.lastDataSeq || s in k'.pending <==> s <= k.lastDataSeq || s in k.pending
  {
    var k' := Flush(k, out).0;
    FlushRises(k, out, hi);
    FlushKeepsTheRest(k, out, hi);
    forall s: U64 | k.lastDataSeq < s <= k'.lastDataSeq ensures s in k.pending {
      FlushPassesNoHole(k, out, hi, s);
    }
  }

  /** The packet has been delivered or waits in the buffer. */
  predicate Held(k: KeyEntry, s: U64) {
    s < NextExpected(k) || s in k.pending
  }

  /** Ingests packets in arrival order and concatenates what is released. Every arrival of
      sequence number `s` carries `payload(s)`. */
  function Run(k: KeyEntry, arrivals: seq<U64>, payload: int -> Bytes): (KeyEntry, seq<Bytes>) {
    if arrivals == [] then (k, [])
    else
      var (k1, out) := Run(k, arrivals[..|arrivals| - 1], payload);
      var (k2, more) := Ingest(k1, arrivals[|arrivals| - 1], payload(arrivals[|arrivals| - 1]));
      (k2, out + more)
  }

  ghost predicate BelowSentinel(arrivals: seq<U64>) {
    forall i :: 0 <= i < |arrivals| ==> arrivals[i] < MAX_U64
  }

  /** For every arrival order, with duplicates and losses, the released payloads are exactly
      those of packets `0 .. n-1`, once each and in order, where `n` is the next expected one. */
  lemma {:induction false} ReorderExactlyOnce(tx: Bytes, rx: Bytes, arrivals: seq<U64>, payload: int -> Bytes)
    requires BelowSentinel(arrivals)
    ensures var (k, out) := Run(FreshEntry(tx, rx), arrivals, payload);
            && out == Stretch(payload, 0, Frontier(k))
            && Windowed(k, payload)
            && |k.pending| <= MAX_PENDING
            && (forall s: U64 :: Held(k, s) ==> s in arrivals)
  {
    if arrivals != [] {
      var before, last := arrivals[..|arrivals| - 1], arrivals[|arrivals| - 1];
      ReorderExactlyOnce(tx, rx, before, payload);
      ExtendRun(Run(FreshEntry(tx, rx), before, payload).0, last, payload);
      assert arrivals == before + [last];
    }
  }

  lemma ExtendRun(k: KeyEntry, seqNo: U64, payload: int -> Bytes)
    requires Windowed(k, payload) && seqNo < MAX_U64
    ensures var (k', out) := Ingest(k, seqNo, payload(seqNo));
            && Windowed(k', payload) && |k'.pending| <= MAX_PENDING
            && Stretch(payload, 0, Frontier(k)) + out == Stretch(payload, 0, Frontier(k'))
            && (forall s: U64 :: Held(k', s) ==> Held(k, s) || s == seqNo)
  {
    IngestStep(k, seqNo, payload);
    var k' := Ingest(k, seqNo, payload(seqNo)).0;
    CapNeverRejects(k', seqNo);
    StretchJoin(payload, 0, Frontier(k), Frontier(k'));
  }

  lemma StretchJoin(payload: int -> Bytes, a: int, b: int, c: int)
    requires a <= b <= c
    ensures Stretch(payload, a, b) + Stretch(payload, b, c) == Stretch(payload, a, c)
  {
  }

  /** No packet overtakes one that is more than 64 below it. */
  ghost predicate NoOvertake(arrivals: seq<U64>) {
    forall i, t: U64 :: 0 <= i < |arrivals| && t + MAX_GAP < arrivals[i] ==> t in arrivals[..i]
  }

  /** Every arrival so far is delivered or waits in the buffer. */
  ghost predicate NothingLost(tx: Bytes, rx: Bytes, arrivals: seq<U64>, payload: int -> Bytes) {
    forall s :: s in arrivals ==> Held(Run(FreshEntry(tx, rx), arrivals, payload).0, s)
  }

  /** No arrival is dropped, at any point of the run, exactly when no packet overtakes one more
      than 64 below it. */
  lemma {:induction false} NothingDroppedIff(tx: Bytes, rx: Bytes, arrivals: seq<U64>, payload: int -> Bytes)
    requires BelowSentinel(arrivals)
    ensures (forall i :: 0 <= i <= |arrivals| ==> NothingLost(tx, rx, arrivals[..i], payload))
            <==> NoOvertake(arrivals)
  {
    if NoOvertake(arrivals) {
      forall i | 0 <= i <= |arrivals| ensures NothingLost(tx, rx, arrivals[..i], payload) {
        forall j, t: U64 | 0 <= j < i && t + MAX_GAP < arrivals[..i][j] ensures t in arrivals[..i][..j] {
          assert arrivals[..i][..j] == arrivals[..j];
        }
        NoOvertakeLosesNothing(tx, rx, arrivals[..i], payload);
      }
    }
    if forall i :: 0 <= i <= |arrivals| ==> NothingLost(tx, rx, arrivals[..i], payload) {
      forall i, t: U64 | 0 <= i < |arrivals| && t + MAX_GAP < arrivals[i] ensures t in arrivals[..i] {
        assert NothingLost(tx, rx, arrivals[..i + 1], payload);
        LaggardArrived(tx, rx, arrivals, payload, i, t);
      }
    }
  }

  lemma LaggardArrived(tx: Bytes, rx: Bytes, arrivals: seq<U64>, payload: int -> Bytes, i: nat, t: U64)
    requires BelowSentinel(arrivals) && i < |arrivals| && t + MAX_GAP < arrivals[i]
    requires NothingLost(tx, rx, arrivals[..i + 1], payload)
    ensures t in arrivals[..i]
  {
    var before, s := arrivals[..i], arrivals[i];
    var k := Run(FreshEntry(tx, rx), before, payload).0;
    ReorderExactlyOnce(tx, rx, before, payload);
    IngestStep(k, s, payload);
    assert arrivals[..i + 1][..i] == before && s in arrivals[..i + 1];
    assert Held(k, s) || s <= Frontier(k) + MAX_GAP;
    assert Held(k, t);
  }

  lemma {:induction false} NoOvertakeLosesNothing(tx: Bytes, rx: Bytes, arrivals: seq<U64>, payload: int -> Bytes)
    requires BelowSentinel(arrivals) && NoOvertake(arrivals)
    ensures NothingLost(tx, rx, arrivals, payload)
    decreases |arrivals|
  {
    if arrivals != [] {
      var n := |arrivals| - 1;
      var before, s := arrivals[..n], arrivals[n];
      forall i, t: U64 | 0 <= i < |before| && t + MAX_GAP < before[i] ensures t in before[..i] {
        assert before[..i] == arrivals[..i];
      }
      NoOvertakeLosesNothing(tx, rx, before, payload);
      ReorderExactlyOnce(tx, rx, before, payload);
      var k := Run(FreshEntry(tx, rx), before, payload).0;
      IngestStep(k, s, payload);
      // The next expected packet is not held, so it has not arrived, so nothing more than 64
      // above it can arrive now.
      assert !Held(k, NextExpected(k));
      assert NextExpected(k) !in before;
      assert arrivals[n] <= NextExpected(k) + MAX_GAP;
      forall x | x in arrivals ensures Held(Run(FreshEntry(tx, rx), arrivals, payload).0, x) {
        assert x in before || x == s;
      }
    }
  }

  /** If nothing overtakes too far and packets `0 .. n-1` all arrive, all of them come out and
      the buffer is empty. */
  lemma EverythingComesOut(tx: Bytes, rx: Bytes, arrivals: seq<U64>, payload: int -> Bytes, n: U64)
    requires BelowSentinel(arrivals) && NoOvertake(arrivals)
    requires forall s: U64 :: s in arrivals <==> s < n
    ensures Run(FreshEntry(tx, rx), arrivals, payload).1 == Stretch(payload, 0, n)
    ensures Run(FreshEntry(tx, rx), arrivals, payload).0.pending == map[]
  {
    var k := Run(FreshEntry(tx, rx), arrivals, payload).0;
    ReorderExactlyOnce(tx, rx, arrivals, payload);
    NoOvertakeLosesNothing(tx, rx, arrivals, payload);
    assert !Held(k, NextExpected(k)) && NextExpected(k) !in arrivals;
    assert n !in arrivals && !Held(k, n);
    assert forall s :: s in k.pending ==> Held(k, s) && s in arrivals;
    assert k.pending.Keys == {};
  }

  /** The packets `0 .. n-1` in order. */
  function InOrder(n: U64): seq<U64> {
    seq(n, i requires 0 <= i < n => i)
  }

  /** Why `packet_seq` must stay below the sentinel: after all the others in order, packet
      `^uint64(0)` puts the entry back to its initial frontier, and packet 0 is released again. */
  lemma SentinelRestartsTheStream(tx: Bytes, rx: Bytes, payload: int -> Bytes, plain: Bytes, again: Bytes)
    ensures var k := Run(FreshEntry(tx, rx), InOrder(MAX_U64), payload).0;
            var (k1, out1) := Ingest(k, MAX_U64, plain);
            && Resets(k, MAX_U64) && out1 == [plain] && Frontier(k1) == 0
            && Ingest(k1, 0, again).1 == [again]
  {
    var arrivals := InOrder(MAX_U64);
    assert forall s: U64 :: s in arrivals <==> s < MAX_U64 by {
      forall s: U64 | s < MAX_U64 ensures s in arrivals {
        assert arrivals[s] == s;
      }
    }
    forall i, t: U64 | 0 <= i < |arrivals| && t + MAX_GAP < arrivals[i] ensures t in arrivals[..i] {
      assert arrivals[..i][t] == t;
    }
    EverythingComesOut(tx, rx, arrivals, payload, MAX_U64);
    AllDelivered(tx, rx, arrivals, payload);
  }

  lemma AllDelivered(tx: Bytes, rx: Bytes, arrivals: seq<U64>, payload: int -> Bytes)
    requires BelowSentinel(arrivals) && forall s: U64 :: s < MAX_U64 ==> s in arrivals
    requires Run(FreshEntry(tx, rx), arrivals, payload).1 == Stretch(payload, 0, MAX_U64)
    ensures NextExpected(Run(FreshEntry(tx, rx), arrivals, payload).0) == MAX_U64
  {
    ReorderExactlyOnce(tx, rx, arrivals, payload);
  }
}
