/** Fetching from an offline store: batches of items handled by per-conversation workers, the
    highest sequence number that may be acknowledged, acknowledgement and the saved cursor; over any
    run of polls, interleavings, failed acknowledgements and restarts nothing is skipped. */
module OfflineCursor {
  import opened Basics

  const MAX_BATCHES := 500

  /** How handling one item ended. A permanently rejected item may be so broken that its sequence
      number cannot be read. */
  datatype Outcome = Success | Permanent(readable: bool) | Retry

  /** One element of a fetch response. */
  datatype Raw = Blank | Item(storeSeq: U64)

  datatype Ack = Refused | AppliedButLost | Acked

  /** Go's conversion of a `uint64` to `int64`, which the number to acknowledge goes through before it
      is sent and saved. */
  function ToInt64(x: U64): int {
    if x < TWO63 then x else x - TWO64
  }

  /** The store as it ever was (every sequence number issued, the highest one, the acknowledged
      mark), the saved cursor, and which items have been handled or permanently rejected. */
  datatype World = World(issued: set<U64>, top: U64, deleted: int, cursor: int, handled: set<U64>, rejected: set<U64>)

  predicate Settled(w: World, s: U64) {
    s in w.handled || s in w.rejected
  }

  /** Every item at or below the cursor, and every item the store has been told to delete, has been
      handled or permanently rejected. */
  ghost predicate Inv(w: World) {
    && (forall s :: s in w.issued ==> 0 < s <= w.top)
    && w.top < TWO63 && 0 <= w.cursor <= w.top && w.deleted <= w.top
    && (forall s :: s in w.issued && (s <= w.cursor || s <= w.deleted) ==> Settled(w, s))
  }

  ghost predicate Ascending(items: seq<int>) {
    forall i, j :: 0 <= i < j < |items| ==> items[i] < items[j]
  }

  /** The store returns the next items after the cursor, in ascending order, leaving none out that
      it still has. */
  ghost predicate NextItems(w: World, items: seq<U64>) {
    && Ascending(items)
    && (forall i :: 0 <= i < |items| ==> items[i] in w.issued && w.cursor < items[i])
    && (forall s, i :: 0 <= i < |items| && s in w.issued && w.cursor < s <= items[i] && s > w.deleted ==> s in items)
  }

  // ----- one batch -----

  function Max(a: int, b: int): int { if a < b then b else a }

  /** Items before the first retryable failure. */
  function Passed(outs: nat -> Outcome, n: nat): (k: nat)
    ensures k <= n && forall i :: 0 <= i < k ==> outs(i) != Retry
    ensures k < n ==> outs(k) == Retry
  {
    PassedFrom(outs, n, 0)
  }

  function PassedFrom(outs: nat -> Outcome, n: nat, i: nat): (k: nat)
    requires i <= n
    ensures i <= k <= n && forall j :: i <= j < k ==> outs(j) != Retry
    ensures k < n ==> outs(k) == Retry
    decreases n - i
  {
    if i < n && outs(i) != Retry then PassedFrom(outs, n, i + 1) else i
  }

  function Readable(o: Outcome): bool {
    o.Success? || (o.Permanent? && o.readable)
  }

  /** The highest sequence number among the first `k` items. */
  function MaxSeen(items: seq<U64>, outs: nat -> Outcome, k: nat): U64
    requires k <= |items|
  {
    if k == 0 then 0
    else if Readable(outs(k - 1)) then Max(MaxSeen(items, outs, k - 1), items[k - 1])
    else MaxSeen(items, outs, k - 1)
  }

  function MaxOK(items: seq<U64>, outs: nat -> Outcome): U64 {
    MaxSeen(items, outs, Passed(outs, |items|))
  }

  /** Whether item `i` has been worked on when the batch ends: the results are waited for in batch
      order up to the first retryable failure, and of the items after it any may have been run too. */
  predicate HasRun(outs: nat -> Outcome, n: nat, late: set<nat>, i: nat) {
    i < Passed(outs, n) || i in late
  }

  function WorkersRan(w: World, items: seq<U64>, outs: nat -> Outcome, late: set<nat>): World {
    var n := |items|;
    w.(handled := w.handled + (set i | 0 <= i < n && HasRun(outs, n, late, i) && outs(i) == Success :: items[i]),
       rejected := w.rejected + (set i | 0 <= i < n && HasRun(outs, n, late, i) && outs(i).Permanent? :: items[i]))
  }

  function AfterAck(w: World, m: U64, ack: Ack, saved: bool): World {
    var w1 := if ack == Refused then w else w.(deleted := Max(w.deleted, ToInt64(m)));
    if ack == Acked && saved then w1.(cursor := ToInt64(m)) else w1
  }

  function AfterBatch(
      w: World, items: seq<U64>, outs: nat -> Outcome, late: set<nat>, ack: Ack, saved: bool): World
  {
    var m := MaxOK(items, outs);
    var w1 := WorkersRan(w, items, outs, late);
    if m == 0 then w1 else AfterAck(w1, m, ack, saved)
  }

  lemma {:induction false} MaxSeenFacts(items: seq<U64>, outs: nat -> Outcome, k: nat)
    requires k <= |items| && Ascending(items)
    ensures var m := MaxSeen(items, outs, k);
            && (m != 0 ==> exists i :: 0 <= i < k && items[i] == m && Readable(outs(i)))
            && (forall i :: k <= i < |items| && m != 0 ==> m < items[i])
            && (forall i :: 0 <= i < k && Readable(outs(i)) ==> items[i] <= m)
  {
    if k > 0 {
      MaxSeenFacts(items, outs, k - 1);
      assert forall i :: k <= i < |items| ==> items[k - 1] < items[i];
      if Readable(outs(k - 1)) && items[k - 1] != 0 {
        assert items[k - 1] == MaxSeen(items, outs, k);
      }
    }
  }

  /** Ascending or not, it is the maximum. */
  lemma {:induction false} MaxSeenIsMax(items: seq<U64>, outs: nat -> Outcome, k: nat)
    requires k <= |items|
    ensures var m := MaxSeen(items, outs, k);
            && (m != 0 ==> exists i :: 0 <= i < k && items[i] == m && Readable(outs(i)))
            && (forall i :: 0 <= i < k && Readable(outs(i)) ==> items[i] <= m)
  {
    if k > 0 {
      MaxSeenIsMax(items, outs, k - 1);
      if Readable(outs(k - 1)) && items[k - 1] != 0 && MaxSeen(items, outs, k) == items[k - 1] {
        assert items[k - 1] == MaxSeen(items, outs, k) && Readable(outs(k - 1));
      }
    }
  }

  /** What may be acknowledged: a sequence number of the batch, above the cursor, below every
      retryable failure. */
  lemma MaxOKFacts(w: World, items: seq<U64>, outs: nat -> Outcome)
    requires Inv(w) && NextItems(w, items) && MaxOK(items, outs) != 0
    ensures var m := MaxOK(items, outs);
            && m in items && w.cursor < m <= w.top
            && (forall i :: 0 <= i < |items| && items[i] <= m ==> i < Passed(outs, |items|))
            && (forall i :: 0 <= i < |items| && outs(i) == Retry ==> m < items[i])
  {
    var k := Passed(outs, |items|);
    MaxSeenFacts(items, outs, k);
    var m := MaxOK(items, outs);
    var i :| 0 <= i < k && items[i] == m;
    assert items[i] in w.issued;
  }

  lemma WorkersSettle(w: World, items: seq<U64>, outs: nat -> Outcome, late: set<nat>, i: nat)
    requires i < |items| && HasRun(outs, |items|, late, i) && outs(i) != Retry
    ensures Settled(WorkersRan(w, items, outs, late), items[i])
  {
  }

  lemma WorkersKeepInv(w: World, items: seq<U64>, outs: nat -> Outcome, late: set<nat>)
    requires Inv(w)
    ensures Inv(WorkersRan(w, items, outs, late))
    ensures forall s :: Settled(w, s) ==> Settled(WorkersRan(w, items, outs, late), s)
  {
  }

  /** What is acknowledged is settled: the mark moves only past items of this batch that ended well
      or for good, and past items settled before. */
  lemma BelowMarkSettled(w: World, items: seq<U64>, outs: nat -> Outcome, late: set<nat>, s: U64)
    requires Inv(w) && NextItems(w, items) && MaxOK(items, outs) != 0
    requires s in w.issued && s <= MaxOK(items, outs)
    ensures Settled(WorkersRan(w, items, outs, late), s)
  {
    MaxOKFacts(w, items, outs);
    WorkersKeepInv(w, items, outs, late);
    if s > w.cursor && s > w.deleted {
      var j :| 0 <= j < |items| && items[j] == MaxOK(items, outs);
      assert w.cursor < s <= items[j];
      assert s in items;
      var i :| 0 <= i < |items| && items[i] == s;
      WorkersSettle(w, items, outs, late, i);
    }
  }

  /** One batch, whichever items after a retryable failure were run, keeps the invariant, never
      lowers the cursor, never passes a retryable failure, and raises the cursor strictly whenever
      the poll goes on. */
  lemma BatchIsSafe(w: World, items: seq<U64>, outs: nat -> Outcome, late: set<nat>, ack: Ack, saved: bool)
    requires Inv(w) && NextItems(w, items)
    ensures var w' := AfterBatch(w, items, outs, late, ack, saved);
            && Inv(w') && w.cursor <= w'.cursor && w'.issued == w.issued && w'.top == w.top
            && (MaxOK(items, outs) != 0 && ack == Acked && saved ==> w.cursor < w'.cursor)
            && (forall i :: 0 <= i < |items| && outs(i) == Retry ==> w'.cursor < items[i])
  {
    WorkersKeepInv(w, items, outs, late);
    var m := MaxOK(items, outs);
    if m != 0 {
      MaxOKFacts(w, items, outs);
      var w1 := WorkersRan(w, items, outs, late);
      forall s | s in w.issued && s <= m ensures Settled(w1, s) {
        BelowMarkSettled(w, items, outs, late, s);
      }
      AckKeepsInv(w1, m, ack, saved);
    }
  }

  /** What a batch leaves, number by number: an item counts as handled or rejected by the batch exactly if it ended so
      and was run; the store deletes up to the number acknowledged unless it refused; the cursor is that number exactly
      if the acknowledgement came back and was saved. */
  lemma AfterBatchIs(w: World, items: seq<U64>, outs: nat -> Outcome, late: set<nat>, ack: Ack, saved: bool, i: nat)
    requires i < |items| && MaxOK(items, outs) < TWO63
    ensures var w', m := AfterBatch(w, items, outs, late, ack, saved), MaxOK(items, outs);
            var run := i < Passed(outs, |items|) || i in late;
            && w.handled <= w'.handled && w.rejected <= w'.rejected
            && (run && outs(i) == Success ==> items[i] in w'.handled)
            && (run && outs(i).Permanent? ==> items[i] in w'.rejected)
            && (items[i] in w'.handled && items[i] !in w.handled ==>
                exists j :: 0 <= j < |items| && items[j] == items[i] && outs(j) == Success
                    && (j < Passed(outs, |items|) || j in late))
            && w'.issued == w.issued && w'.top == w.top
            && w'.deleted == (if m != 0 && ack != Refused && w.deleted < m then m else w.deleted)
            && w'.cursor == (if m != 0 && ack == Acked && saved then m else w.cursor)
  {
    var ran := WorkersRan(w, items, outs, late);
    assert HasRun(outs, |items|, late, i) <==> i < Passed(outs, |items|) || i in late;
    if items[i] in ran.handled && items[i] !in w.handled {
      var j :| 0 <= j < |items| && HasRun(outs, |items|, late, j) && outs(j) == Success && items[j] == items[i];
    }
  }

  lemma AckKeepsInv(w: World, m: U64, ack: Ack, saved: bool)
    requires Inv(w) && m <= w.top && forall s :: s in w.issued && s <= m ==> Settled(w, s)
    ensures Inv(AfterAck(w, m, ack, saved))
  {
  }

  /** The bound on sequence numbers is exact: a batch that is acknowledged and saved raises the
      cursor exactly when the number acknowledged is below 2^63. */
  lemma CursorRisesIff(w: World, items: seq<U64>, outs: nat -> Outcome, late: set<nat>)
    requires NextItems(w, items) && 0 <= w.cursor && MaxOK(items, outs) != 0
    ensures w.cursor < AfterBatch(w, items, outs, late, Acked, true).cursor <==> MaxOK(items, outs) < TWO63
  {
    MaxSeenFacts(items, outs, Passed(outs, |items|));
  }

  /** The first number beyond it makes the saved cursor negative, so everything is fetched anew. */
  lemma CursorTurnsNegative(cursor: Column, outs: nat -> Outcome)
    requires outs(0) == Success
    ensures var w := World({TWO63}, TWO63, 0, cursor, {}, {});
            NextItems(w, [TWO63]) && AfterBatch(w, [TWO63], outs, {}, Acked, true).cursor == -TWO63
  {
    assert MaxSeen([TWO63], outs, 1) == TWO63;
  }

  // ----- runs -----

  datatype Action =
    | Deposit(seqNo: U64)
    | Batch(items: seq<U64>, outs: nat -> Outcome, late: set<nat>, ack: Ack, saved: bool)
    | Finish(seqNo: U64, outcome: Outcome)

  /** Sequence numbers are issued in ascending order below 2^63; a batch gets the next items; a task
      left in its queue when its batch ended may finish at any later time. Polls and restarts add no
      state: each poll, and each batch of it, starts from the saved cursor. */
  ghost predicate Enabled(w: World, a: Action) {
    match a
    case Deposit(s) => w.top < s < TWO63
    case Batch(items, _, _, _, _) => NextItems(w, items)
    case Finish(s, _) => s in w.issued
  }

  /** A worker has handled item `s`, with its outcome. */
  function Ended(w: World, s: U64, o: Outcome): World {
    match o
    case Success => w.(handled := w.handled + {s})
    case Permanent(_) => w.(rejected := w.rejected + {s})
    case Retry => w
  }

  function Step(w: World, a: Action): World {
    match a
    case Deposit(s) => w.(issued := w.issued + {s}, top := s)
    case Batch(items, outs, late, ack, saved) => AfterBatch(w, items, outs, late, ack, saved)
    case Finish(s, outcome) => Ended(w, s, outcome)
  }

  /** A deposit adds its number and nothing else; a task that finishes late adds its item to what is handled or
      rejected and nothing else. */
  lemma StepIs(w: World, a: Action)
    ensures a.Deposit? ==> Step(w, a) == w.(issued := w.issued + {a.seqNo}, top := a.seqNo)
    ensures a.Finish? ==>
              Step(w, a) == w.(handled := if a.outcome == Success then w.handled + {a.seqNo} else w.handled,
                               rejected := if a.outcome.Permanent? then w.rejected + {a.seqNo} else w.rejected)
  {
  }

  function After(w: World, actions: seq<Action>, n: nat): World
    requires n <= |actions|
  {
    if n == 0 then w else Step(After(w, actions, n - 1), actions[n - 1])
  }

  ghost predicate IsRun(w: World, actions: seq<Action>) {
    forall i :: 0 <= i < |actions| ==> EnabledAt(w, actions, i)
  }

  ghost predicate EnabledAt(w: World, actions: seq<Action>, i: nat)
    requires i < |actions|
  {
    Enabled(After(w, actions, i), actions[i])
  }

  lemma StepIsSafe(w: World, a: Action)
    requires Inv(w) && Enabled(w, a)
    ensures Inv(Step(w, a)) && w.cursor <= Step(w, a).cursor
  {
    match a
    case Deposit(s) =>
      assert forall t :: Settled(Step(w, a), t) <==> Settled(w, t);
    case Batch(items, outs, late, ack, saved) => BatchIsSafe(w, items, outs, late, ack, saved);
    case Finish(s, outcome) =>
      assert forall t :: Settled(w, t) ==> Settled(Step(w, a), t);
  }

  lemma {:induction false} RunKeepsInv(w: World, actions: seq<Action>, n: nat)
    requires Inv(w) && IsRun(w, actions) && n <= |actions|
    ensures Inv(After(w, actions, n))
  {
    if n > 0 {
      RunKeepsInv(w, actions, n - 1);
      assert EnabledAt(w, actions, n - 1);
      StepIsSafe(After(w, actions, n - 1), actions[n - 1]);
    }
  }

  /** Over any run the cursor never decreases, and every item at or below it has been handled or
      permanently rejected. */
  lemma {:induction false} CursorIsSafe(w: World, actions: seq<Action>, m: nat, n: nat)
    requires Inv(w) && IsRun(w, actions) && m <= n <= |actions|
    ensures Inv(After(w, actions, n))
    ensures After(w, actions, m).cursor <= After(w, actions, n).cursor
    decreases n
  {
    RunKeepsInv(w, actions, n);
    if m < n {
      CursorIsSafe(w, actions, m, n - 1);
      assert EnabledAt(w, actions, n - 1);
      StepIsSafe(After(w, actions, n - 1), actions[n - 1]);
    }
  }

  // ----- the poll -----

  /** What the outside does in one batch: whether the fetch succeeds, the items, whether there is
      more, how each non-blank item's handler ends, which items after a retryable failure are handled
      before the batch ends, the acknowledgement, the saving of the cursor. */
  datatype Answer = Answer(
    fetched: bool, raws: seq<Raw>, hasMore: bool, outs: nat -> Outcome, late: set<nat>, ack: Ack, saved: bool)

  function NonBlank(raws: seq<Raw>): seq<U64> {
    if raws == [] then []
    else if raws[|raws| - 1].Blank? then NonBlank(raws[..|raws| - 1])
    else NonBlank(raws[..|raws| - 1]) + [raws[|raws| - 1].storeSeq]
  }

  /** The store and the handlers, for each batch of the poll. */
  type Outside = (nat, World) -> Answer

  ghost predicate HonestStore(o: Outside) {
    forall b, w :: HonestAt(o, b, w)
  }

  ghost predicate HonestAt(o: Outside, b: nat, w: World) {
    NextItems(w, NonBlank(o(b, w).raws))
  }

  /** Every item that is not blank goes to its worker. */
  method Dispatch(raws: seq<Raw>) returns (pending: seq<U64>)
    ensures pending == NonBlank(raws)
  {
    pending := [];
    for i := 0 to |raws|
      invariant pending == NonBlank(raws[..i])
    {
      assert raws[..i + 1][..i] == raws[..i];
      if raws[i].Item? {
        pending := pending + [raws[i].storeSeq];
      }
    }
    assert raws[..|raws|] == raws;
  }

  /** The highest number among the items before the first retryable failure whose number can be read, or 0. */
  method ReadResults(pending: seq<U64>, outs: nat -> Outcome) returns (maxOK: U64)
    ensures maxOK == MaxOK(pending, outs)
    ensures forall i :: 0 <= i < |pending| && Readable(outs(i)) && (forall j :: 0 <= j <= i ==> outs(j) != Retry) ==>
              pending[i] <= maxOK
    ensures maxOK != 0 ==>
              exists i :: 0 <= i < |pending| && pending[i] == maxOK && Readable(outs(i))
                  && forall j :: 0 <= j <= i ==> outs(j) != Retry
  {
    MaxSeenIsMax(pending, outs, Passed(outs, |pending|));
    maxOK := 0;
    var i := 0;
    while i < |pending|
      invariant 0 <= i <= |pending| && maxOK == MaxSeen(pending, outs, i)
      invariant PassedFrom(outs, |pending|, 0) == PassedFrom(outs, |pending|, i)
    {
      var o := outs(i);
      match o {
        case Retry => break;
        case Permanent(readable) =>
          var s := if readable then pending[i] else 0;
          if s > maxOK {
            maxOK := s;
          }
        case Success =>
          if pending[i] > maxOK {
            maxOK := pending[i];
          }
      }
      i := i + 1;
    }
  }

  /** A batch was fetched, and what it acknowledges was acknowledged and saved. */
  predicate Advances(a: Answer) {
    a.fetched && MaxOK(NonBlank(a.raws), a.outs) != 0 && a.ack == Acked && a.saved
  }

  /** One batch of a poll: the world it leaves, the cursor it saves, if any, and whether the poll goes on. */
  datatype Progress = Progress(w: World, saved: seq<int>, more: bool)

  function OneBatch(w: World, a: Answer): Progress {
    var items := NonBlank(a.raws);
    if !a.fetched then Progress(w, [], false)
    else
      var w1 := AfterBatch(w, items, a.outs, a.late, a.ack, a.saved);
      if Advances(a) then Progress(w1, [MaxOK(items, a.outs)], a.hasMore) else Progress(w1, [], false)
  }

  /** What each batch of a poll does to each world. */
  type Batches = (nat, World) -> Progress

  function BatchesOf(outside: Outside): Batches {
    (b: nat, w: World) => OneBatch(w, outside(b, w))
  }

  /** The poll from batch `b` on, up to a number of batches: the world it leaves and the cursors it saves. */
  function PollFrom(w: World, batches: Batches, b: nat, limit: nat): (World, seq<int>)
    requires b <= limit
    decreases limit - b
  {
    if b == limit then (w, [])
    else
      var p := batches(b, w);
      if p.more then Resumed(p.saved, PollFrom(p.w, batches, b + 1, limit)) else (p.w, p.saved)
  }

  /** The cursors saved so far, and those the rest of the poll saves. */
  function Resumed(trace: seq<int>, rest: (World, seq<int>)): (World, seq<int>) {
    (rest.0, trace + rest.1)
  }

  /** From `c` on the saved cursors ascend, and the last one is `last`. */
  ghost predicate Saves(c: int, trace: seq<int>, last: int) {
    Ascending([c] + trace) && last == ([c] + trace)[|trace|]
  }

  class Poller {
    /** The saved cursor, and what is true of the store and the handlers. */
    var w: World

    /** `fetchAndProcessFromStore`; `trace` lists the cursors saved. */
    method Poll(outside: Outside) returns (trace: seq<int>)
      requires Inv(w) && HonestStore(outside)
      modifies this
      ensures (w, trace) == PollFrom(old(w), BatchesOf(outside), 0, MAX_BATCHES)
      ensures Inv(w) && w.issued == old(w.issued)
      ensures Saves(old(w.cursor), trace, w.cursor) && |trace| <= MAX_BATCHES
    {
      HonestIsSafe(outside);
      PollIsSafe(w, BatchesOf(outside), 0, MAX_BATCHES);
      trace := PollUpTo(outside, MAX_BATCHES);
    }

    method PollUpTo(outside: Outside, limit: nat) returns (trace: seq<int>)
      modifies this
      ensures (w, trace) == PollFrom(old(w), BatchesOf(outside), 0, limit)
    {
      ghost var batches := BatchesOf(outside);
      ghost var goal := PollFrom(w, batches, 0, limit);
      ResumedNone(goal);
      trace := [];
      var batch, more := 0, true;
      while batch < limit && more
        invariant 0 <= batch <= limit
        invariant goal == if more then Resumed(trace, PollFrom(w, batches, batch, limit)) else (w, trace)
        decreases limit - batch
      {
        ghost var before := trace;
        var saved;
        assert batches(batch, w) == OneBatch(w, outside(batch, w));
        saved, more := DoBatch(outside(batch, w));
        trace := trace + saved;
        batch := batch + 1;
        if more {
          ResumedTwice(before, saved, PollFrom(w, batches, batch, limit));
        }
      }
      assert trace + [] == trace;
    }

    method DoBatch(a: Answer) returns (saved: seq<int>, more: bool)
      modifies this
      ensures Progress(w, saved, more) == OneBatch(old(w), a)
    {
      if !a.fetched {
        return [], false;
      }
      var pending := Dispatch(a.raws);
      var maxOK := ReadResults(pending, a.outs);
      w := WorkersRan(w, pending, a.outs, a.late);
      if maxOK == 0 {
        return [], false;
      }
      w := AfterAck(w, maxOK, a.ack, a.saved);
      if a.ack != Acked || !a.saved {
        return [], false;
      }
      saved, more := [maxOK], a.hasMore;
    }
  }

  lemma ResumedTwice(first: seq<int>, second: seq<int>, rest: (World, seq<int>))
    ensures Resumed(first, Resumed(second, rest)) == Resumed(first + second, rest)
  {
    assert first + (second + rest.1) == (first + second) + rest.1;
  }

  lemma ResumedNone(rest: (World, seq<int>))
    ensures Resumed([], rest) == rest
  {
    assert [] + rest.1 == rest.1;
  }

  /** One batch keeps the invariant; it saves a cursor exactly when it advances, and that is a higher one; the
      poll goes on exactly when it advances and there is more. */
  lemma OneBatchIsSafe(w: World, a: Answer)
    requires Inv(w) && NextItems(w, NonBlank(a.raws))
    ensures var p := OneBatch(w, a);
            && Inv(p.w) && p.w.issued == w.issued
            && (p.more <==> Advances(a) && a.hasMore)
            && (if Advances(a) then w.cursor < p.w.cursor && p.saved == [p.w.cursor]
                else p.w.cursor == w.cursor && p.saved == [])
  {
    var items := NonBlank(a.raws);
    BatchIsSafe(w, items, a.outs, a.late, a.ack, a.saved);
    if Advances(a) {
      AdvanceSaves(w, items, a.outs, a.late);
    }
  }

  /** The poll went from `w` to `w'` keeping the invariant, and saved at most `n` ascending cursors, the last of which
      stays. */
  ghost predicate PolledWell(w: World, w': World, trace: seq<int>, n: int) {
    Inv(w') && w'.issued == w.issued && |trace| <= n && Saves(w.cursor, trace, w'.cursor)
  }

  /** A batch keeps the invariant, saves the cursor it reaches if that is higher, and goes on only then. */
  ghost predicate SafeProgress(w: World, p: Progress) {
    && Inv(p.w) && p.w.issued == w.issued
    && ((w.cursor < p.w.cursor && p.saved == [p.w.cursor]) || (p.w.cursor == w.cursor && p.saved == [] && !p.more))
  }

  ghost predicate AllSafe(batches: Batches) {
    forall b, w :: Inv(w) ==> SafeProgress(w, batches(b, w))
  }

  lemma HonestIsSafe(outside: Outside)
    requires HonestStore(outside)
    ensures AllSafe(BatchesOf(outside))
  {
    forall b, w | Inv(w) ensures SafeProgress(w, BatchesOf(outside)(b, w)) {
      assert HonestAt(outside, b, w);
      OneBatchIsSafe(w, outside(b, w));
    }
  }

  lemma {:induction false} PollIsSafe(w: World, batches: Batches, b: nat, limit: nat)
    requires b <= limit && Inv(w) && AllSafe(batches)
    ensures var r := PollFrom(w, batches, b, limit); PolledWell(w, r.0, r.1, limit - b)
    decreases limit - b
  {
    if b == limit {
      SavesNone(w.cursor);
    } else {
      var p := batches(b, w);
      assert SafeProgress(w, p);
      if p.more {
        PollIsSafe(p.w, batches, b + 1, limit);
        var rest := PollFrom(p.w, batches, b + 1, limit);
        PolledMore(w, p, rest.0, rest.1, limit - b - 1);
      } else {
        PolledOnce(w, p, limit - b);
      }
    }
  }

  lemma PolledOnce(w: World, p: Progress, n: int)
    requires Inv(p.w) && p.w.issued == w.issued && n >= 1
    requires (w.cursor < p.w.cursor && p.saved == [p.w.cursor]) || (p.w.cursor == w.cursor && p.saved == [])
    ensures PolledWell(w, p.w, p.saved, n)
  {
    SavesNone(p.w.cursor);
    if p.saved != [] {
      SavesMore(w.cursor, p.w.cursor, [], p.w.cursor);
      assert [p.w.cursor] + [] == p.saved;
    }
  }

  lemma PolledMore(w: World, p: Progress, w': World, rest: seq<int>, n: int)
    requires p.w.issued == w.issued && w.cursor < p.w.cursor && p.saved == [p.w.cursor] && PolledWell(p.w, w', rest, n)
    ensures PolledWell(w, w', p.saved + rest, n + 1)
  {
    SavesMore(w.cursor, p.w.cursor, rest, w'.cursor);
  }

  lemma SavesNone(c: int)
    ensures Saves(c, [], c)
  {
  }

  lemma AdvanceSaves(w: World, items: seq<U64>, outs: nat -> Outcome, late: set<nat>)
    requires Inv(w) && NextItems(w, items) && MaxOK(items, outs) != 0
    ensures w.cursor < AfterBatch(w, items, outs, late, Acked, true).cursor == MaxOK(items, outs)
  {
    MaxOKFacts(w, items, outs);
  }

  lemma SavesMore(c: int, m: int, rest: seq<int>, last: int)
    requires c < m && Saves(m, rest, last)
    ensures Saves(c, [m] + rest, last)
  {
    var all, tail := [c] + ([m] + rest), [m] + rest;
    forall i, j | 0 <= i < j < |all| ensures all[i] < all[j] {
      assert all[j] == tail[j - 1];
      assert tail[0] == m && (j > 1 ==> tail[0] < tail[j - 1]);
      assert i > 0 ==> all[i] == tail[i - 1];
    }
    assert all[|tail|] == tail[|rest|];
  }

  /** Exactly when a poll saves another cursor after this batch's: the batch was fetched, acknowledged something
      and saved it, there is more, it was not the last it may fetch, and the next one advances too. */
  lemma GoesOnIff(w: World, outside: Outside, b: nat, limit: nat)
    requires b < limit && Inv(w) && HonestStore(outside)
    ensures var a, trace := outside(b, w), PollFrom(w, BatchesOf(outside), b, limit).1;
            var w1 := OneBatch(w, a).w;
            && (|trace| > 0 <==> Advances(a))
            && (|trace| > 1 <==> Advances(a) && a.hasMore && b + 1 < limit && Advances(outside(b + 1, w1)))
  {
    var batches, a := BatchesOf(outside), outside(b, w);
    assert HonestAt(outside, b, w) && batches(b, w) == OneBatch(w, a);
    OneBatchIsSafe(w, a);
    var w1 := OneBatch(w, a).w;
    if b + 1 < limit {
      assert HonestAt(outside, b + 1, w1) && batches(b + 1, w1) == OneBatch(w1, outside(b + 1, w1));
      OneBatchIsSafe(w1, outside(b + 1, w1));
    }
  }

  /** The store has more exactly while it has issued something above the last item it returns, and returns
      nothing only if nothing is left; every item is handled, acknowledged and saved. */
  ghost predicate Serving(w: World, a: Answer) {
    var items := NonBlank(a.raws);
    && a.fetched && a.ack == Acked && a.saved && NextItems(w, items)
    && (forall i :: 0 <= i < |items| ==> a.outs(i) == Success)
    && (items == [] ==> forall s :: s in w.issued ==> s <= w.cursor)
    && (items != [] ==> (a.hasMore <==> exists s :: s in w.issued && s > items[|items| - 1]))
  }

  lemma {:induction false} MaxSeenAll(items: seq<U64>, outs: nat -> Outcome, k: nat)
    requires k <= |items| && Ascending(items) && forall i :: 0 <= i < |items| ==> outs(i) == Success
    ensures MaxSeen(items, outs, k) == if k == 0 then 0 else items[k - 1]
  {
    if k > 0 {
      MaxSeenAll(items, outs, k - 1);
    }
  }

  /** A batch of a serving store takes the cursor to its last item. */
  lemma ServedBatch(w: World, a: Answer)
    requires Inv(w) && Serving(w, a) && NonBlank(a.raws) != []
    ensures var items := NonBlank(a.raws);
            MaxOK(items, a.outs) == items[|items| - 1] == AfterBatch(w, items, a.outs, a.late, Acked, true).cursor
  {
    var items := NonBlank(a.raws);
    assert Passed(a.outs, |items|) == |items|;
    MaxSeenAll(items, a.outs, |items|);
    assert items[|items| - 1] in w.issued;
  }

  /** Progress: against such a store a poll ends with nothing issued above the cursor, and so with everything
      handled or rejected, or else has used all its batches, each of which raised the cursor. */
  lemma PollDrains(w: World, outside: Outside, b: nat, limit: nat)
    requires b <= limit && Inv(w) && AlwaysServing(outside)
    ensures var (w', trace) := PollFrom(w, BatchesOf(outside), b, limit);
            && w'.issued == w.issued
            && ((forall s :: s in w.issued ==> s <= w'.cursor && Settled(w', s)) || |trace| == limit - b)
  {
    forall n, v | Inv(v) ensures DrainingProgress(v, BatchesOf(outside)(n, v)) {
      assert ServesAt(outside, n, v);
      ServedOnce(v, outside(n, v));
    }
    DrainsFrom(w, BatchesOf(outside), b, limit);
  }

  ghost predicate NothingLeft(issued: set<U64>, w: World) {
    forall s :: s in issued ==> s <= w.cursor && Settled(w, s)
  }

  /** A batch after which the poll does not go on has left nothing; one after which it does saves a cursor. */
  ghost predicate DrainingProgress(w: World, p: Progress) {
    && Inv(p.w) && p.w.issued == w.issued
    && if p.more then |p.saved| == 1 else NothingLeft(w.issued, p.w)
  }

  ghost predicate AllDraining(batches: Batches) {
    forall n, v :: Inv(v) ==> DrainingProgress(v, batches(n, v))
  }

  lemma {:induction false} DrainsFrom(w: World, batches: Batches, b: nat, limit: nat)
    requires b <= limit && Inv(w) && AllDraining(batches)
    ensures var r := PollFrom(w, batches, b, limit);
            r.0.issued == w.issued && (NothingLeft(w.issued, r.0) || |r.1| == limit - b)
    decreases limit - b
  {
    if b < limit {
      var p := batches(b, w);
      assert DrainingProgress(w, p);
      if p.more {
        DrainsFrom(p.w, batches, b + 1, limit);
      }
    }
  }

  ghost predicate AlwaysServing(outside: Outside) {
    forall n, v :: ServesAt(outside, n, v)
  }

  ghost predicate ServesAt(outside: Outside, n: nat, v: World) {
    Serving(v, outside(n, v))
  }

  lemma ServedOnce(w: World, a: Answer)
    requires Inv(w) && Serving(w, a)
    ensures DrainingProgress(w, OneBatch(w, a))
  {
    OneBatchIsSafe(w, a);
    var items := NonBlank(a.raws);
    if items != [] {
      ServedBatch(w, a);
    } else {
      assert MaxOK(items, a.outs) == 0;
    }
  }

  // ----- a poll is a run -----

  lemma {:induction false} AfterCons(w: World, a: Action, rest: seq<Action>, n: nat)
    requires n <= |rest|
    ensures After(w, [a] + rest, n + 1) == After(Step(w, a), rest, n)
  {
    if n > 0 {
      AfterCons(w, a, rest, n - 1);
      assert ([a] + rest)[n] == rest[n - 1];
    } else {
      assert After(w, [a] + rest, 0) == w;
    }
  }

  lemma RunCons(w: World, a: Action, rest: seq<Action>)
    requires Enabled(w, a) && IsRun(Step(w, a), rest)
    ensures IsRun(w, [a] + rest) && After(w, [a] + rest, |rest| + 1) == After(Step(w, a), rest, |rest|)
  {
    AfterCons(w, a, rest, |rest|);
    forall i | 0 <= i < |rest| + 1 ensures EnabledAt(w, [a] + rest, i) {
      if i > 0 {
        AfterCons(w, a, rest, i - 1);
        assert EnabledAt(Step(w, a), rest, i - 1);
      }
    }
  }

  /** The step of a run that a batch is. */
  function ActionOf(a: Answer): Action {
    Batch(NonBlank(a.raws), a.outs, a.late, a.ack, a.saved)
  }

  /** What a poll does is a run of batches, so what holds over every run holds over every sequence of polls. */
  lemma {:induction false} PollIsRun(w: World, outside: Outside, b: nat, limit: nat) returns (actions: seq<Action>)
    requires b <= limit && HonestStore(outside)
    ensures IsRun(w, actions) && After(w, actions, |actions|) == PollFrom(w, BatchesOf(outside), b, limit).0
    ensures |actions| <= limit - b && forall i :: 0 <= i < |actions| ==> actions[i].Batch?
    decreases limit - b
  {
    actions := [];
    if b < limit {
      assert HonestAt(outside, b, w);
      BatchRuns(w, outside(b, w));
      var p := BatchesOf(outside)(b, w);
      if outside(b, w).fetched {
        var rest := [];
        if p.more {
          rest := PollIsRun(p.w, outside, b + 1, limit);
        }
        RunCons(w, ActionOf(outside(b, w)), rest);
        actions := [ActionOf(outside(b, w))] + rest;
      }
    }
  }

  lemma BatchRuns(w: World, a: Answer)
    requires NextItems(w, NonBlank(a.raws))
    ensures Enabled(w, ActionOf(a))
    ensures OneBatch(w, a).w == if a.fetched then Step(w, ActionOf(a)) else w
    ensures !a.fetched ==> !OneBatch(w, a).more
  {
  }

  // ----- the workers -----

  /** An item of a batch with the key of its conversation's queue. */
  datatype Task = Task(key: string, batch: nat, item: nat)

  /** The worker queues by key, and every task sent to them and run by them so far. */
  datatype Pool = Pool(queues: map<string, seq<Task>>, sent: seq<Task>, ran: seq<Task>)

  /** A send to the queue of the task's key, or one step of the worker of a key. Which comes when is
      up to the scheduler; a full queue only delays a send. */
  datatype Move = Send(task: Task) | Work(key: string)

  function Queue(p: Pool, key: string): seq<Task> {
    if key in p.queues then p.queues[key] else []
  }

  function Moved(p: Pool, m: Move): Pool {
    match m
    case Send(t) =>
      Pool(p.queues[t.key := Queue(p, t.key) + [t]], p.sent + [t], p.ran)
    case Work(k) =>
      if Queue(p, k) == [] then p
      else Pool(p.queues[k := Queue(p, k)[1..]], p.sent, p.ran + [Queue(p, k)[0]])
  }

  function AfterMoves(p: Pool, moves: seq<Move>, n: nat): Pool
    requires n <= |moves|
  {
    if n == 0 then p else Moved(AfterMoves(p, moves, n - 1), moves[n - 1])
  }

  /** The tasks of one queue, in order. */
  function OfKey(tasks: seq<Task>, key: string): seq<Task> {
    if tasks == [] then []
    else if tasks[|tasks| - 1].key == key then OfKey(tasks[..|tasks| - 1], key) + [tasks[|tasks| - 1]]
    else OfKey(tasks[..|tasks| - 1], key)
  }

  predicate AllOf(q: seq<Task>, key: string) {
    forall i :: 0 <= i < |q| ==> q[i].key == key
  }

  ghost predicate Balanced(p: Pool, key: string) {
    OfKey(p.ran, key) + Queue(p, key) == OfKey(p.sent, key) && AllOf(Queue(p, key), key)
  }

  lemma OfKeySnoc(tasks: seq<Task>, t: Task, key: string)
    ensures OfKey(tasks + [t], key) == if t.key == key then OfKey(tasks, key) + [t] else OfKey(tasks, key)
  {
    assert (tasks + [t])[..|tasks|] == tasks;
  }

  lemma SendKeepsBalance(p: Pool, t: Task, key: string)
    requires Balanced(p, key)
    ensures Balanced(Moved(p, Send(t)), key)
  {
    OfKeySnoc(p.sent, t, key);
    if t.key == key {
      Reassociate(OfKey(p.ran, key), Queue(p, key), t);
      assert AllOf(Queue(p, key) + [t], key);
    } else {
      assert Queue(Moved(p, Send(t)), key) == Queue(p, key);
    }
  }

  lemma WorkKeepsBalance(p: Pool, k: string, key: string)
    requires Balanced(p, key) && Balanced(p, k)
    ensures Balanced(Moved(p, Work(k)), key)
  {
    var q := Queue(p, k);
    if q != [] {
      assert q[0].key == k;
      OfKeySnoc(p.ran, q[0], key);
      Advance(OfKey(p.ran, key), q);
      assert k != key ==> Queue(Moved(p, Work(k)), key) == Queue(p, key);
    }
  }

  lemma Reassociate(a: seq<Task>, q: seq<Task>, t: Task)
    ensures a + (q + [t]) == (a + q) + [t]
  {
  }

  lemma Advance(a: seq<Task>, q: seq<Task>)
    requires q != []
    ensures (a + [q[0]]) + q[1..] == a + q
  {
  }

  ghost predicate AllBalanced(p: Pool) {
    forall key :: Balanced(p, key)
  }

  lemma MoveKeepsBalance(p: Pool, m: Move)
    requires AllBalanced(p)
    ensures AllBalanced(Moved(p, m))
  {
    forall key ensures Balanced(Moved(p, m), key) {
      match m
      case Send(t) => SendKeepsBalance(p, t, key);
      case Work(k) => WorkKeepsBalance(p, k, key);
    }
  }

  lemma {:induction false} AlwaysBalanced(p: Pool, moves: seq<Move>, n: nat)
    requires n <= |moves| && AllBalanced(p)
    ensures AllBalanced(AfterMoves(p, moves, n))
  {
    if n > 0 {
      AlwaysBalanced(p, moves, n - 1);
      MoveKeepsBalance(AfterMoves(p, moves, n - 1), moves[n - 1]);
    }
  }

  /** However sends and workers interleave, the tasks of one conversation run one after the other in
      the order they were fetched, each at most once. */
  lemma ConversationsStayInOrder(p: Pool, moves: seq<Move>, n: nat, key: string)
    requires n <= |moves| && p.queues == map[] && p.sent == [] && p.ran == []
    ensures OfKey(AfterMoves(p, moves, n).ran, key) <= OfKey(AfterMoves(p, moves, n).sent, key)
  {
    AlwaysBalanced(p, moves, n);
    assert Balanced(AfterMoves(p, moves, n), key);
  }

  lemma {:induction false} MovesPrefix(p: Pool, moves: seq<Move>, more: seq<Move>, n: nat)
    requires n <= |moves|
    ensures AfterMoves(p, moves + more, n) == AfterMoves(p, moves, n)
  {
    if n > 0 {
      MovesPrefix(p, moves, more, n - 1);
    }
  }

  /** And any tasks can be sent and run to the last. */
  lemma {:induction false} QueuesDrain(tasks: seq<Task>) returns (moves: seq<Move>)
    ensures var end := AfterMoves(Pool(map[], [], []), moves, |moves|);
            end.sent == tasks && end.ran == tasks && forall k :: Queue(end, k) == []
  {
    moves := [];
    if tasks != [] {
      var rest, t := tasks[..|tasks| - 1], tasks[|tasks| - 1];
      var before := QueuesDrain(rest);
      var start, more := Pool(map[], [], []), [Send(t), Work(t.key)];
      moves := before + more;
      MovesPrefix(start, before, more, |before|);
      var p := AfterMoves(start, before, |before|);
      assert AfterMoves(start, moves, |before| + 1) == Moved(p, Send(t));
      assert AfterMoves(start, moves, |before| + 2) == Moved(Moved(p, Send(t)), Work(t.key));
      SendAndWork(p, t);
      assert tasks == rest + [t];
    }
  }

  lemma SendAndWork(p: Pool, t: Task)
    requires forall k :: Queue(p, k) == []
    ensures var p' := Moved(Moved(p, Send(t)), Work(t.key));
            p'.sent == p.sent + [t] && p'.ran == p.ran + [t] && forall k :: Queue(p', k) == []
  {
    var sent := Moved(p, Send(t));
    assert Queue(sent, t.key) == [t];
    forall k ensures Queue(Moved(sent, Work(t.key)), k) == [] {
      assert k != t.key ==> Queue(sent, k) == Queue(p, k);
    }
  }

  // ----- workers and batches -----

  /** The tasks of batch `b`: item `i` goes to the queue of `key(i)`. */
  function Tasks(key: nat -> string, b: nat, n: nat): seq<Task> {
    seq(n, i requires 0 <= i < n => Task(key(i), b, i))
  }

  /** The tasks run so far, as far as they belong to batch `b` with these items. */
  function RanAll(w: World, items: seq<U64>, outs: nat -> Outcome, b: nat, ran: seq<Task>): World {
    if ran == [] then w
    else
      var w1, t := RanAll(w, items, outs, b, ran[..|ran| - 1]), ran[|ran| - 1];
      if t.batch == b && t.item < |items| then Ended(w1, items[t.item], outs(t.item)) else w1
  }

  /** The items of batch `b` among the tasks run. */
  function RunItems(b: nat, n: nat, ran: seq<Task>): set<nat> {
    set t | t in ran && t.batch == b && t.item < n :: t.item
  }

  /** The items with these indices handled, with their outcomes. */
  function Credit(w: World, items: seq<U64>, outs: nat -> Outcome, done: set<nat>): World {
    w.(handled := w.handled + (set i | i in done && i < |items| && outs(i) == Success :: items[i]),
       rejected := w.rejected + (set i | i in done && i < |items| && outs(i).Permanent? :: items[i]))
  }

  lemma RunItemsSnoc(b: nat, n: nat, ran: seq<Task>, t: Task)
    ensures RunItems(b, n, ran + [t]) == RunItems(b, n, ran) + if t.batch == b && t.item < n then {t.item} else {}
  {
    assert t in ran + [t];
  }

  /** Only which tasks ran matters, not when. */
  lemma {:induction false} RanAllSets(w: World, items: seq<U64>, outs: nat -> Outcome, b: nat, ran: seq<Task>)
    ensures RanAll(w, items, outs, b, ran) == Credit(w, items, outs, RunItems(b, |items|, ran))
  {
    if ran != [] {
      var rest, t := ran[..|ran| - 1], ran[|ran| - 1];
      RanAllSets(w, items, outs, b, rest);
      assert ran == rest + [t];
      RunItemsSnoc(b, |items|, rest, t);
      if t.batch == b && t.item < |items| {
        CreditMore(w, items, outs, RunItems(b, |items|, rest), t.item);
      }
    }
  }

  lemma CreditMore(w: World, items: seq<U64>, outs: nat -> Outcome, done: set<nat>, i: nat)
    requires i < |items|
    ensures Credit(w, items, outs, done + {i}) == Ended(Credit(w, items, outs, done), items[i], outs(i))
  {
  }

  /** Tasks of a queue and tasks are the same thing. */
  lemma {:induction false} OfKeyMembers(tasks: seq<Task>, t: Task)
    ensures t in OfKey(tasks, t.key) <==> t in tasks
  {
    if tasks != [] {
      OfKeyMembers(tasks[..|tasks| - 1], t);
      assert tasks == tasks[..|tasks| - 1] + [tasks[|tasks| - 1]];
    }
  }

  /** A task whose queue is empty has run exactly if it was sent. */
  lemma DrainedHasRun(p: Pool, moves: seq<Move>, t: Task)
    requires p.queues == map[] && p.sent == [] && p.ran == []
    requires Queue(AfterMoves(p, moves, |moves|), t.key) == []
    ensures var end := AfterMoves(p, moves, |moves|); t in end.ran <==> t in end.sent
  {
    AlwaysBalanced(p, moves, |moves|);
    var end := AfterMoves(p, moves, |moves|);
    assert Balanced(end, t.key);
    assert OfKey(end.ran, t.key) + [] == OfKey(end.ran, t.key);
    OfKeyMembers(end.ran, t);
    OfKeyMembers(end.sent, t);
  }

  /** However the workers interleave, with tasks of earlier batches too, once they have run the tasks
      of a batch before its first retryable failure, its items are handled and rejected as the batch
      step says, with those of the later tasks that happen to have run; where all queues of the batch
      are empty, that is all of them. */
  lemma WorkersDoTheBatch(
        w: World, items: seq<U64>, outs: nat -> Outcome, key: nat -> string, b: nat, p: Pool, moves: seq<Move>)
    requires p.queues == map[] && p.sent == [] && p.ran == []
    requires forall t :: t in Tasks(key, b, |items|) ==> t in AfterMoves(p, moves, |moves|).sent
    requires forall i :: 0 <= i < Passed(outs, |items|) ==>
              Task(key(i), b, i) in AfterMoves(p, moves, |moves|).ran
    ensures var end := AfterMoves(p, moves, |moves|);
            var late := RunItems(b, |items|, end.ran);
            && RanAll(w, items, outs, b, end.ran) == WorkersRan(w, items, outs, late)
            && ((forall i :: 0 <= i < |items| ==> Queue(end, key(i)) == []) ==>
                  forall i :: 0 <= i < |items| ==> i in late)
  {
    var end := AfterMoves(p, moves, |moves|);
    var late := RunItems(b, |items|, end.ran);
    RanAllSets(w, items, outs, b, end.ran);
    forall i | 0 <= i < Passed(outs, |items|) ensures i in late {
      assert Task(key(i), b, i) in end.ran && Task(key(i), b, i).item == i;
    }
    if forall i :: 0 <= i < |items| ==> Queue(end, key(i)) == [] {
      forall i | 0 <= i < |items| ensures i in late {
        assert Tasks(key, b, |items|)[i] == Task(key(i), b, i);
        DrainedHasRun(p, moves, Task(key(i), b, i));
      }
    }
  }
}
