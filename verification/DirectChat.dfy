/** The receive side of a direct conversation: one cursor fed by the direct, relay, sync, server and
    offline-store paths, and catching up from the peer's outgoing log in bounded rounds of
    text and file lists that are merged again. */
module DirectChat {
  import opened Basics

  const BATCH_SIZE := 256
  const MAX_ROUNDS := 64
  const MAX_FRAME := 16 * 0x10_0000

  /** A text or file message on the wire. */
  datatype Wire = Wire(counter: U64, file: bool, id: string)

  /** The session's cursor and the messages committed under it, in commit order. */
  datatype Inbox = Inbox(recv: Column, stored: seq<Wire>)

  /** Which statements of the transaction that stores a message succeed: the message row, the
      conversation's preview, the cursor (its session row may be gone), the commit. */
  datatype Statements = Statements(inserted: bool, previewed: bool, sessionFound: bool, committed: bool)

  predicate AllSucceed(t: Statements) {
    t.inserted && t.previewed && t.sessionFound && t.committed
  }

  /** What the parts outside the counter protocol do with a message: whether it is dropped unseen (a
      blocked contact, a stream of another peer), whether it decrypts, how its transaction goes, and
      whether its delivery acknowledgement goes out. */
  datatype Fate = Fate(dropped: bool, opens: bool, tx: Statements, acked: bool)

  /** How handling ends: fine, with an error, or at the point where a gap starts a sync. */
  datatype Outcome = Done | Failed | NeedsSync

  /** The counter and the cursor after it both fit their columns. */
  predicate Storable(counter: U64) {
    counter + 1 < TWO63
  }

  /** `checkIncomingDirectCounter` up to a sync, then decryption and the transaction that stores
      the message and sets the cursor. `offline` lets a message skip a gap. */
  function Arrive(s: Inbox, m: Wire, offline: bool, fate: Fate): (Inbox, Outcome) {
    if fate.dropped then (s, Done)
    else if m.counter < s.recv then (s, if offline || fate.acked then Done else Failed)
    else if m.counter > s.recv && !offline then (s, NeedsSync)
    else if !fate.opens || !AllSucceed(fate.tx) || !Storable(m.counter) then (s, Failed)
    else (Inbox(m.counter + 1, s.stored + [m]), if offline || fate.acked then Done else Failed)
  }

  // ----- every path, interleaved -----

  datatype Event =
    | Message(m: Wire, offline: bool, fate: Fate)
    | ServerMessage(id: string, known: bool, tx: Statements)
    | EmptySync(remoteSend: U64)

  function Step(s: Inbox, e: Event): Inbox {
    match e
    case Message(m, offline, fate) => Arrive(s, m, offline, fate).0
    case ServerMessage(id, known, tx) =>
      if known || !AllSucceed(tx) || !Storable(s.recv) then s
      else Inbox(s.recv + 1, s.stored + [Wire(s.recv, false, id)])
    case EmptySync(remoteSend) => if s.recv < remoteSend < TWO63 then s.(recv := remoteSend) else s
  }

  function Last(s: Inbox): Wire
    requires s.stored != []
  {
    s.stored[|s.stored| - 1]
  }

  /** Counters committed so far are strictly increasing and below the cursor. */
  ghost predicate Ordered(s: Inbox) {
    && (forall i :: 0 <= i < |s.stored| ==> s.stored[i].counter < s.recv)
    && (forall i, j :: 0 <= i < j < |s.stored| ==> s.stored[i].counter < s.stored[j].counter)
  }

  /** The cursor does not go back, at most one message is committed after those before it, and
      unless it comes from the offline store its counter is the cursor. */
  ghost predicate GoodStep(s: Inbox, e: Event) {
    var s' := Step(s, e);
    && s.recv <= s'.recv
    && s.stored <= s'.stored && |s'.stored| <= |s.stored| + 1
    && (|s'.stored| > |s.stored| && !(e.Message? && e.offline) ==> Last(s').counter == s.recv)
  }

  lemma StepKeepsOrder(s: Inbox, e: Event)
    requires Ordered(s)
    ensures Ordered(Step(s, e)) && GoodStep(s, e)
  {
  }

  function After(s: Inbox, events: seq<Event>, n: nat): Inbox
    requires n <= |events|
  {
    if n == 0 then s else Step(After(s, events, n - 1), events[n - 1])
  }

  /** Over any interleaving of all paths, within one incarnation of the session and whatever counters
      are offered: the committed counters are strictly increasing, the cursor never decreases, and a
      message that does not come from the offline store is committed only at the cursor. */
  lemma {:induction false} CrossPathOrder(recv: Column, events: seq<Event>, n: nat)
    requires n <= |events|
    ensures Ordered(After(Inbox(recv, []), events, n))
    ensures n < |events| ==> GoodStep(After(Inbox(recv, []), events, n), events[n])
  {
    if n > 0 {
      CrossPathOrder(recv, events, n - 1);
      StepKeepsOrder(After(Inbox(recv, []), events, n - 1), events[n - 1]);
    }
    if n < |events| {
      StepKeepsOrder(After(Inbox(recv, []), events, n), events[n]);
    }
  }

  /** The event moves the cursor over counters it does not commit. It can be told before the event. */
  predicate Skips(s: Inbox, e: Event) {
    match e
    case Message(m, offline, fate) =>
      && offline && m.counter > s.recv && !fate.dropped && fate.opens && AllSucceed(fate.tx) && Storable(m.counter)
    case ServerMessage(_, _, _) => false
    case EmptySync(remoteSend) => s.recv < remoteSend < TWO63
  }

  /** The committed counters are exactly `start .. recv - 1`. */
  ghost predicate Complete(s: Inbox, start: int) {
    |s.stored| == s.recv - start && forall i :: 0 <= i < |s.stored| ==> s.stored[i].counter == start + i
  }

  /** How many counters below the cursor were never committed. */
  function Missed(s: Inbox, start: int): int {
    s.recv - start - |s.stored|
  }

  lemma StepMisses(s: Inbox, e: Event, start: int)
    ensures Missed(s, start) <= Missed(Step(s, e), start)
    ensures Missed(s, start) < Missed(Step(s, e), start) <==> Skips(s, e)
    ensures Complete(s, start) && !Skips(s, e) ==> Complete(Step(s, e), start)
  {
  }

  /** Over every interleaving the committed counters are exactly those from the start to the cursor if
      and only if no event so far skipped any; a skipped counter is a duplicate ever after. */
  lemma {:induction false} NothingMissedIff(recv: Column, events: seq<Event>, n: nat)
    requires n <= |events|
    ensures Missed(After(Inbox(recv, []), events, n), recv) >= 0
    ensures Complete(After(Inbox(recv, []), events, n), recv)
            <==> forall i :: 0 <= i < n ==> !SkipsAt(recv, events, i)
    ensures Complete(After(Inbox(recv, []), events, n), recv) <==> Missed(After(Inbox(recv, []), events, n), recv) == 0
  {
    if n > 0 {
      NothingMissedIff(recv, events, n - 1);
      StepMisses(After(Inbox(recv, []), events, n - 1), events[n - 1], recv);
      assert SkipsAt(recv, events, n - 1) <==> Skips(After(Inbox(recv, []), events, n - 1), events[n - 1]);
    }
  }

  ghost predicate SkipsAt(recv: Column, events: seq<Event>, i: nat)
    requires i < |events|
  {
    Skips(After(Inbox(recv, []), events, i), events[i])
  }

  /** What keeps the cursor from wrapping: of the messages the offline path lets through, exactly
      those are refused whose counter or successor does not fit its column, and nothing changes. */
  lemma LargeCountersRefused(s: Inbox, m: Wire, fate: Fate)
    requires s.recv <= m.counter && !fate.dropped && fate.opens && AllSucceed(fate.tx)
    ensures Arrive(s, m, true, fate)
            == if m.counter < TWO63 - 1 then (Inbox(m.counter + 1, s.stored + [m]), Done) else (s, Failed)
  {
  }

  // ----- the responder -----

  /** The peer: whether it has the conversation, its outgoing rows in counter order, its send counter,
      and the encoded size of a response with given text and file lists. */
  datatype Peer = Peer(knows: bool, log: seq<Wire>, send: Column, size: (seq<Wire>, seq<Wire>) -> nat)

  datatype Response = Response(texts: seq<Wire>, files: seq<Wire>, remoteSend: U64)

  /** The rows from a counter on. */
  function From(log: seq<Wire>, next: int): seq<Wire> {
    if log == [] then []
    else if log[0].counter >= next then [log[0]] + From(log[1..], next)
    else From(log[1..], next)
  }

  function Batch(items: seq<Wire>): seq<Wire> {
    if |items| <= BATCH_SIZE then items else items[..BATCH_SIZE]
  }

  function Texts(items: seq<Wire>): seq<Wire> {
    if items == [] then []
    else if items[|items| - 1].file then Texts(items[..|items| - 1])
    else Texts(items[..|items| - 1]) + [items[|items| - 1]]
  }

  function Files(items: seq<Wire>): seq<Wire> {
    if items == [] then []
    else if items[|items| - 1].file then Files(items[..|items| - 1]) + [items[|items| - 1]]
    else Files(items[..|items| - 1])
  }

  predicate Fits(peer: Peer, items: seq<Wire>) {
    peer.size(Texts(items), Files(items)) <= MAX_FRAME
  }

  /** How many items from `k` on go into the response before one no longer fits. */
  function FitFrom(peer: Peer, items: seq<Wire>, k: nat): (n: nat)
    requires k <= |items|
    ensures k <= n <= |items|
    decreases |items| - k
  {
    if k < |items| && Fits(peer, items[..k + 1]) then FitFrom(peer, items, k + 1) else k
  }

  /** The answer to a sync request: as much of the batch as fits a frame, split by kind; an error
      when not even its first item fits or the counter cannot be looked up; empty for an unknown
      conversation. */
  function Respond(peer: Peer, next: U64): Result<Response> {
    if !peer.knows then Ok(Response([], [], 0))
    else if next >= TWO63 then Err
    else
      var items := Batch(From(peer.log, next));
      var n := FitFrom(peer, items, 0);
      if items != [] && n == 0 then Err
      else Ok(Response(Texts(items[..n]), Files(items[..n]), peer.send))
  }

  /** A response holds the longest prefix of the batch that fits a frame of 16 MiB: every part of it fits, and the next
      item of the batch would not. */
  lemma ResponseIsLongest(peer: Peer, next: U64, k: nat)
    requires peer.knows && next < TWO63 && k <= |Batch(From(peer.log, next))|
    ensures var items := Batch(From(peer.log, next));
            var n := FitFrom(peer, items, 0);
            && items == From(peer.log, next)[..|items|] && |items| <= 256
            && (|items| < 256 ==> items == From(peer.log, next))
            && (0 < k <= n ==> peer.size(Texts(items[..k]), Files(items[..k])) <= 16_777_216)
            && (n < |items| ==> peer.size(Texts(items[..n + 1]), Files(items[..n + 1])) > 16_777_216)
            && (Respond(peer, next).Err? <==> n == 0 && items != [])
            && (Respond(peer, next).Ok? ==>
                Respond(peer, next).value == Response(Texts(items[..n]), Files(items[..n]), peer.send))
  {
    var items := Batch(From(peer.log, next));
    FitFromIs(peer, items, 0, k);
  }

  lemma {:induction false} FitFromIs(peer: Peer, items: seq<Wire>, j: nat, k: nat)
    requires j <= |items| && k <= |items|
    ensures var n := FitFrom(peer, items, j);
            && (j < k <= n ==> Fits(peer, items[..k]))
            && (n < |items| ==> !Fits(peer, items[..n + 1]))
    decreases |items| - j
  {
    if j < |items| && Fits(peer, items[..j + 1]) {
      FitFromIs(peer, items, j + 1, k);
    }
  }

  /** The rows from a counter on: in the order of the log, exactly those that are not below it. */
  lemma {:induction false} FromIs(log: seq<Wire>, next: int, m: Wire)
    ensures m in From(log, next) <==> m in log && m.counter >= next
    ensures |From(log, next)| <= |log|
  {
    if log != [] {
      FromIs(log[1..], next, m);
      assert log == [log[0]] + log[1..];
    }
  }

  lemma SplitSnoc(items: seq<Wire>, i: nat)
    requires i < |items|
    ensures Texts(items[..i + 1]) == if items[i].file then Texts(items[..i]) else Texts(items[..i]) + [items[i]]
    ensures Files(items[..i + 1]) == if items[i].file then Files(items[..i]) + [items[i]] else Files(items[..i])
  {
    assert items[..i + 1][..i] == items[..i];
  }

  /** `handleChatSyncRequest`. */
  method HandleSyncRequest(peer: Peer, next: U64) returns (r: Result<Response>)
    ensures r == Respond(peer, next)
  {
    if !peer.knows {
      return Ok(Response([], [], 0));
    }
    if next >= TWO63 {
      return Err;
    }
    var items := Batch(From(peer.log, next));
    var texts: seq<Wire>, files: seq<Wire> := [], [];
    var i := 0;
    while i < |items|
      invariant 0 <= i <= |items|
      invariant texts == Texts(items[..i]) && files == Files(items[..i])
      invariant FitFrom(peer, items, 0) == FitFrom(peer, items, i)
      invariant i > 0 ==> texts != [] || files != []
    {
      SplitSnoc(items, i);
      ghost var textsBefore, filesBefore := texts, files;
      if items[i].file {
        files := files + [items[i]];
      } else {
        texts := texts + [items[i]];
      }
      assert texts == Texts(items[..i + 1]) && files == Files(items[..i + 1]);
      if peer.size(texts, files) > MAX_FRAME {
        if items[i].file {
          files := files[..|files| - 1];
        } else {
          texts := texts[..|texts| - 1];
        }
        assert texts == textsBefore && files == filesBefore;
        if texts == [] && files == [] {
          return Err;
        }
        break;
      }
      i := i + 1;
    }
    assert FitFrom(peer, items, 0) == i;
    r := Ok(Response(texts, files, peer.send));
  }

  // ----- the requester -----

  /** The order in which the two lists are handled. */
  function Merge(texts: seq<Wire>, files: seq<Wire>): seq<Wire>
    decreases |texts| + |files|
  {
    if texts == [] then files
    else if files == [] then texts
    else if texts[0].counter <= files[0].counter then [texts[0]] + Merge(texts[1..], files)
    else [files[0]] + Merge(texts, files[1..])
  }

  /** Messages handled in order as direct arrivals, up to the first that does not end well. */
  function ArriveAll(s: Inbox, ms: seq<Wire>, fates: Wire -> Fate): (Inbox, Outcome)
    decreases ms
  {
    if ms == [] then (s, Done)
    else
      var (s1, o) := Arrive(s, ms[0], false, fates(ms[0]));
      if o != Done then (s1, o) else ArriveAll(s1, ms[1..], fates)
  }

  /** `applyChatSyncResponse`. */
  function Applied(s: Inbox, resp: Response, fates: Wire -> Fate): (Inbox, Outcome) {
    if resp.texts == [] && resp.files == [] && resp.remoteSend > s.recv then
      if resp.remoteSend < TWO63 then (s.(recv := resp.remoteSend), Done) else (s, Failed)
    else ArriveAll(s, Merge(resp.texts, resp.files), fates)
  }

  datatype RoundEnd = Finished(ok: bool) | Continue

  /** What a request from each counter on gets: an answer, or an error. */
  type Answering = U64 -> Result<Response>

  /** The answers of an honest peer. */
  function Answers(peer: Peer): Answering {
    (next: U64) => Respond(peer, next)
  }

  /** One round: request, apply, compare the cursor with the peer's send counter. */
  function AfterRound(s: Inbox, ask: Answering, fates: Wire -> Fate, next: U64): (Inbox, RoundEnd) {
    match ask(next)
    case Err => (s, Finished(false))
    case Ok(resp) =>
      var (s1, o) := Applied(s, resp, fates);
      (s1, if o != Done then Finished(false)
           else if s1.recv >= resp.remoteSend then Finished(true)
           else if s1.recv <= next then Finished(false)
           else Continue)
  }

  /** `syncConversationFromCounter` with the given number of rounds left. */
  function Synced(s: Inbox, ask: Answering, fates: Wire -> Fate, next: U64, rounds: nat): (Inbox, bool)
    decreases rounds
  {
    if rounds == 0 then (s, false)
    else
      var (s1, end) := AfterRound(s, ask, fates, next);
      if end.Finished? then (s1, end.ok) else Synced(s1, ask, fates, s1.recv, rounds - 1)
  }

  // ----- a sync is a run of events -----

  /** Events of the direct and sync paths: messages that do not come from the offline store, and empty
      sync responses. */
  predicate Live(events: seq<Event>) {
    forall i :: 0 <= i < |events| ==> events[i].EmptySync? || (events[i].Message? && !events[i].offline)
  }

  /** Live events lead from `s` to `s'`. */
  ghost predicate Reaches(s: Inbox, s': Inbox) {
    exists events :: Live(events) && After(s, events, |events|) == s'
  }

  lemma {:induction false} AfterAppend(s: Inbox, first: seq<Event>, second: seq<Event>, n: nat)
    requires n <= |second|
    ensures After(s, first + second, |first| + n) == After(After(s, first, |first|), second, n)
  {
    if n == 0 {
      AfterPrefix(s, first, second, |first|);
    } else {
      AfterAppend(s, first, second, n - 1);
    }
  }

  lemma {:induction false} AfterPrefix(s: Inbox, first: seq<Event>, second: seq<Event>, n: nat)
    requires n <= |first|
    ensures After(s, first + second, n) == After(s, first, n)
  {
    if n > 0 {
      AfterPrefix(s, first, second, n - 1);
    }
  }

  lemma ReachesSelf(s: Inbox)
    ensures Reaches(s, s)
  {
    assert Live([]) && After(s, [], 0) == s;
  }

  lemma ReachesNext(s: Inbox, e: Event)
    requires Live([e])
    ensures Reaches(s, Step(s, e))
  {
    assert After(s, [e], 1) == Step(After(s, [e], 0), e);
  }

  lemma ReachesTrans(s: Inbox, s1: Inbox, s2: Inbox)
    requires Reaches(s, s1) && Reaches(s1, s2)
    ensures Reaches(s, s2)
  {
    var first :| Live(first) && After(s, first, |first|) == s1;
    var second :| Live(second) && After(s1, second, |second|) == s2;
    AfterAppend(s, first, second, |second|);
    assert Live(first + second);
  }

  /** What live events keep: the order, the cursor, which never goes back, and what is committed; only
      empty responses skip counters. */
  lemma ReachesKeeps(s: Inbox, s': Inbox)
    requires Reaches(s, s')
    ensures s.recv <= s'.recv && s.stored <= s'.stored && (Ordered(s) ==> Ordered(s'))
    ensures forall start :: Missed(s, start) <= Missed(s', start)
  {
    var events :| Live(events) && After(s, events, |events|) == s';
    AfterKeeps(s, events, |events|);
  }

  lemma {:induction false} AfterKeeps(s: Inbox, events: seq<Event>, n: nat)
    requires n <= |events|
    ensures var s' := After(s, events, n);
            && s.recv <= s'.recv && s.stored <= s'.stored && (Ordered(s) ==> Ordered(s'))
            && |s'.stored| - |s.stored| <= s'.recv - s.recv
  {
    if n > 0 {
      AfterKeeps(s, events, n - 1);
      StepMisses(After(s, events, n - 1), events[n - 1], 0);
      StepGrows(After(s, events, n - 1), events[n - 1]);
      if Ordered(s) {
        StepKeepsOrder(After(s, events, n - 1), events[n - 1]);
      }
    }
  }

  lemma StepGrows(s: Inbox, e: Event)
    ensures s.recv <= Step(s, e).recv && s.stored <= Step(s, e).stored
  {
  }

  lemma {:induction false} ArriveAllReaches(s: Inbox, ms: seq<Wire>, fates: Wire -> Fate)
    ensures Reaches(s, ArriveAll(s, ms, fates).0)
    decreases ms
  {
    ReachesSelf(s);
    if ms != [] {
      var e := Message(ms[0], false, fates(ms[0]));
      ReachesNext(s, e);
      if Arrive(s, ms[0], false, fates(ms[0])).1 == Done {
        ArriveAllReaches(Step(s, e), ms[1..], fates);
        ReachesTrans(s, Step(s, e), ArriveAll(s, ms, fates).0);
      }
    }
  }

  /** Whatever is answered and whatever becomes of the messages, applying a response is a run of events. */
  lemma AppliedReaches(s: Inbox, resp: Response, fates: Wire -> Fate)
    ensures Reaches(s, Applied(s, resp, fates).0)
  {
    ReachesSelf(s);
    ReachesNext(s, EmptySync(resp.remoteSend));
    ArriveAllReaches(s, Merge(resp.texts, resp.files), fates);
  }

  /** An empty response that is ahead moves the cursor to the peer's counter if that fits its column, and
      is an error otherwise; one that is not ahead changes nothing. Nothing is committed. */
  lemma EmptyResponse(s: Inbox, remoteSend: U64, fates: Wire -> Fate)
    ensures Applied(s, Response([], [], remoteSend), fates)
            == if remoteSend < TWO63 then (Inbox(Larger(s.recv, remoteSend), s.stored), Done) else (s, Failed)
  {
  }

  function Larger(a: int, b: int): int { if a < b then b else a }

  /** Against any responder at all, a sync with any number of rounds is a run of events: so it keeps the
      order, never takes the cursor back and never drops what is committed. */
  lemma {:induction false} SyncedReaches(s: Inbox, ask: Answering, fates: Wire -> Fate, next: U64, rounds: nat)
    ensures Reaches(s, Synced(s, ask, fates, next, rounds).0)
    decreases rounds
  {
    ReachesSelf(s);
    if rounds > 0 {
      if ask(next).Ok? {
        AppliedReaches(s, ask(next).value, fates);
      }
      var (s1, end) := AfterRound(s, ask, fates, next);
      if end == Continue {
        SyncedReaches(s1, ask, fates, s1.recv, rounds - 1);
        ReachesTrans(s, s1, Synced(s, ask, fates, next, rounds).0);
      }
    }
  }

  /** A round whose answer leaves the cursor behind the peer's counter ends the sync without success if it did not move
      the cursor past where the round began; otherwise the next round asks from the new cursor on. A round that cannot
      be answered or applied ends it too. */
  lemma GoesOnOrStops(s: Inbox, ask: Answering, fates: Wire -> Fate, next: U64, rounds: nat)
    requires rounds > 0
    ensures ask(next).Err? ==> Synced(s, ask, fates, next, rounds) == (s, false)
    ensures ask(next).Ok? ==>
              var (s1, o) := Applied(s, ask(next).value, fates);
              && (o != Done ==> Synced(s, ask, fates, next, rounds) == (s1, false))
              && (o == Done && s1.recv >= ask(next).value.remoteSend ==>
                  Synced(s, ask, fates, next, rounds) == (s1, true))
              && (o == Done && s1.recv < ask(next).value.remoteSend && s1.recv <= next ==>
                  Synced(s, ask, fates, next, rounds) == (s1, false))
              && (o == Done && next < s1.recv < ask(next).value.remoteSend ==>
                  Synced(s, ask, fates, next, rounds) == Synced(s1, ask, fates, s1.recv, rounds - 1))
  {
  }

  /** And if it reports success, the cursor has reached the counter of some answer. */
  lemma {:induction false} SyncedMeansReached(s: Inbox, ask: Answering, fates: Wire -> Fate, next: U64, rounds: nat)
    requires Synced(s, ask, fates, next, rounds).1
    ensures exists n: U64 :: ask(n).Ok? && ask(n).value.remoteSend <= Synced(s, ask, fates, next, rounds).0.recv
    decreases rounds
  {
    var (s1, end) := AfterRound(s, ask, fates, next);
    if end == Continue {
      SyncedMeansReached(s1, ask, fates, s1.recv, rounds - 1);
    }
  }

  class Session {
    var recv: Column
    var stored: seq<Wire>
    var unread: nat

    ghost function Contents(): Inbox
      reads this
    {
      Inbox(recv, stored)
    }

    constructor (recv: Column)
      ensures Contents() == Inbox(recv, []) && unread == 0
    {
      this.recv, stored, unread := recv, [], 0;
    }

    /** The store's transaction, statement by statement; whichever fails, what the earlier ones wrote
        is rolled back. Committing the next counter, or any later one, keeps the order. */
    method AddInboundAndAdvance(m: Wire, newRecv: U64, increment: bool, tx: Statements) returns (ok: bool)
      modifies this
      ensures ok <==> AllSucceed(tx) && m.counter < TWO63 && newRecv < TWO63
      ensures !ok ==> Contents() == old(Contents()) && unread == old(unread)
      ensures ok ==>
              stored == old(stored) + [m] && recv == newRecv && unread == old(unread) + if increment then 1 else 0
      ensures old(Ordered(Contents())) && old(recv) <= m.counter && newRecv == m.counter + 1 ==> Ordered(Contents())
    {
      var storedBefore, unreadBefore, recvBefore := stored, unread, recv;
      if m.counter >= TWO63 || !tx.inserted {
        return false;
      }
      stored := stored + [m];
      if !tx.previewed {
        stored := storedBefore;
        return false;
      }
      if increment {
        unread := unread + 1;
      }
      if newRecv >= TWO63 || !tx.sessionFound {
        stored, unread := storedBefore, unreadBefore;
        return false;
      }
      recv := newRecv;
      if !tx.committed {
        stored, unread, recv := storedBefore, unreadBefore, recvBefore;
        return false;
      }
      return true;
    }

    method HandleIncoming(m: Wire, offline: bool, increment: bool, fate: Fate) returns (o: Outcome)
      modifies this
      ensures (Contents(), o) == Arrive(old(Contents()), m, offline, fate)
      ensures unread == old(unread) + if increment && stored != old(stored) then 1 else 0
      ensures var commits := && !fate.dropped && (m.counter == old(recv) || (offline && m.counter > old(recv)))
                             && fate.opens && AllSucceed(fate.tx) && m.counter + 1 < TWO63;
              && Contents() == (if commits then Inbox(m.counter + 1, old(stored) + [m]) else old(Contents()))
              && (o == NeedsSync <==> !fate.dropped && !offline && m.counter > old(recv))
              && (o == Done <==> fate.dropped || ((commits || m.counter < old(recv)) && (offline || fate.acked)))
    {
      if fate.dropped {
        return Done;
      }
      if m.counter < recv {
        return if offline || fate.acked then Done else Failed;
      }
      if m.counter > recv && !offline {
        return NeedsSync;
      }
      if !fate.opens {
        return Failed;
      }
      var ok := AddInboundAndAdvance(m, Increment(m.counter), increment, fate.tx);
      o := if ok && (offline || fate.acked) then Done else Failed;
    }

    method ApplyServerMessage(id: string, known: bool, tx: Statements)
      modifies this
      ensures Contents() == Step(old(Contents()), ServerMessage(id, known, tx))
      ensures Contents() == if !known && AllSucceed(tx) && old(recv) + 1 < TWO63
                            then Inbox(old(recv) + 1, old(stored) + [Wire(old(recv), false, id)]) else old(Contents())
      ensures unread == old(unread) + if stored != old(stored) then 1 else 0
    {
      if known {
        return;
      }
      var _ := AddInboundAndAdvance(Wire(recv, false, id), Increment(recv), true, tx);
    }

    method ApplySyncResponse(resp: Response, fates: Wire -> Fate) returns (o: Outcome)
      modifies this
      ensures (Contents(), o) == Applied(old(Contents()), resp, fates) && unread == old(unread)
      ensures old(recv) <= recv && old(stored) <= stored && (old(Ordered(Contents())) ==> Ordered(Contents()))
      ensures resp.texts == [] && resp.files == [] ==>
                && stored == old(stored)
                && recv == if resp.remoteSend < TWO63 then Larger(old(recv), resp.remoteSend) else old(recv)
    {
      AppliedReaches(Contents(), resp, fates);
      ReachesKeeps(Contents(), Applied(Contents(), resp, fates).0);
      if resp.texts == [] && resp.files == [] && resp.remoteSend > recv {
        if resp.remoteSend >= TWO63 {
          return Failed;
        }
        recv := resp.remoteSend;
        return Done;
      }
      o := HandleBoth(resp, fates);
    }

    /** The messages of both lists by counter, up to the first that does not end well. */
    method HandleBoth(resp: Response, fates: Wire -> Fate) returns (o: Outcome)
      modifies this
      ensures (Contents(), o) == ArriveAll(old(Contents()), Merge(resp.texts, resp.files), fates)
      ensures unread == old(unread)
    {
      var t, f := 0, 0;
      while t < |resp.texts| || f < |resp.files|
        invariant 0 <= t <= |resp.texts| && 0 <= f <= |resp.files| && unread == old(unread)
        invariant ArriveAll(old(Contents()), Merge(resp.texts, resp.files), fates)
                  == ArriveAll(Contents(), Merge(resp.texts[t..], resp.files[f..]), fates)
        decreases |resp.texts| - t + |resp.files| - f
      {
        var useText := f >= |resp.files|;
        if t < |resp.texts| && f < |resp.files| {
          useText := resp.texts[t].counter <= resp.files[f].counter;
        }
        MergeStep(resp.texts[t..], resp.files[f..]);
        var m := if useText then resp.texts[t] else resp.files[f];
        o := HandleIncoming(m, false, false, fates(m));
        if o != Done {
          return;
        }
        if useText {
          t := t + 1;
        } else {
          f := f + 1;
        }
      }
      o := Done;
    }

    method SyncFromCounter(ask: Answering, fates: Wire -> Fate, start: U64) returns (ok: bool)
      modifies this
      ensures (Contents(), ok) == Synced(old(Contents()), ask, fates, start, MAX_ROUNDS) && unread == old(unread)
      ensures old(recv) <= recv && old(stored) <= stored && (old(Ordered(Contents())) ==> Ordered(Contents()))
    {
      SyncedReaches(Contents(), ask, fates, start, MAX_ROUNDS);
      ReachesKeeps(Contents(), Synced(Contents(), ask, fates, start, MAX_ROUNDS).0);
      ok := SyncRounds(ask, fates, start, MAX_ROUNDS);
    }

    method SyncRounds(ask: Answering, fates: Wire -> Fate, start: U64, rounds: nat) returns (ok: bool)
      modifies this
      ensures (Contents(), ok) == Synced(old(Contents()), ask, fates, start, rounds) && unread == old(unread)
    {
      var next: U64, left: nat := start, rounds;
      ghost var goal := Synced(Contents(), ask, fates, start, rounds);
      while left > 0
        invariant goal == Synced(Contents(), ask, fates, next, left) && unread == old(unread)
      {
        var end := DoRound(ask, fates, next);
        left := left - 1;
        if end.Finished? {
          return end.ok;
        }
        next := recv;
      }
      ok := false;
    }

    method DoRound(ask: Answering, fates: Wire -> Fate, next: U64) returns (end: RoundEnd)
      modifies this
      ensures (Contents(), end) == AfterRound(old(Contents()), ask, fates, next) && unread == old(unread)
    {
      var resp := ask(next);
      if resp.Err? {
        return Finished(false);
      }
      var o := ApplySyncResponse(resp.value, fates);
      if o != Done {
        return Finished(false);
      }
      if recv >= resp.value.remoteSend {
        return Finished(true);
      }
      end := if recv <= next then Finished(false) else Continue;
    }
  }

  lemma MergeStep(texts: seq<Wire>, files: seq<Wire>)
    requires texts != [] || files != []
    ensures Merge(texts, files) ==
              if files == [] || (texts != [] && texts[0].counter <= files[0].counter)
              then [texts[0]] + Merge(texts[1..], files)
              else [files[0]] + Merge(texts, files[1..])
  {
  }

  // ----- catching up -----

  /** Counters `c`, `c + 1`, and so on. */
  ghost predicate Consecutive(items: seq<Wire>, c: int) {
    forall i :: 0 <= i < |items| ==> items[i].counter == c + i
  }

  /** The peer's log from counter `recv` on is exactly `[recv, send)`. */
  ghost predicate NoHoles(peer: Peer, recv: Column) {
    && peer.knows && recv <= peer.send && |From(peer.log, recv)| == peer.send - recv
    && Consecutive(From(peer.log, recv), recv)
  }

  predicate Fine(f: Fate) {
    !f.dropped && f.opens && AllSucceed(f.tx) && f.acked
  }

  ghost predicate AllFine(items: seq<Wire>, fates: Wire -> Fate) {
    forall i :: 0 <= i < |items| ==> Fine(fates(items[i]))
  }

  lemma {:induction false} SplitCons(items: seq<Wire>)
    requires items != []
    ensures Texts(items) == if items[0].file then Texts(items[1..]) else [items[0]] + Texts(items[1..])
    ensures Files(items) == if items[0].file then [items[0]] + Files(items[1..]) else Files(items[1..])
  {
    if |items| > 1 {
      SplitCons(items[..|items| - 1]);
      assert items[..|items| - 1][1..] == items[1..][..|items| - 2];
    }
  }

  lemma {:induction false} SplitAbove(items: seq<Wire>, b: int)
    requires forall i :: 0 <= i < |items| ==> items[i].counter >= b
    ensures Texts(items) != [] ==> Texts(items)[0].counter >= b
    ensures Files(items) != [] ==> Files(items)[0].counter >= b
  {
    if items != [] {
      SplitAbove(items[1..], b);
      SplitCons(items);
    }
  }

  lemma MergeSplitCons(items: seq<Wire>)
    requires items != [] && forall i :: 1 <= i < |items| ==> items[i].counter > items[0].counter
    ensures Merge(Texts(items), Files(items)) == [items[0]] + Merge(Texts(items[1..]), Files(items[1..]))
  {
    SplitCons(items);
    SplitAbove(items[1..], items[0].counter + 1);
    MergeHead(items[0], Texts(items[1..]), Files(items[1..]));
  }

  /** Splitting by kind loses the order of the items; merging by counter restores it. */
  lemma {:induction false} MergeRestoresOrder(items: seq<Wire>, c: int)
    requires Consecutive(items, c)
    ensures Merge(Texts(items), Files(items)) == items
  {
    if items != [] {
      assert Consecutive(items[1..], c + 1);
      MergeRestoresOrder(items[1..], c + 1);
      MergeSplitCons(items);
    }
  }

  /** A message below both lists comes out first, whichever list it heads. */
  lemma MergeHead(m: Wire, texts: seq<Wire>, files: seq<Wire>)
    requires texts != [] ==> m.counter < texts[0].counter
    requires files != [] ==> m.counter < files[0].counter
    ensures Merge([m] + texts, files) == [m] + Merge(texts, files) == Merge(texts, [m] + files)
  {
  }

  /** Consecutive messages from the cursor on are all committed, and none starts a nested sync. */
  lemma {:induction false} ArriveConsecutive(s: Inbox, items: seq<Wire>, fates: Wire -> Fate)
    requires Consecutive(items, s.recv) && AllFine(items, fates) && s.recv + |items| < TWO63
    ensures ArriveAll(s, items, fates) == (Inbox(s.recv + |items|, s.stored + items), Done)
    decreases items
  {
    if items != [] {
      var s1 := Inbox(s.recv + 1, s.stored + [items[0]]);
      assert items[0].counter == s.recv;
      assert Arrive(s, items[0], false, fates(items[0])) == (s1, Done);
      ArriveConsecutive(s1, items[1..], fates);
      assert s1.stored + items[1..] == s.stored + items;
    } else {
      assert s.stored + items == s.stored;
    }
  }

  lemma {:induction false} FromLater(log: seq<Wire>, a: int, b: int)
    requires a <= b
    ensures From(From(log, a), b) == From(log, b)
  {
    if log != [] {
      FromLater(log[1..], a, b);
      if log[0].counter >= a {
        assert From(log, a)[1..] == From(log[1..], a);
      }
    }
  }

  lemma {:induction false} FromConsecutive(items: seq<Wire>, c: int, k: nat)
    requires Consecutive(items, c) && k <= |items|
    ensures From(items, c + k) == items[k..]
  {
    if items != [] {
      if k == 0 {
        assert Consecutive(items[1..], c + 1);
        FromAll(items, c);
      } else {
        FromConsecutive(items[1..], c + 1, k - 1);
        assert c + 1 + (k - 1) == c + k;
        assert items[1..][k - 1..] == items[k..];
      }
    }
  }

  lemma {:induction false} FromAll(items: seq<Wire>, c: int)
    requires forall i :: 0 <= i < |items| ==> items[i].counter >= c
    ensures From(items, c) == items
  {
    if items != [] {
      FromAll(items[1..], c);
    }
  }

  /** After `k` more messages the peer's log still has no holes. */
  lemma HolesNeverOpen(peer: Peer, recv: Column, k: nat)
    requires NoHoles(peer, recv) && k <= |From(peer.log, recv)|
    ensures NoHoles(peer, recv + k) && From(peer.log, recv + k) == From(peer.log, recv)[k..]
  {
    FromLater(peer.log, recv, recv + k);
    FromConsecutive(From(peer.log, recv), recv, k);
  }

  /** The next round's share of what is missing. */
  function Share(peer: Peer, recv: U64): (n: nat)
    ensures n <= |From(peer.log, recv)| && n <= BATCH_SIZE
  {
    FitFrom(peer, Batch(From(peer.log, recv)), 0)
  }

  /** Each response is a counter-ordered prefix of what is missing, empty only if nothing is missing;
      the merge restores its order and handling it starts no nested sync. */
  lemma ResponseIsPrefix(s: Inbox, peer: Peer, fates: Wire -> Fate)
    requires NoHoles(peer, s.recv) && AllFine(From(peer.log, s.recv), fates)
    ensures Respond(peer, s.recv).Err? <==> s.recv < peer.send && Share(peer, s.recv) == 0
    ensures Respond(peer, s.recv).Ok? ==>
              var resp, n := Respond(peer, s.recv).value, Share(peer, s.recv);
              && resp.remoteSend == peer.send
              && Merge(resp.texts, resp.files) == From(peer.log, s.recv)[..n]
              && Applied(s, resp, fates) == (Inbox(s.recv + n, s.stored + From(peer.log, s.recv)[..n]), Done)
  {
    RespondIs(peer, s.recv);
    var missing, n := From(peer.log, s.recv), Share(peer, s.recv);
    if missing == [] || n > 0 {
      assert AllFine(missing[..n], fates);
      PrefixApplied(s, missing[..n], peer.send, fates);
    }
  }

  lemma RespondIs(peer: Peer, recv: Column)
    requires peer.knows
    ensures var missing, n := From(peer.log, recv), Share(peer, recv);
            Respond(peer, recv) == if missing != [] && n == 0 then Err
                                   else Ok(Response(Texts(missing[..n]), Files(missing[..n]), peer.send))
  {
    var missing, n := From(peer.log, recv), Share(peer, recv);
    assert Batch(missing)[..n] == missing[..n];
  }

  lemma PrefixApplied(s: Inbox, part: seq<Wire>, send: Column, fates: Wire -> Fate)
    requires Consecutive(part, s.recv) && AllFine(part, fates) && s.recv + |part| <= send
    requires part == [] ==> s.recv == send
    ensures Merge(Texts(part), Files(part)) == part
    ensures Applied(s, Response(Texts(part), Files(part), send), fates)
            == (Inbox(s.recv + |part|, s.stored + part), Done)
  {
    MergeRestoresOrder(part, s.recv);
    ArriveConsecutive(s, part, fates);
    if part != [] {
      SplitCons(part);
    }
  }

  /** Each round that gets an answer strictly advances, and ends the sync exactly when nothing is
      missing any more. */
  lemma RoundAdvances(s: Inbox, peer: Peer, fates: Wire -> Fate)
    requires NoHoles(peer, s.recv) && AllFine(From(peer.log, s.recv), fates) && s.recv < peer.send
    ensures var n := Share(peer, s.recv);
            AfterRound(s, Answers(peer), fates, s.recv) ==
              if n == 0 then (s, Finished(false))
              else (Inbox(s.recv + n, s.stored + From(peer.log, s.recv)[..n]),
                    if s.recv + n == peer.send then Finished(true) else Continue)
  {
    ResponseIsPrefix(s, peer, fates);
  }

  /** `s'` has committed exactly the first messages `s` was missing, in order. */
  ghost predicate CaughtUpTo(peer: Peer, s: Inbox, s': Inbox) {
    && s.recv <= s'.recv <= peer.send
    && |From(peer.log, s.recv)| == peer.send - s.recv
    && s'.stored == s.stored + From(peer.log, s.recv)[..s'.recv - s.recv]
  }

  lemma CaughtUpTrans(peer: Peer, s: Inbox, s1: Inbox, s2: Inbox)
    requires NoHoles(peer, s.recv) && CaughtUpTo(peer, s, s1) && CaughtUpTo(peer, s1, s2)
    ensures CaughtUpTo(peer, s, s2)
  {
    HolesNeverOpen(peer, s.recv, s1.recv - s.recv);
    Chop(s.stored, From(peer.log, s.recv), s1.recv - s.recv, s2.recv - s1.recv);
  }

  lemma Chop(stored: seq<Wire>, missing: seq<Wire>, k: nat, m: nat)
    requires k + m <= |missing|
    ensures (stored + missing[..k]) + missing[k..][..m] == stored + missing[..k + m]
  {
    assert missing[..k + m] == missing[..k] + missing[k..][..m];
  }

  /** However frames are truncated and however many rounds there are, a sync commits the missing
      messages in order from the first, and reports success exactly when none is missing. */
  lemma {:induction false} SyncCommitsAPrefix(s: Inbox, peer: Peer, fates: Wire -> Fate, rounds: nat)
    requires NoHoles(peer, s.recv) && AllFine(From(peer.log, s.recv), fates) && rounds > 0
    ensures var (s', ok) := Synced(s, Answers(peer), fates, s.recv, rounds);
            CaughtUpTo(peer, s, s') && (ok <==> s'.recv == peer.send)
    decreases rounds
  {
    var missing := From(peer.log, s.recv);
    if s.recv == peer.send {
      ResponseIsPrefix(s, peer, fates);
    } else {
      RoundAdvances(s, peer, fates);
      var (s1, end) := AfterRound(s, Answers(peer), fates, s.recv);
      var n := Share(peer, s.recv);
      assert CaughtUpTo(peer, s, s1);
      if end == Continue && rounds > 1 {
        HolesNeverOpen(peer, s.recv, n);
        assert AllFine(missing[n..], fates);
        SyncCommitsAPrefix(s1, peer, fates, rounds - 1);
        CaughtUpTrans(peer, s, s1, Synced(s1, Answers(peer), fates, s1.recv, rounds - 1).0);
      }
    }
  }

  /** No batch of the missing messages is cut short by the frame size. */
  ghost predicate NoTruncation(peer: Peer, missing: seq<Wire>) {
    forall i, j :: 0 <= i < j <= |missing| && j - i <= BATCH_SIZE ==> Fits(peer, missing[i..j])
  }

  lemma {:induction false} FitsAll(peer: Peer, items: seq<Wire>, k: nat)
    requires k <= |items| && forall j :: k < j <= |items| ==> Fits(peer, items[..j])
    ensures FitFrom(peer, items, k) == |items|
    decreases |items| - k
  {
    if k < |items| {
      FitsAll(peer, items, k + 1);
    }
  }

  lemma FullShare(peer: Peer, recv: U64)
    requires NoTruncation(peer, From(peer.log, recv))
    ensures Share(peer, recv) == |Batch(From(peer.log, recv))|
  {
    var missing := From(peer.log, recv);
    var items := Batch(missing);
    forall j | 0 < j <= |items| ensures Fits(peer, items[..j]) {
      assert items[..j] == missing[0..j];
    }
    FitsAll(peer, items, 0);
  }

  lemma NoTruncationTail(peer: Peer, missing: seq<Wire>, n: nat)
    requires NoTruncation(peer, missing) && n <= |missing|
    ensures NoTruncation(peer, missing[n..])
  {
    forall i, j | 0 <= i < j <= |missing| - n && j - i <= BATCH_SIZE ensures Fits(peer, missing[n..][i..j]) {
      assert missing[n..][i..j] == missing[i + n..j + n];
    }
  }

  /** Without truncation or handler errors, `rounds` rounds bring in `rounds` full batches, or all
      that is missing: the cursor ends at the peer's send counter exactly when that is enough. */
  lemma {:induction false} SyncCatchesUpIff(s: Inbox, peer: Peer, fates: Wire -> Fate, rounds: nat)
    requires NoHoles(peer, s.recv) && AllFine(From(peer.log, s.recv), fates) && rounds > 0
    requires NoTruncation(peer, From(peer.log, s.recv))
    ensures var (s', ok) := Synced(s, Answers(peer), fates, s.recv, rounds);
            && (ok <==> peer.send - s.recv <= rounds * BATCH_SIZE)
            && (if ok then s'.recv == peer.send else s'.recv == s.recv + rounds * BATCH_SIZE)
    decreases rounds
  {
    var missing := From(peer.log, s.recv);
    if s.recv == peer.send {
      ResponseIsPrefix(s, peer, fates);
    } else {
      RoundAdvances(s, peer, fates);
      FullShare(peer, s.recv);
      var (s1, end) := AfterRound(s, Answers(peer), fates, s.recv);
      var n := Share(peer, s.recv);
      if end == Continue && rounds > 1 {
        HolesNeverOpen(peer, s.recv, n);
        assert AllFine(missing[n..], fates);
        NoTruncationTail(peer, missing, n);
        SyncCatchesUpIff(s1, peer, fates, rounds - 1);
      }
    }
  }

  /** So one sync call recovers up to `rounds` batches of 256 messages, all of them, in order; the
      service allows 64 rounds. */
  lemma SyncRecovers(s: Inbox, peer: Peer, fates: Wire -> Fate, rounds: nat)
    requires NoHoles(peer, s.recv) && AllFine(From(peer.log, s.recv), fates) && rounds > 0
    requires NoTruncation(peer, From(peer.log, s.recv)) && peer.send - s.recv <= rounds * BATCH_SIZE
    ensures Synced(s, Answers(peer), fates, s.recv, rounds)
            == (Inbox(peer.send, s.stored + From(peer.log, s.recv)), true)
  {
    SyncCatchesUpIff(s, peer, fates, rounds);
    SyncCommitsAPrefix(s, peer, fates, rounds);
    var missing := From(peer.log, s.recv);
    assert missing[..|missing|] == missing;
  }

  /** Once nothing is missing, a sync succeeds and changes nothing. */
  lemma NothingMissing(s: Inbox, peer: Peer, fates: Wire -> Fate, rounds: nat)
    requires NoHoles(peer, s.recv) && s.recv == peer.send && rounds > 0
    ensures Synced(s, Answers(peer), fates, s.recv, rounds) == (s, true)
  {
    ResponseIsPrefix(s, peer, fates);
    assert s.stored + From(peer.log, s.recv)[..0] == s.stored;
  }

  /** A peer that does not know the conversation answers with nothing, so a sync with it succeeds at once and
      changes nothing; a counter too large for its column cannot be looked up, so such a sync fails. */
  lemma UnknownConversation(s: Inbox, peer: Peer, fates: Wire -> Fate, next: U64, rounds: nat)
    requires rounds > 0
    ensures !peer.knows ==> Synced(s, Answers(peer), fates, next, rounds) == (s, true)
    ensures peer.knows && next >= TWO63 ==> Synced(s, Answers(peer), fates, next, rounds) == (s, false)
  {
  }

  /** A message that arrives with a gap makes the handler sync and look again, until the gap is gone.
      After one sync it is a duplicate or the next message exactly when its counter does not exceed
      the peer's send counter; otherwise every further pass finds the same gap and changes nothing,
      so the handler's loop does not end. */
  lemma GapClosesIff(s: Inbox, m: Wire, peer: Peer, fates: Wire -> Fate, rounds: nat)
    requires NoHoles(peer, s.recv) && AllFine(From(peer.log, s.recv), fates) && rounds > 0
    requires NoTruncation(peer, From(peer.log, s.recv)) && peer.send - s.recv <= rounds * BATCH_SIZE
    requires Arrive(s, m, false, fates(m)).1 == NeedsSync
    ensures var s' := Synced(s, Answers(peer), fates, s.recv, rounds).0;
            && (Arrive(s', m, false, fates(m)).1 != NeedsSync <==> m.counter <= peer.send)
            && Synced(s', Answers(peer), fates, s'.recv, rounds) == (s', true)
  {
    SyncRecovers(s, peer, fates, rounds);
    HolesNeverOpen(peer, s.recv, peer.send - s.recv);
    NothingMissing(Inbox(peer.send, s.stored + From(peer.log, s.recv)), peer, fates, rounds);
  }
}
