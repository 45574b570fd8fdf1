/** The uptime score of a relay node: whole minutes between connects from the same address, at most
    60 per connect, reset when the address changes. */
module RelayScore {
  import opened Basics

  const MAX_PER_CONNECT := 60

  /** Nanoseconds, as `time.Duration` counts them. */
  const MINUTE := 60 * 1_000_000_000

  datatype Row = Row(ip: string, score: int, lastAt: int)

  /** Go's division of a duration, which truncates toward zero. */
  function Quotient(d: int): int {
    if d < 0 then -(-d / MINUTE) else d / MINUTE
  }

  /** The whole minutes of the gap, from 0 to 60. */
  function Gain(lastAt: int, now: int): (add: int)
    ensures 0 <= add <= MAX_PER_CONNECT
    ensures now - lastAt >= 3_600_000_000_000 ==> add == 60
    ensures 0 <= now - lastAt < 3_600_000_000_000 ==>
              add * 60_000_000_000 <= now - lastAt < (add + 1) * 60_000_000_000
    ensures now < lastAt ==> add == 0
  {
    var minutes := Quotient(now - lastAt);
    if minutes < 0 then 0 else if minutes > MAX_PER_CONNECT then MAX_PER_CONNECT else minutes
  }

  /** The row after a connect from `ip`. */
  function Connected(row: Option<Row>, ip: string, now: int): Row {
    if row.None? || row.value.ip != ip then Row(ip, 0, now)
    else row.value.(score := row.value.score + Gain(row.value.lastAt, now), lastAt := now)
  }

  class ScoreStore {
    var rows: map<string, Row>

    ghost function RowOf(peer: string): Option<Row>
      reads this
    {
      if peer in rows then Some(rows[peer]) else None
    }

    method ApplyRelayNodeConnectScore(peer: string, realIP: string, now: int) returns (added: int)
      modifies this
      ensures peer == "" || realIP == "" ==> rows == old(rows) && added == 0
      ensures peer != "" && realIP != "" ==>
        && RowOf(peer) == Some(Connected(old(RowOf(peer)), realIP, now))
        && (forall p :: p != peer ==> RowOf(p) == old(RowOf(p)))
        && (if old(peer in rows && rows[peer].ip == realIP)
            then added == Gain(old(rows)[peer].lastAt, now)
                 && rows[peer] == Row(realIP, old(rows)[peer].score + added, now)
            else added == 0 && rows[peer] == Row(realIP, 0, now))
    {
      if peer == "" || realIP == "" {
        return 0;
      }
      if peer !in rows || rows[peer].ip != realIP {
        rows := rows[peer := Row(realIP, 0, now)];
        return 0;
      }
      var row := rows[peer];
      var minutes := Quotient(now - row.lastAt);
      if minutes < 0 {
        minutes := 0;
      }
      added := minutes;
      if added > MAX_PER_CONNECT {
        added := MAX_PER_CONNECT;
      }
      rows := rows[peer := row.(score := row.score + added, lastAt := now)];
    }
  }

  // ----- runs -----

  datatype Connect = Connect(ip: string, at: int)

  /** A row with when it was inserted or last changed address, how many connects from the same address
      came since, and by how much in all the clock went back between them. */
  datatype History = History(row: Row, since: int, same: nat, back: nat)

  function After(connects: seq<Connect>): Option<History> {
    if connects == [] then None
    else
      var h, c := After(connects[..|connects| - 1]), connects[|connects| - 1];
      if h.None? || h.value.row.ip != c.ip then Some(History(Connected(None, c.ip, c.at), c.at, 0, 0))
      else
        var step := h.value.row.lastAt - c.at;
        Some(History(Connected(Some(h.value.row), c.ip, c.at), h.value.since, h.value.same + 1,
                     h.value.back + if step > 0 then step else 0))
  }

  /** The history's row is the row the store keeps. */
  lemma {:induction false} HistoryTracksRow(connects: seq<Connect>, c: Connect)
    ensures var h, h' := After(connects), After(connects + [c]);
            h'.Some? && h'.value.row == Connected(if h.None? then None else Some(h.value.row), c.ip, c.at)
  {
  }

  /** Over any run of connects, whatever the clock does, the score is at most 60 per connect from the
      same address, and its minutes are at most the time since the row was inserted or changed address
      plus the time by which the clock went back. */
  lemma {:induction false} ScoreBoundAnyClock(connects: seq<Connect>)
    requires connects != []
    ensures var h := After(connects).value;
            && h.row.lastAt == connects[|connects| - 1].at
            && 0 <= h.row.score <= MAX_PER_CONNECT * h.same
            && h.row.score * MINUTE <= h.row.lastAt - h.since + h.back
  {
    var rest, c := connects[..|connects| - 1], connects[|connects| - 1];
    if rest != [] {
      ScoreBoundAnyClock(rest);
      GainBound(After(rest).value.row.lastAt, c.at);
    }
  }

  /** What a connect gains is covered by the time since the last one, or that by which the clock went back. */
  lemma GainBound(lastAt: int, now: int)
    ensures Gain(lastAt, now) * MINUTE <= now - lastAt + if lastAt - now > 0 then lastAt - now else 0
  {
  }

  predicate NonDecreasing(connects: seq<Connect>) {
    forall i, j :: 0 <= i < j < |connects| ==> connects[i].at <= connects[j].at
  }

  lemma {:induction false} NeverBack(connects: seq<Connect>)
    requires connects != [] && NonDecreasing(connects)
    ensures After(connects).value.back == 0 && After(connects).value.since <= connects[|connects| - 1].at
  {
    var rest := connects[..|connects| - 1];
    if rest != [] {
      NeverBack(rest);
      ScoreBoundAnyClock(rest);
    }
  }

  /** If the clock never goes back, the score never exceeds the whole minutes since the row was inserted
      or changed address, nor 60 per connect from the same address. */
  lemma ScoreBound(connects: seq<Connect>)
    requires connects != [] && NonDecreasing(connects)
    ensures var h := After(connects).value;
            && h.since <= h.row.lastAt == connects[|connects| - 1].at
            && 0 <= h.row.score <= (h.row.lastAt - h.since) / MINUTE
            && h.row.score <= MAX_PER_CONNECT * h.same
  {
    ScoreBoundAnyClock(connects);
    NeverBack(connects);
    var h := After(connects).value;
    WholeMinutes(h.row.score, h.row.lastAt - h.since);
  }

  lemma WholeMinutes(score: int, d: int)
    requires score * MINUTE <= d
    ensures score <= d / MINUTE
  {
  }

  /** If the clock may go back, the bound fails: the same ten minutes are counted twice. */
  lemma BackwardsClockOvercounts(ip: string)
    ensures var h := After([Connect(ip, 0), Connect(ip, 10 * MINUTE), Connect(ip, 0), Connect(ip, 10 * MINUTE)]).value;
            h.row.score == 20 && (h.row.lastAt - h.since) / MINUTE == 10 && h.back == 10 * MINUTE
  {
    var c0, c1 := Connect(ip, 0), Connect(ip, 10 * MINUTE);
    assert [c0][..0] == [] && [c0, c1][..1] == [c0] && [c0, c1, c0][..2] == [c0, c1]
            && [c0, c1, c0, c1][..3] == [c0, c1, c0];
    assert After([c0]) == Some(History(Row(ip, 0, 0), 0, 0, 0));
    assert After([c0, c1]) == Some(History(Row(ip, 10, 10 * MINUTE), 0, 1, 0));
    assert After([c0, c1, c0]) == Some(History(Row(ip, 10, 0), 0, 2, 10 * MINUTE));
  }
}
