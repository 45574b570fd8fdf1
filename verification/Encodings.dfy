/** Byte encodings shared by the signed and sealed formats: decimal numbers as Go prints and parses
    them, big-endian words, and strings with a separator or a terminator. */
module Encodings {
  import opened Basics

  /** The bytes of an ASCII literal. */
  function Ascii(s: string): (b: Bytes)
    requires forall i :: 0 <= i < |s| ==> s[i] as int < 128
    ensures |b| == |s| && forall i :: 0 <= i < |s| ==> b[i] == s[i] as int
  {
    seq(|s|, i requires 0 <= i < |s| => s[i] as int)
  }

  // ----- decimal numbers -----

  const DIGIT_0: Byte := 48
  const MINUS: Byte := 45

  predicate IsDigit(b: Byte) { DIGIT_0 <= b <= DIGIT_0 + 9 }

  /** `%d` of a number that is not negative. */
  function Decimal(n: nat): (b: Bytes)
    ensures b != [] && forall i :: 0 <= i < |b| ==> IsDigit(b[i])
  {
    if n < 10 then [DIGIT_0 + n] else Decimal(n / 10) + [DIGIT_0 + n % 10]
  }

  /** `%d` of any number. */
  function SignedDecimal(n: int): (b: Bytes)
    ensures forall i :: 0 <= i < |b| ==> IsDigit(b[i]) || b[i] == MINUS
  {
    if n < 0 then [MINUS] + Decimal(-n) else Decimal(n)
  }

  /** The value of a string of digits. */
  function Value(b: Bytes): nat
    requires forall i :: 0 <= i < |b| ==> IsDigit(b[i])
  {
    if b == [] then 0
    else
      assert IsDigit(b[|b| - 1]);
      10 * Value(b[..|b| - 1]) + (b[|b| - 1] - DIGIT_0)
  }

  /** `strconv.ParseUint(s, 10, 64)`. */
  function ParseUint(b: Bytes): Option<U64> {
    if b == [] || !(forall i :: 0 <= i < |b| ==> IsDigit(b[i])) || Value(b) >= TWO64 then None
    else Some(Value(b))
  }

  lemma {:induction false} ValueOfDecimal(n: nat)
    ensures Value(Decimal(n)) == n
  {
    if n < 10 {
      assert Decimal(n)[..0] == [];
    } else {
      ValueOfDecimal(n / 10);
      assert Decimal(n)[..|Decimal(n)| - 1] == Decimal(n / 10);
    }
  }

  /** ASCII digits, the last one the lowest, and no leading zero. */
  lemma {:induction false} DecimalIs(n: nat)
    ensures var b := Decimal(n);
            && b[|b| - 1] == ['0', '1', '2', '3', '4', '5', '6', '7', '8', '9'][n % 10] as int
            && (n >= 10 ==> b[..|b| - 1] == Decimal(n / 10) && b[0] != '0' as int)
            && (n < 10 ==> |b| == 1)
  {
    if n >= 10 {
      DecimalIs(n / 10);
      assert Decimal(n)[0] == Decimal(n / 10)[0];
      if n / 10 < 10 {
        assert Decimal(n / 10) == [DIGIT_0 + n / 10];
      }
    }
  }

  /** A minus sign and the digits of the opposite, or the digits alone. */
  lemma SignedDecimalIs(n: int)
    ensures SignedDecimal(n) == if n < 0 then ['-' as int] + Decimal(-n) else Decimal(n)
  {
  }

  /** Printing and parsing are inverse on all 64-bit numbers. */
  lemma ParseUintOfDecimal(n: U64)
    ensures ParseUint(Decimal(n)) == Some(n)
  {
    ValueOfDecimal(n);
  }

  lemma SignedDecimalInjective(m: int, n: int)
    requires SignedDecimal(m) == SignedDecimal(n)
    ensures m == n
  {
    var s := SignedDecimal(m);
    assert s[0] == MINUS <==> m < 0;
    assert s[0] == MINUS <==> n < 0;
    if m < 0 {
      assert s[1..] == Decimal(-m) && s[1..] == Decimal(-n);
      ValueOfDecimal(-m);
      ValueOfDecimal(-n);
    } else {
      ValueOfDecimal(m);
      ValueOfDecimal(n);
    }
  }

  // ----- words -----

  type I64 = x: int | -0x8000_0000_0000_0000 <= x < 0x8000_0000_0000_0000

  /** Go's conversion of an `int64` to `uint64`. */
  function ToU64(x: I64): U64 { if x < 0 then x + TWO64 else x }

  /** The last `n` base-256 digits, most significant first. */
  function BigEndian(x: nat, n: nat): (b: Bytes)
    ensures |b| == n
  {
    if n == 0 then [] else BigEndian(x / 256, n - 1) + [x % 256]
  }

  function Pow256(n: nat): nat { if n == 0 then 1 else 256 * Pow256(n - 1) }

  lemma {:induction false} BigEndianInjective(x: nat, y: nat, n: nat)
    requires x < Pow256(n) && y < Pow256(n) && BigEndian(x, n) == BigEndian(y, n)
    ensures x == y
  {
    if n > 0 {
      var b := BigEndian(x, n);
      assert b[..n - 1] == BigEndian(x / 256, n - 1) && b[..n - 1] == BigEndian(y / 256, n - 1);
      assert b[n - 1] == x % 256 && b[n - 1] == y % 256;
      BigEndianInjective(x / 256, y / 256, n - 1);
    }
  }

  /** The number whose base-256 digits these are, the first one the highest. */
  function BigValue(b: Bytes): nat {
    if b == [] then 0 else 256 * BigValue(b[..|b| - 1]) + b[|b| - 1]
  }

  /** The bytes of a number that fits are its digits. */
  lemma {:induction false} BigEndianIs(x: nat, n: nat)
    requires x < Pow256(n)
    ensures BigValue(BigEndian(x, n)) == x
  {
    if n > 0 {
      BigEndianIs(x / 256, n - 1);
      assert BigEndian(x, n)[..n - 1] == BigEndian(x / 256, n - 1);
    }
  }

  /** `binary.BigEndian.AppendUint64` of a converted `int64`. */
  function Word(x: I64): (b: Bytes)
    ensures |b| == 8
  {
    BigEndian(ToU64(x), 8)
  }

  /** Eight bytes; a negative number as its two's complement. */
  lemma WordIs(x: I64)
    ensures BigValue(Word(x)) == if x < 0 then 0x1_0000_0000_0000_0000 + x else x
  {
    assert Pow256(8) == TWO64;
    BigEndianIs(ToU64(x), 8);
  }

  lemma WordInjective(x: I64, y: I64)
    requires Word(x) == Word(y)
    ensures x == y
  {
    assert Pow256(8) == TWO64;
    BigEndianInjective(ToU64(x), ToU64(y), 8);
  }

  // ----- separators -----

  predicate Without(b: Bytes, sep: Byte) { sep !in b }

  /** A string up to its terminator can be read back, whatever follows. */
  lemma TerminatedInjective<T>(sep: T, a: seq<T>, rest: seq<T>, a': seq<T>, rest': seq<T>)
    requires sep !in a && sep !in a'
    requires a + [sep] + rest == a' + [sep] + rest'
    ensures a == a' && rest == rest'
  {
    var s := a + [sep] + rest;
    assert s[|a|] == sep && s[|a'|] == sep;
    assert forall i :: 0 <= i < |a| ==> s[i] == a[i];
    assert forall i :: 0 <= i < |a'| ==> s[i] == a'[i];
    assert |a| == |a'|;
    assert a == s[..|a|] && a' == s[..|a|];
    assert rest == s[|a| + 1..] && rest' == s[|a| + 1..];
  }

  lemma AfterPrefix<T>(pre: seq<T>, x: seq<T>, y: seq<T>)
    requires pre + x == pre + y
    ensures x == y
  {
    assert x == (pre + x)[|pre|..] && y == (pre + x)[|pre|..];
  }

  function Join(fields: seq<Bytes>, sep: Byte): Bytes
    requires fields != []
  {
    if |fields| == 1 then fields[0] else fields[0] + [sep] + Join(fields[1..], sep)
  }

  /** As many fields without the separator, joined, determine each of them. */
  lemma {:induction false} JoinInjective(f: seq<Bytes>, g: seq<Bytes>, sep: Byte)
    requires f != [] && |f| == |g| && Join(f, sep) == Join(g, sep)
    requires forall i :: 0 <= i < |f| ==> Without(f[i], sep) && Without(g[i], sep)
    ensures f == g
  {
    if |f| == 1 {
      assert f == [f[0]] && g == [g[0]];
    } else {
      TerminatedInjective(sep, f[0], Join(f[1..], sep), g[0], Join(g[1..], sep));
      JoinInjective(f[1..], g[1..], sep);
      assert f == [f[0]] + f[1..] && g == [g[0]] + g[1..];
    }
  }
}

/** The canonical forms that relay frames are signed over. */
module RelaySign {
  import opened Basics
  import opened Encodings

  const RS: Byte := 0x1e

  datatype Connect = Connect(version: int, sessionID: Bytes, srcID: Bytes, dstID: Bytes, timestamp: int, ttlSec: int)
  datatype ConnectResponse = ConnectResponse(
    version: int, sessionID: Bytes, srcID: Bytes, dstID: Bytes, relayID: Bytes, accepted: bool, expireAt: int)
  datatype Handshake = Handshake(
    version: int, sessionID: Bytes, srcID: Bytes, dstID: Bytes, ephPub: Bytes, cipherSuite: Bytes, timestamp: int)
  datatype Heartbeat = Heartbeat(
    version: int, sessionID: Bytes, srcID: Bytes, dstID: Bytes, relayID: Bytes, pingID: Bytes, sentAt: int)

  datatype Frame =
    | C(connect: Connect)
    | R(response: ConnectResponse)
    | H(handshake: Handshake)
    | B(heartbeat: Heartbeat)

  /** `%t`. */
  function Truth(b: bool): Bytes { if b then Ascii("true") else Ascii("false") }

  /** The fields of a frame, as they are printed. */
  function Fields(f: Frame): (s: seq<Bytes>)
    ensures |s| == if f.C? then 6 else 7
  {
    match f
    case C(r) =>
      [SignedDecimal(r.version), r.sessionID, r.srcID, r.dstID, SignedDecimal(r.timestamp), SignedDecimal(r.ttlSec)]
    case R(r) =>
      [SignedDecimal(r.version), r.sessionID, r.srcID, r.dstID, r.relayID, Truth(r.accepted), SignedDecimal(r.expireAt)]
    case H(r) =>
      [SignedDecimal(r.version), r.sessionID, r.srcID, r.dstID, r.ephPub, r.cipherSuite, SignedDecimal(r.timestamp)]
    case B(r) =>
      [SignedDecimal(r.version), r.sessionID, r.srcID, r.dstID, r.relayID, r.pingID, SignedDecimal(r.sentAt)]
  }

  function Canonical(f: Frame): Bytes {
    Join(Fields(f), RS)
  }

  const CONNECT := Ascii("mesh-proxy/chatrelay/v1/connect\n")
  const RESPONSE := Ascii("mesh-proxy/chatrelay/v1/connect-response\n")
  const HANDSHAKE := Ascii("mesh-proxy/chatrelay/v1/handshake\n")
  const HEARTBEAT := Ascii("mesh-proxy/chatrelay/v1/heartbeat\n")

  function Prefix(f: Frame): Bytes {
    match f
    case C(_) => CONNECT
    case R(_) => RESPONSE
    case H(_) => HANDSHAKE
    case B(_) => HEARTBEAT
  }

  /** What is signed. */
  function Signed(f: Frame): Bytes {
    Prefix(f) + Canonical(f)
  }

  /** The bytes of each kind of frame, written out: the fields in order, separated by 0x1E, after the label of
      the kind. */
  lemma SignedIs(f: Frame)
    ensures f.C? ==>
      var r := f.connect;
      Signed(f) == CONNECT + (
        SignedDecimal(r.version) + [0x1e] + (r.sessionID + [0x1e] + (r.srcID + [0x1e] + (r.dstID + [0x1e]
        + (SignedDecimal(r.timestamp) + [0x1e] + SignedDecimal(r.ttlSec))))))
    ensures f.R? ==>
      var r := f.response;
      Signed(f) == RESPONSE + (
        SignedDecimal(r.version) + [0x1e] + (r.sessionID + [0x1e] + (r.srcID + [0x1e] + (r.dstID + [0x1e]
        + (r.relayID + [0x1e] + (Ascii(if r.accepted then "true" else "false") + [0x1e]
        + SignedDecimal(r.expireAt)))))))
    ensures f.H? ==>
      var r := f.handshake;
      Signed(f) == HANDSHAKE + (
        SignedDecimal(r.version) + [0x1e] + (r.sessionID + [0x1e] + (r.srcID + [0x1e] + (r.dstID + [0x1e]
        + (r.ephPub + [0x1e] + (r.cipherSuite + [0x1e] + SignedDecimal(r.timestamp)))))))
    ensures f.B? ==>
      var r := f.heartbeat;
      Signed(f) == HEARTBEAT + (
        SignedDecimal(r.version) + [0x1e] + (r.sessionID + [0x1e] + (r.srcID + [0x1e] + (r.dstID + [0x1e]
        + (r.relayID + [0x1e] + (r.pingID + [0x1e] + SignedDecimal(r.sentAt)))))))
  {
    var s := Fields(f);
    if f.C? {
      JoinSix(s);
    } else {
      JoinSeven(s);
    }
  }

  lemma JoinSix(s: seq<Bytes>)
    requires |s| == 6
    ensures Join(s, RS) == s[0] + [0x1e] + (s[1] + [0x1e] + (s[2] + [0x1e] + (s[3] + [0x1e] + (s[4] + [0x1e] + s[5]))))
  {
    assert Join(s[4..], RS) == s[4] + [RS] + s[5];
    assert s[3..][1..] == s[4..] && s[2..][1..] == s[3..] && s[1..][1..] == s[2..];
    assert Join(s[3..], RS) == s[3] + [RS] + Join(s[4..], RS);
    assert Join(s[2..], RS) == s[2] + [RS] + Join(s[3..], RS);
    assert Join(s[1..], RS) == s[1] + [RS] + Join(s[2..], RS);
  }

  lemma JoinSeven(s: seq<Bytes>)
    requires |s| == 7
    ensures Join(s, RS)
            == s[0] + [0x1e] + (s[1] + [0x1e] + (s[2] + [0x1e] + (s[3] + [0x1e]
               + (s[4] + [0x1e] + (s[5] + [0x1e] + s[6])))))
  {
    JoinSix(s[1..]);
  }

  /** None of the frame's strings contains the record separator. */
  predicate SeparatorFree(f: Frame) {
    match f
    case C(r) => Without(r.sessionID, RS) && Without(r.srcID, RS) && Without(r.dstID, RS)
    case R(r) => Without(r.sessionID, RS) && Without(r.srcID, RS) && Without(r.dstID, RS) && Without(r.relayID, RS)
    case H(r) =>
      && Without(r.sessionID, RS) && Without(r.srcID, RS) && Without(r.dstID, RS)
      && Without(r.ephPub, RS) && Without(r.cipherSuite, RS)
    case B(r) =>
      && Without(r.sessionID, RS) && Without(r.srcID, RS) && Without(r.dstID, RS)
      && Without(r.relayID, RS) && Without(r.pingID, RS)
  }

  /** Numbers and truth values never print the separator. */
  lemma FieldsSeparatorFree(f: Frame)
    requires SeparatorFree(f)
    ensures forall i :: 0 <= i < |Fields(f)| ==> Without(Fields(f)[i], RS)
  {
  }

  /** The printed fields determine the frame among those of its kind. */
  lemma FieldsInjective(f: Frame, g: Frame)
    requires Fields(f) == Fields(g) && SameKind(f, g)
    ensures f == g
  {
    var s, t := Fields(f), Fields(g);
    assert s[0] == t[0] && s[1] == t[1] && s[2] == t[2] && s[3] == t[3] && s[4] == t[4] && s[5] == t[5];
    match f
    case C(r) =>
      SignedDecimalInjective(r.version, g.connect.version);
      SignedDecimalInjective(r.timestamp, g.connect.timestamp);
      SignedDecimalInjective(r.ttlSec, g.connect.ttlSec);
    case R(r) =>
      assert s[6] == t[6];
      SignedDecimalInjective(r.version, g.response.version);
      SignedDecimalInjective(r.expireAt, g.response.expireAt);
      assert |Ascii("true")| != |Ascii("false")|;
    case H(r) =>
      assert s[6] == t[6];
      SignedDecimalInjective(r.version, g.handshake.version);
      SignedDecimalInjective(r.timestamp, g.handshake.timestamp);
    case B(r) =>
      assert s[6] == t[6];
      SignedDecimalInjective(r.version, g.heartbeat.version);
      SignedDecimalInjective(r.sentAt, g.heartbeat.sentAt);
  }

  predicate SameKind(f: Frame, g: Frame) {
    (f.C? <==> g.C?) && (f.R? <==> g.R?) && (f.H? <==> g.H?)
  }

  /** The labels of two kinds differ at a place both have. */
  lemma SignedKind(f: Frame, g: Frame)
    requires Signed(f) == Signed(g)
    ensures SameKind(f, g)
  {
    LabelBytes(f);
    LabelBytes(g);
  }

  lemma LabelBytes(f: Frame)
    ensures |Signed(f)| > 31
    ensures Signed(f)[24] == (if f.C? || f.R? then 'c' else 'h') as int
    ensures Signed(f)[25] == (if f.C? || f.R? then 'o' else if f.H? then 'a' else 'e') as int
    ensures f.C? || f.R? ==> Signed(f)[31] == (if f.C? then '\n' else '-') as int
  {
  }

  /** The signed bytes of a frame determine it: its kind and every field. */
  lemma SignedInjective(f: Frame, g: Frame)
    requires SeparatorFree(f) && SeparatorFree(g)
    requires Signed(f) == Signed(g)
    ensures f == g
  {
    SignedKind(f, g);
    AfterPrefix(Prefix(f), Canonical(f), Canonical(g));
    CanonicalInjective(f, g);
  }

  /** Within one kind the canonical form alone does. */
  lemma CanonicalInjective(f: Frame, g: Frame)
    requires SeparatorFree(f) && SeparatorFree(g) && SameKind(f, g)
    requires Canonical(f) == Canonical(g)
    ensures f == g
  {
    FieldsSeparatorFree(f);
    FieldsSeparatorFree(g);
    JoinInjective(Fields(f), Fields(g), RS);
    FieldsInjective(f, g);
  }
}

/** The associated data that binds an offline friend request to its envelope. */
module FriendAAD {
  import opened Basics
  import opened Encodings

  datatype Envelope = Envelope(
    version: I64, msgID: Bytes, senderID: Bytes, recipientID: Bytes, conversationID: Bytes, createdAt: I64,
    ttlSec: Option<I64>, algorithm: Bytes, recipientKeyID: Bytes, nonce: Bytes)

  function EffectiveTTL(e: Envelope, defaultTTL: I64): I64 {
    match e.ttlSec
    case None => defaultTTL
    case Some(t) => t
  }

  const LABEL := Ascii("mesh-proxy/offline_friend/ecies-aad/v1") + [0]

  function Tail(e: Envelope): Bytes {
    e.algorithm + [0] + (e.recipientKeyID + [0] + e.nonce)
  }

  function Middle(e: Envelope, defaultTTL: I64): Bytes {
    Word(e.createdAt) + (Word(EffectiveTTL(e, defaultTTL)) + Tail(e))
  }

  function AfterRecipient(e: Envelope, defaultTTL: I64): Bytes {
    e.conversationID + [0] + Middle(e, defaultTTL)
  }

  function AfterSender(e: Envelope, defaultTTL: I64): Bytes {
    e.recipientID + [0] + AfterRecipient(e, defaultTTL)
  }

  function AfterMsgID(e: Envelope, defaultTTL: I64): Bytes {
    e.senderID + [0] + AfterSender(e, defaultTTL)
  }

  function Names(e: Envelope, defaultTTL: I64): Bytes {
    e.msgID + [0] + AfterMsgID(e, defaultTTL)
  }

  /** The bytes that are authenticated. */
  function AAD(e: Envelope, defaultTTL: I64): Bytes {
    LABEL + (Word(e.version) + Names(e, defaultTTL))
  }

  /** `offlineFriendECIESAAD`: the same bytes, appended piece by piece. */
  method BuildAAD(e: Envelope, defaultTTL: I64) returns (buf: Bytes)
    ensures buf == AAD(e, defaultTTL)
  {
    var ttl := EffectiveTTL(e, defaultTTL);
    ghost var whole := AAD(e, defaultTTL);
    buf := LABEL;
    buf := Append(buf, Word(e.version), Names(e, defaultTTL), whole);
    buf := Append(buf, e.msgID + [0], AfterMsgID(e, defaultTTL), whole);
    buf := Append(buf, e.senderID + [0], AfterSender(e, defaultTTL), whole);
    buf := Append(buf, e.recipientID + [0], AfterRecipient(e, defaultTTL), whole);
    buf := Append(buf, e.conversationID + [0], Middle(e, defaultTTL), whole);
    buf := Append(buf, Word(e.createdAt), Word(ttl) + Tail(e), whole);
    buf := Append(buf, Word(ttl), Tail(e), whole);
    buf := Append(buf, e.algorithm + [0], e.recipientKeyID + [0] + e.nonce, whole);
    buf := Append(buf, e.recipientKeyID + [0], e.nonce, whole);
    buf := buf + e.nonce;
  }

  /** Appends the next piece of `whole`, of which `rest` is still to come. */
  method Append(buf: Bytes, piece: Bytes, ghost rest: Bytes, ghost whole: Bytes) returns (out: Bytes)
    requires buf + (piece + rest) == whole
    ensures out == buf + piece && out + rest == whole
  {
    out := buf + piece;
    assert out + rest == buf + (piece + rest);
  }

  /** The bytes, written out in order. */
  lemma AADIs(e: Envelope, defaultTTL: I64)
    ensures var names := e.msgID + [0] + e.senderID + [0] + e.recipientID + [0] + e.conversationID + [0];
            var rest := Word(e.createdAt) + Word(if e.ttlSec.Some? then e.ttlSec.value else defaultTTL)
                        + e.algorithm + [0] + e.recipientKeyID + [0] + e.nonce;
            AAD(e, defaultTTL)
            == Ascii("mesh-proxy/offline_friend/ecies-aad/v1") + [0] + (Word(e.version) + (names + rest))
  {
    MiddleIs(e, defaultTTL);
    NamesAre(e, defaultTTL);
  }

  lemma MiddleIs(e: Envelope, defaultTTL: I64)
    ensures Middle(e, defaultTTL)
            == Word(e.createdAt) + Word(if e.ttlSec.Some? then e.ttlSec.value else defaultTTL)
               + e.algorithm + [0] + e.recipientKeyID + [0] + e.nonce
  {
  }

  lemma NamesAre(e: Envelope, defaultTTL: I64)
    ensures Names(e, defaultTTL)
            == (e.msgID + [0] + e.senderID + [0] + e.recipientID + [0] + e.conversationID + [0]) + Middle(e, defaultTTL)
  {
  }

  /** All strings but the last are free of the terminator. */
  predicate NulFree(e: Envelope) {
    && Without(e.msgID, 0) && Without(e.senderID, 0) && Without(e.recipientID, 0) && Without(e.conversationID, 0)
    && Without(e.algorithm, 0) && Without(e.recipientKeyID, 0)
  }

  /** Equality of every bound field, the effective time to live included. */
  predicate SameBound(e: Envelope, f: Envelope, defaultTTL: I64) {
    e.(ttlSec := None) == f.(ttlSec := None) && EffectiveTTL(e, defaultTTL) == EffectiveTTL(f, defaultTTL)
  }

  lemma PrefixInjective(a: Bytes, rest: Bytes, a': Bytes, rest': Bytes)
    requires |a| == |a'| && a + rest == a' + rest'
    ensures a == a' && rest == rest'
  {
    assert a == (a + rest)[..|a|] && a' == (a + rest)[..|a|];
    assert rest == (a + rest)[|a|..] && rest' == (a + rest)[|a|..];
  }

  lemma NamesInjective(e: Envelope, f: Envelope, defaultTTL: I64)
    requires NulFree(e) && NulFree(f) && Names(e, defaultTTL) == Names(f, defaultTTL)
    ensures e.msgID == f.msgID && e.senderID == f.senderID && e.recipientID == f.recipientID
            && e.conversationID == f.conversationID
    ensures Middle(e, defaultTTL) == Middle(f, defaultTTL)
  {
    TerminatedInjective(0, e.msgID, AfterMsgID(e, defaultTTL), f.msgID, AfterMsgID(f, defaultTTL));
    TerminatedInjective(0, e.senderID, AfterSender(e, defaultTTL), f.senderID, AfterSender(f, defaultTTL));
    TerminatedInjective(0, e.recipientID, AfterRecipient(e, defaultTTL), f.recipientID, AfterRecipient(f, defaultTTL));
    TerminatedInjective(0, e.conversationID, Middle(e, defaultTTL), f.conversationID, Middle(f, defaultTTL));
  }

  lemma MiddleInjective(e: Envelope, f: Envelope, defaultTTL: I64)
    requires NulFree(e) && NulFree(f) && Middle(e, defaultTTL) == Middle(f, defaultTTL)
    ensures e.createdAt == f.createdAt && EffectiveTTL(e, defaultTTL) == EffectiveTTL(f, defaultTTL)
    ensures e.algorithm == f.algorithm && e.recipientKeyID == f.recipientKeyID && e.nonce == f.nonce
  {
    var te, tf := EffectiveTTL(e, defaultTTL), EffectiveTTL(f, defaultTTL);
    PrefixInjective(Word(e.createdAt), Word(te) + Tail(e), Word(f.createdAt), Word(tf) + Tail(f));
    PrefixInjective(Word(te), Tail(e), Word(tf), Tail(f));
    WordInjective(e.createdAt, f.createdAt);
    WordInjective(te, tf);
    TerminatedInjective(0, e.algorithm, e.recipientKeyID + [0] + e.nonce,
                        f.algorithm, f.recipientKeyID + [0] + f.nonce);
    TerminatedInjective(0, e.recipientKeyID, e.nonce, f.recipientKeyID, f.nonce);
  }

  /** Two envelopes with NUL-free strings have the same associated data exactly when they agree on
      every bound field. */
  lemma AADInjective(e: Envelope, f: Envelope, defaultTTL: I64)
    requires NulFree(e) && NulFree(f)
    ensures AAD(e, defaultTTL) == AAD(f, defaultTTL) <==> SameBound(e, f, defaultTTL)
  {
    if AAD(e, defaultTTL) == AAD(f, defaultTTL) {
      PrefixInjective(LABEL, Word(e.version) + Names(e, defaultTTL), LABEL, Word(f.version) + Names(f, defaultTTL));
      PrefixInjective(Word(e.version), Names(e, defaultTTL), Word(f.version), Names(f, defaultTTL));
      WordInjective(e.version, f.version);
      NamesInjective(e, f, defaultTTL);
      MiddleInjective(e, f, defaultTTL);
    }
    if SameBound(e, f, defaultTTL) {
      var e0, f0 := e.(ttlSec := None), f.(ttlSec := None);
      assert e.version == e0.version && f.version == f0.version && e.msgID == e0.msgID && f.msgID == f0.msgID;
    }
  }
}

/** Base64 with padding (section 4 of RFC 4648), and the recipient key ID built on it. */
module KeyID {
  import opened Basics
  import opened Encodings

  type Sextet = x: int | 0 <= x < 64

  const PAD: Byte := 61
  const COLON: Byte := 58

  function Letter(v: Sextet): (b: Byte)
    ensures b != PAD && b != 10 && b != 13
  {
    if v < 26 then 65 + v
    else if v < 52 then 97 + v - 26
    else if v < 62 then 48 + v - 52
    else if v == 62 then 43
    else 47
  }

  function SextetOf(b: Byte): Option<Sextet> {
    if 65 <= b < 91 then Some(b - 65)
    else if 97 <= b < 123 then Some(b - 97 + 26)
    else if 48 <= b < 58 then Some(b - 48 + 52)
    else if b == 43 then Some(62)
    else if b == 47 then Some(63)
    else None
  }

  /** Only letters of the alphabet decode, each to its place. */
  lemma SextetIs(b: Byte)
    ensures SextetOf(b).Some? ==> Letter(SextetOf(b).value) == b
  {
  }

  lemma LetterRoundTrip(v: Sextet)
    ensures SextetOf(Letter(v)) == Some(v)
  {
  }

  /** The alphabet: capital letters, small letters, digits, each in order, then plus and slash. */
  lemma LetterIs(v: Sextet)
    ensures Letter(0) == 'A' as int && Letter(25) == 'Z' as int && Letter(26) == 'a' as int && Letter(51) == 'z' as int
    ensures Letter(52) == '0' as int && Letter(61) == '9' as int && Letter(62) == '+' as int && Letter(63) == '/' as int
    ensures v < 61 && v != 25 && v != 51 ==> Letter(v + 1) == Letter(v) + 1
  {
  }

  /** The four letters of three bytes. */
  function Quad(x: Byte, y: Byte, z: Byte): (q: Bytes)
    ensures |q| == 4
  {
    [Letter(x / 4), Letter(x % 4 * 16 + y / 16), Letter(y % 16 * 4 + z / 64), Letter(z % 64)]
  }

  function Encode64(b: Bytes): Bytes {
    if b == [] then []
    else if |b| == 1 then [Letter(b[0] / 4), Letter(b[0] % 4 * 16), PAD, PAD]
    else if |b| == 2 then [Letter(b[0] / 4), Letter(b[0] % 4 * 16 + b[1] / 16), Letter(b[1] % 16 * 4), PAD]
    else Quad(b[0], b[1], b[2]) + Encode64(b[3..])
  }

  /** The letters of three bytes are the four base-64 digits of the number they make, the highest first. */
  lemma QuadIs(x: Byte, y: Byte, z: Byte) returns (a: Sextet, b: Sextet, c: Sextet, d: Sextet)
    ensures Quad(x, y, z) == [Letter(a), Letter(b), Letter(c), Letter(d)]
    ensures ((a * 64 + b) * 64 + c) * 64 + d == (x * 256 + y) * 256 + z
  {
    a, b, c, d := x / 4, x % 4 * 16 + y / 16, y % 16 * 4 + z / 64, z % 64;
  }

  /** Group `i` of the letters is that of bytes `3 * i` on; in the last group missing bytes count as zero, and the
      letters that hold nothing of the others are equals signs. */
  lemma {:induction false} EncodedGroup(b: Bytes, i: nat)
    requires 3 * i < |b|
    ensures |Encode64(b)| >= 4 * i + 4
    ensures var g, j := Encode64(b)[4 * i..4 * i + 4], 3 * i;
            && (j + 2 < |b| ==> g == Quad(b[j], b[j + 1], b[j + 2]))
            && (j + 2 == |b| ==> g == Quad(b[j], b[j + 1], 0)[..3] + ['=' as int])
            && (j + 1 == |b| ==> g == Quad(b[j], 0, 0)[..2] + ['=' as int, '=' as int])
  {
    if i == 0 {
      FirstGroup(b);
    } else {
      EncodedGroup(b[3..], i - 1);
      assert Encode64(b)[4..] == Encode64(b[3..]);
      assert Encode64(b)[4 * i..4 * i + 4] == Encode64(b)[4..][4 * (i - 1)..4 * (i - 1) + 4];
    }
  }

  lemma FirstGroup(b: Bytes)
    requires b != []
    ensures |Encode64(b)| >= 4
    ensures |b| > 2 ==> Encode64(b)[..4] == Quad(b[0], b[1], b[2])
    ensures |b| == 2 ==> Encode64(b)[..4] == Quad(b[0], b[1], 0)[..3] + ['=' as int]
    ensures |b| == 1 ==> Encode64(b)[..4] == Quad(b[0], 0, 0)[..2] + ['=' as int, '=' as int]
  {
  }

  /** Four letters for every three bytes begun. */
  lemma {:induction false} EncodedLength(b: Bytes)
    ensures |Encode64(b)| == (|b| + 2) / 3 * 4
  {
    if |b| > 2 {
      EncodedLength(b[3..]);
      assert |b[3..]| == |b| - 3;
    }
  }

  /** The decoder skips line breaks wherever they are. */
  function Unwrapped(s: Bytes): Bytes {
    if s == [] then []
    else if s[0] == 10 || s[0] == 13 then Unwrapped(s[1..])
    else [s[0]] + Unwrapped(s[1..])
  }

  /** The bytes of one group of four; padding only in the last group; leftover bits are ignored. */
  function Group(a: Byte, b: Byte, c: Byte, d: Byte, last: bool): Option<Bytes> {
    var p, q, r, t := SextetOf(a), SextetOf(b), SextetOf(c), SextetOf(d);
    if p.None? || q.None? then None
    else if c == PAD then
      if d == PAD && last then Some([p.value * 4 + q.value / 16]) else None
    else if r.None? then None
    else if d == PAD then
      if last then Some([p.value * 4 + q.value / 16, q.value % 16 * 16 + r.value / 4]) else None
    else if t.None? then None
    else Some([p.value * 4 + q.value / 16, q.value % 16 * 16 + r.value / 4, r.value % 4 * 64 + t.value])
  }

  function DecodeQuads(s: Bytes): Option<Bytes> {
    if s == [] then Some([])
    else if |s| < 4 then None
    else
      match Group(s[0], s[1], s[2], s[3], |s| == 4)
      case None => None
      case Some(head) =>
        match DecodeQuads(s[4..])
        case None => None
        case Some(tail) => Some(head + tail)
  }

  /** `base64.StdEncoding.DecodeString`. */
  function Decode64(s: Bytes): Option<Bytes> {
    DecodeQuads(Unwrapped(s))
  }

  lemma {:induction false} NoLineBreaks(b: Bytes)
    ensures Unwrapped(Encode64(b)) == Encode64(b)
  {
    var s := Encode64(b);
    if b != [] {
      if |b| > 2 {
        NoLineBreaks(b[3..]);
        UnwrappedQuad(s[..4], Encode64(b[3..]));
        assert s == s[..4] + Encode64(b[3..]);
      } else {
        UnwrappedQuad(s, []);
        assert s + [] == s;
      }
    }
  }

  lemma UnwrappedQuad(q: Bytes, rest: Bytes)
    requires |q| == 4 && 10 !in q && 13 !in q && Unwrapped(rest) == rest
    ensures Unwrapped(q + rest) == q + rest
  {
    var s := q + rest;
    assert s[1..][1..][1..][1..] == rest;
    assert s[0] in q && s[1] in q && s[2] in q && s[3] in q;
    assert s[1..][0] == s[1] && s[1..][1..][0] == s[2] && s[1..][1..][1..][0] == s[3];
    assert Unwrapped(s[1..][1..][1..]) == [s[3]] + rest;
    assert Unwrapped(s[1..][1..]) == [s[2]] + ([s[3]] + rest);
    assert Unwrapped(s[1..]) == [s[1]] + ([s[2]] + ([s[3]] + rest));
    assert Unwrapped(s) == [s[0]] + ([s[1]] + ([s[2]] + ([s[3]] + rest)));
  }

  lemma FullGroup(x: Byte, y: Byte, z: Byte, last: bool)
    ensures Group(Letter(x / 4), Letter(x % 4 * 16 + y / 16), Letter(y % 16 * 4 + z / 64), Letter(z % 64), last)
            == Some([x, y, z])
  {
    LetterRoundTrip(x / 4);
    LetterRoundTrip(x % 4 * 16 + y / 16);
    LetterRoundTrip(y % 16 * 4 + z / 64);
    LetterRoundTrip(z % 64);
    BytesBack(x, y, z);
  }

  lemma PaddedGroups(x: Byte, y: Byte)
    ensures Group(Letter(x / 4), Letter(x % 4 * 16), PAD, PAD, true) == Some([x])
    ensures Group(Letter(x / 4), Letter(x % 4 * 16 + y / 16), Letter(y % 16 * 4), PAD, true) == Some([x, y])
  {
    LetterRoundTrip(x / 4);
    LetterRoundTrip(x % 4 * 16);
    LetterRoundTrip(x % 4 * 16 + y / 16);
    LetterRoundTrip(y % 16 * 4);
    BytesBack(x, 0, 0);
    BytesBack(x, y, 0);
  }

  lemma DecodeGroup(q: Bytes, rest: Bytes, head: Bytes, tail: Bytes)
    requires |q| == 4 && Group(q[0], q[1], q[2], q[3], rest == []) == Some(head) && DecodeQuads(rest) == Some(tail)
    ensures DecodeQuads(q + rest) == Some(head + tail)
  {
  }

  lemma DecodeFull(x: Byte, y: Byte, z: Byte, rest: Bytes, tail: Bytes)
    requires DecodeQuads(rest) == Some(tail)
    ensures DecodeQuads(Quad(x, y, z) + rest) == Some([x, y, z] + tail)
  {
    FullGroup(x, y, z, rest == []);
    DecodeGroup(Quad(x, y, z), rest, [x, y, z], tail);
  }

  lemma ShortRoundTrip(x: Byte, y: Byte)
    ensures DecodeQuads(Encode64([x])) == Some([x]) && DecodeQuads(Encode64([x, y])) == Some([x, y])
  {
    PaddedGroups(x, y);
    DecodeLast([Letter(x / 4), Letter(x % 4 * 16), PAD, PAD], [x]);
    DecodeLast([Letter(x / 4), Letter(x % 4 * 16 + y / 16), Letter(y % 16 * 4), PAD], [x, y]);
  }

  lemma {:induction false} QuadsRoundTrip(b: Bytes)
    ensures DecodeQuads(Encode64(b)) == Some(b)
  {
    if |b| > 2 {
      QuadsRoundTrip(b[3..]);
      DecodeFull(b[0], b[1], b[2], Encode64(b[3..]), b[3..]);
      assert b == [b[0], b[1], b[2]] + b[3..];
    } else if b != [] {
      assert b == if |b| == 1 then [b[0]] else [b[0], b[1]];
      ShortRoundTrip(b[0], if |b| == 1 then 0 else b[1]);
    }
  }

  lemma DecodeLast(q: Bytes, head: Bytes)
    requires |q| == 4 && Group(q[0], q[1], q[2], q[3], true) == Some(head)
    ensures DecodeQuads(q) == Some(head)
  {
    DecodeGroup(q, [], head, []);
    assert q + [] == q && head + [] == head;
  }

  /** Three bytes from their four sextets. */
  lemma BytesBack(x: Byte, y: Byte, z: Byte)
    ensures x / 4 * 4 + (x % 4 * 16 + y / 16) / 16 == x
    ensures (x % 4 * 16 + y / 16) % 16 * 16 + (y % 16 * 4 + z / 64) / 4 == y
    ensures (y % 16 * 4 + z / 64) % 4 * 64 + z % 64 == z
  {
  }

  /** Line breaks are skipped wherever they are. */
  lemma {:induction false} LineBreaksSkipped(a: Bytes, c: Byte, b: Bytes)
    requires c == '\n' as int || c == '\r' as int
    ensures Unwrapped(a + [c] + b) == Unwrapped(a + b) && Decode64(a + [c] + b) == Decode64(a + b)
  {
    if a == [] {
      assert ([c] + b)[1..] == b && a + [c] + b == [c] + b && a + b == b;
    } else {
      LineBreaksSkipped(a[1..], c, b);
      assert (a + [c] + b)[1..] == a[1..] + [c] + b && (a + b)[1..] == a[1..] + b;
    }
  }

  /** Padding is an error but at the end of the last group. */
  lemma PaddingOnlyLast(a: Byte, b: Byte, c: Byte, d: Byte, last: bool)
    requires a == '=' as int || b == '=' as int || (c == '=' as int && d != '=' as int) || (d == '=' as int && !last)
    ensures Group(a, b, c, d, last).None?
  {
  }

  /** Decoding undoes encoding. */
  lemma Base64RoundTrip(b: Bytes)
    ensures Decode64(Encode64(b)) == Some(b)
  {
    NoLineBreaks(b);
    QuadsRoundTrip(b);
  }

  // ----- recipient key IDs -----

  function EncodeKeyID(counter: U64, msgType: Bytes): Bytes {
    Encode64(Decimal(counter) + [COLON] + msgType)
  }

  /** `bytes.IndexByte`, with the length for "not found". */
  function IndexOf(b: Bytes, c: Byte): (k: nat)
    ensures k <= |b| && c !in b[..k] && (k < |b| ==> b[k] == c)
  {
    if b == [] || b[0] == c then 0
    else
      var k := 1 + IndexOf(b[1..], c);
      assert b[..k] == [b[0]] + b[1..][..k - 1];
      k
  }

  function DecodeKeyID(s: Bytes): Result<(U64, Bytes)> {
    if s == [] then Err
    else
      match Decode64(s)
      case None => Err
      case Some(b) =>
        var k := IndexOf(b, COLON);
        if k == 0 || k == |b| then Err
        else
          match ParseUint(b[..k])
          case None => Err
          case Some(counter) => if b[k + 1..] == [] then Err else Ok((counter, b[k + 1..]))
  }

  /** What is encoded: the counter in decimal, a colon and the type. */
  lemma KeyIDIs(counter: U64, msgType: Bytes)
    ensures Decode64(EncodeKeyID(counter, msgType)) == Some(Decimal(counter) + [':' as int] + msgType)
  {
    Base64RoundTrip(Decimal(counter) + [COLON] + msgType);
  }

  /** A key ID decodes to the counter and type it was made of exactly when the type is not empty,
      whatever bytes the type contains; with an empty type it is an error. */
  lemma KeyIDRoundTripIff(counter: U64, msgType: Bytes)
    ensures DecodeKeyID(EncodeKeyID(counter, msgType)) == if msgType != [] then Ok((counter, msgType)) else Err
  {
    var d := Decimal(counter);
    var b := d + [COLON] + msgType;
    Base64RoundTrip(b);
    FirstColon(d, msgType);
    assert b[..|d|] == d && b[|d| + 1..] == msgType;
    ParseUintOfDecimal(counter);
  }

  lemma FirstColon(d: Bytes, rest: Bytes)
    requires forall i :: 0 <= i < |d| ==> IsDigit(d[i])
    ensures IndexOf(d + [COLON] + rest, COLON) == |d|
  {
    var b := d + [COLON] + rest;
    assert b[|d|] == COLON;
    assert forall i :: 0 <= i < |d| ==> b[i] == d[i];
  }
}
