/** Chunked transfer of a chat file: the two peers' session keys, the server's answer to one request,
    and the client's loop. AEAD, key exchange, key derivation and the chunk nonce are function
    values of which only the algebraic laws are known. */
module FileFetch {
  import opened Basics
  import opened Text

  const CHUNK: nat := 0x10_0000

  datatype Crypto = Crypto(
    seal: (Bytes, Bytes, Bytes, string) -> Bytes,
    open: (Bytes, Bytes, Bytes, string) -> Option<Bytes>,
    public: Bytes -> Bytes,
    shared: (Bytes, Bytes) -> Bytes,
    derive: Bytes -> (Bytes, Bytes),
    chunkNonce: (string, U64) -> Bytes)

  /** A sealed message opens under the same key, nonce and associated data, and is never empty; the
      shared secret is the same from both sides. */
  ghost predicate Lawful(c: Crypto) {
    && (forall k, n, p, a :: c.open(k, n, c.seal(k, n, p, a), a) == Some(p))
    && (forall k, n, p, a :: c.seal(k, n, p, a) != [])
    && (forall x, y :: c.shared(x, c.public(y)) == c.shared(y, c.public(x)))
  }

  // ----- session keys -----

  datatype Session = Session(sendKey: Bytes, recvKey: Bytes)

  /** `deriveSessionState`: which derived key sends is decided by the order of the peer IDs. */
  function DeriveSession(c: Crypto, local: string, remote: string, localPriv: Bytes, remotePub: Bytes): Session {
    var (k1, k2) := c.derive(c.shared(localPriv, remotePub));
    if Less(local, remote) then Session(k1, k2) else Session(k2, k1)
  }

  /** The peer with the smaller ID sends under the first derived key and receives under the second, the other the
      other way round. */
  lemma SmallerSendsFirst(c: Crypto, a: string, b: string, aPriv: Bytes, bPub: Bytes)
    requires a != b
    ensures var (k1, k2) := c.derive(c.shared(aPriv, bPub));
            var s := DeriveSession(c, a, b, aPriv, bPub);
            if Less(a, b) then s.sendKey == k1 && s.recvKey == k2 else Less(b, a) && s.sendKey == k2 && s.recvKey == k1
  {
    LessTotal(a, b);
  }

  /** Each peer receives under the key the other sends under, exactly when the peers differ (or the
      two derived keys coincide). */
  lemma KeysMirrorIff(c: Crypto, a: string, b: string, aPriv: Bytes, bPriv: Bytes)
    requires Lawful(c)
    ensures var s, t := DeriveSession(c, a, b, aPriv, c.public(bPriv)), DeriveSession(c, b, a, bPriv, c.public(aPriv));
            (s.sendKey == t.recvKey && s.recvKey == t.sendKey)
            <==> a != b || c.derive(c.shared(aPriv, c.public(bPriv))).0 == c.derive(c.shared(aPriv, c.public(bPriv))).1
  {
    LessTotal(a, b);
    assert c.shared(aPriv, c.public(bPriv)) == c.shared(bPriv, c.public(aPriv));
  }

  // ----- server -----

  datatype Response = Response(
    conversation: string, msgID: string, offset: U64, fileSize: int, eof: bool, ciphertext: Bytes, error: string)

  function Associated(conversation: string): string {
    conversation + "\U{0}chat_file_fetch"
  }

  /** The server's answer to a request for the file message `msgID`, once it has accepted the
      requester. */
  function Serve(
      c: Crypto, sendKey: Bytes, conversation: string, msgID: string, blob: Bytes, offset: U64, chunkSize: int)
    : Response
  {
    var size := if chunkSize <= 0 || chunkSize > CHUNK then CHUNK else chunkSize;
    if offset > |blob| then Response(conversation, msgID, offset, |blob|, false, [], "file offset out of range")
    else if offset == |blob| then Response(conversation, msgID, offset, |blob|, true, [], "")
    else
      var end := if offset + size > |blob| then |blob| else offset + size;
      Response(conversation, msgID, offset, |blob|, end >= |blob|,
               c.seal(sendKey, c.chunkNonce(msgID, offset), blob[offset..end], Associated(conversation)), "")
  }

  /** Every answer names the file, its size and the offset asked for. Beyond the end it is an error, at the end
      empty and final; inside it holds the sealed bytes from the offset on, as many as asked for if that is between
      1 byte and 1 MiB, otherwise 1 MiB, and is final exactly if they reach the end. */
  lemma ServeIs(
      c: Crypto, sendKey: Bytes, conversation: string, msgID: string, blob: Bytes, offset: U64, chunkSize: int)
    ensures var r := Serve(c, sendKey, conversation, msgID, blob, offset, chunkSize);
            var size := if 1 <= chunkSize <= 1_048_576 then chunkSize else 1_048_576;
            && r.conversation == conversation && r.msgID == msgID && r.offset == offset && r.fileSize == |blob|
            && (r.error != "" <==> offset > |blob|) && (r.eof <==> offset <= |blob| <= offset + size)
            && (offset >= |blob| ==> r.ciphertext == [])
            && (offset < |blob| <= offset + size ==>
                r.ciphertext == c.seal(sendKey, c.chunkNonce(msgID, offset), blob[offset..], Associated(conversation)))
            && (offset + size < |blob| ==>
                r.ciphertext
                == c.seal(sendKey, c.chunkNonce(msgID, offset), blob[offset..offset + size], Associated(conversation)))
  {
    if offset <= |blob| {
      assert blob[offset..|blob|] == blob[offset..];
    }
  }

  // ----- client -----

  datatype Client = Client(crypto: Crypto, recvKey: Bytes, conversation: string, msgID: string)

  /** What one answer does to the client's loop: an error, the end, or another request. */
  datatype Verdict = Bad | End(last: Bytes) | More(chunk: Bytes)

  function Judge(c: Client, resp: Option<Response>, offset: U64, expected: int): Verdict {
    if resp.None? || resp.value.error != "" then Bad
    else
      var r := resp.value;
      if r.conversation != c.conversation || r.msgID != c.msgID || r.offset != offset then Bad
      else if r.fileSize > 0 && expected > 0 && r.fileSize != expected then Bad
      else if r.ciphertext == [] then
        if r.eof && r.fileSize == 0 && offset == 0 then End([]) else Bad
      else
        match c.crypto.open(c.recvKey, c.crypto.chunkNonce(c.msgID, r.offset), r.ciphertext, Associated(c.conversation))
        case None => Bad
        case Some(plain) => if r.eof then End(plain) else if plain == [] then Bad else More(plain)
  }

  function Expect(expected: int, resp: Option<Response>): int {
    if expected == 0 && resp.Some? && resp.value.fileSize > 0 then resp.value.fileSize else expected
  }

  /** The client's loop over the answers it gets from answer `i` on (`None`: the request failed),
      and how many it used. */
  function FetchFrom(
        c: Client, answers: seq<Option<Response>>, i: nat, out: Bytes, offset: U64, expected: int): (Result<Bytes>, nat)
    requires i <= |answers|
    decreases |answers| - i
  {
    if i == |answers| then (Err, i)
    else
      var expected' := Expect(expected, answers[i]);
      match Judge(c, answers[i], offset, expected)
      case Bad => (Err, i + 1)
      case End(last) => (if expected' > 0 && |out + last| != expected' then Err else Ok(out + last), i + 1)
      case More(chunk) => FetchFrom(c, answers, i + 1, out + chunk, (offset + |chunk|) % TWO64, expected')
  }

  /** `fetchChatFile`'s loop. */
  method FetchChatFile(c: Client, answers: seq<Option<Response>>) returns (r: Result<Bytes>, used: nat)
    ensures (r, used) == FetchFrom(c, answers, 0, [], 0, 0)
  {
    var out: Bytes, offset: U64, expected: int := [], 0, 0;
    used := 0;
    while used < |answers|
      invariant 0 <= used <= |answers|
      invariant FetchFrom(c, answers, 0, [], 0, 0) == FetchFrom(c, answers, used, out, offset, expected)
    {
      var resp := answers[used];
      used := used + 1;
      if resp.None? || resp.value.error != "" {
        return Err, used;
      }
      var v := resp.value;
      if v.conversation != c.conversation || v.msgID != c.msgID || v.offset != offset {
        return Err, used;
      }
      if expected == 0 && v.fileSize > 0 {
        expected := v.fileSize;
      } else if v.fileSize > 0 && expected > 0 && v.fileSize != expected {
        return Err, used;
      }
      var plain: Bytes := [];
      if v.ciphertext == [] {
        if !(v.eof && v.fileSize == 0 && offset == 0) {
          return Err, used;
        }
      } else {
        var decrypted := c.crypto.open(c.recvKey, c.crypto.chunkNonce(c.msgID, v.offset), v.ciphertext,
            Associated(c.conversation));
        if decrypted.None? {
          return Err, used;
        }
        plain := decrypted.value;
      }
      out := out + plain;
      if v.eof {
        return if expected > 0 && |out| != expected then Err else Ok(out), used;
      }
      if plain == [] {
        return Err, used;
      }
      offset := (offset + |plain|) % TWO64;
    }
    r := Err;
  }

  // ----- any responder -----

  /** Whatever the responder does, a fetch that succeeds returns as many bytes as any answer it used
      advertised, so all sizes advertised agree. */
  lemma {:induction false} SuccessHasAdvertisedSize(
      c: Client, answers: seq<Option<Response>>, i: nat, out: Bytes, offset: U64, expected: int, j: nat)
    requires i <= |answers| && expected >= 0
    ensures var (r, used) := FetchFrom(c, answers, i, out, offset, expected);
            && i <= used <= |answers|
            && (r.Ok? && expected > 0 ==> |r.value| == expected)
            && (r.Ok? && i <= j < used ==>
                answers[j].Some? && (answers[j].value.fileSize > 0 ==> |r.value| == answers[j].value.fileSize))
    decreases |answers| - i
  {
    if i < |answers| {
      var expected' := Expect(expected, answers[i]);
      match Judge(c, answers[i], offset, expected)
      case Bad =>
      case End(last) =>
      case More(chunk) =>
        SuccessHasAdvertisedSize(c, answers, i + 1, out + chunk, (offset + |chunk|) % TWO64, expected', j);
    }
  }

  /** What an answer carries, once opened with the nonce of its own offset. */
  function Carried(c: Client, answer: Option<Response>): Bytes {
    if answer.None? || answer.value.ciphertext == [] then []
    else
      match c.crypto.open(c.recvKey, c.crypto.chunkNonce(c.msgID, answer.value.offset), answer.value.ciphertext,
                          c.conversation + "\U{0}chat_file_fetch")
      case None => []
      case Some(plain) => plain
  }

  function CarriedBy(c: Client, answers: seq<Option<Response>>, i: nat, j: nat): Bytes
    requires i <= j <= |answers|
    decreases j - i
  {
    if i == j then [] else Carried(c, answers[i]) + CarriedBy(c, answers, i + 1, j)
  }

  /** The answer is for this file at this offset, without an error. */
  predicate Fitting(c: Client, answer: Option<Response>, offset: int) {
    && answer.Some? && answer.value.error == ""
    && answer.value.conversation == c.conversation && answer.value.msgID == c.msgID && answer.value.offset == offset
  }

  /** An answer for another conversation, message or offset, or with an error, makes the fetch fail at once. */
  lemma MisfitFails(c: Client, answers: seq<Option<Response>>, i: nat, out: Bytes, offset: U64, expected: int)
    requires i < |answers|
    requires || answers[i].None? || answers[i].value.error != "" || answers[i].value.conversation != c.conversation
             || answers[i].value.msgID != c.msgID || answers[i].value.offset != offset
    ensures FetchFrom(c, answers, i, out, offset, expected) == (Err, i + 1)
  {
  }

  /** The answer's ciphertext opens, or is empty where that means an empty file. */
  predicate Readable(c: Client, answer: Option<Response>, offset: int) {
    answer.Some? &&
      if answer.value.ciphertext == [] then answer.value.eof && answer.value.fileSize == 0 && offset == 0
      else c.crypto.open(c.recvKey, c.crypto.chunkNonce(c.msgID, answer.value.offset), answer.value.ciphertext,
                         Associated(c.conversation)).Some?
  }

  /** Answer `j` is what a fetch that started at `i` and uses the answers before `u` needs there: for this file at the
      offset reached, readable, the end exactly if it is the last, not empty before that, and of the size `total` if it
      names one. */
  predicate Good(c: Client, answers: seq<Option<Response>>, i: nat, u: nat, offset: int, total: int, j: nat)
    requires i <= j < u <= |answers|
  {
    var at := (offset + |CarriedBy(c, answers, i, j)|) % TWO64;
    && Fitting(c, answers[j], at) && Readable(c, answers[j], at)
    && (answers[j].value.eof <==> j + 1 == u)
    && (j + 1 < u ==> Carried(c, answers[j]) != [])
    && (answers[j].value.fileSize > 0 ==> answers[j].value.fileSize == total)
  }

  ghost predicate AllGood(c: Client, answers: seq<Option<Response>>, i: nat, u: nat, offset: int, total: int)
    requires i <= u <= |answers|
  {
    forall j :: i <= j < u ==> Good(c, answers, i, u, offset, total, j)
  }

  /** Whatever the responder does: a fetch succeeds with `u` answers exactly if all of them are good, and then returns
      what they carry, one after the other, which has every size advertised. */
  lemma SucceedsIff(c: Client, answers: seq<Option<Response>>, u: nat)
    requires 0 < u <= |answers|
    ensures var whole := CarriedBy(c, answers, 0, u);
            && (FetchFrom(c, answers, 0, [], 0, 0).0.Ok? && FetchFrom(c, answers, 0, [], 0, 0).1 == u <==>
                AllGood(c, answers, 0, u, 0, |whole|))
            && (AllGood(c, answers, 0, u, 0, |whole|) ==> FetchFrom(c, answers, 0, [], 0, 0) == (Ok(whole), u))
  {
    SucceedsFromIff(c, answers, 0, [], 0, 0, u);
    assert [] + CarriedBy(c, answers, 0, u) == CarriedBy(c, answers, 0, u);
  }

  lemma {:induction false} SucceedsFromIff(
      c: Client, answers: seq<Option<Response>>, i: nat, out: Bytes, offset: U64, expected: int, u: nat)
    requires i < u <= |answers| && expected >= 0
    ensures var (r, used) := FetchFrom(c, answers, i, out, offset, expected);
            var whole := out + CarriedBy(c, answers, i, u);
            && (r.Ok? && used == u <==>
                AllGood(c, answers, i, u, offset, |whole|) && (expected > 0 ==> |whole| == expected))
            && (r.Ok? && used == u ==> r.value == whole)
    decreases u - i
  {
    var expected' := Expect(expected, answers[i]);
    match Judge(c, answers[i], offset, expected)
    case Bad => BadIsNotGood(c, answers, i, out, offset, expected, u);
    case End(last) => EndsIff(c, answers, i, out, offset, expected, u);
    case More(chunk) =>
      if i + 1 < u {
        SucceedsFromIff(c, answers, i + 1, out + chunk, (offset + |chunk|) % TWO64, expected', u);
        GoodFromNext(c, answers, i, out, offset, expected, u);
      } else {
        MoreIsNotLast(c, answers, i, out, offset, expected);
      }
  }

  lemma FirstGood(c: Client, answers: seq<Option<Response>>, i: nat, u: nat, offset: U64, total: int)
    requires i < u <= |answers| && AllGood(c, answers, i, u, offset, total)
    ensures Good(c, answers, i, u, offset, total, i)
    ensures Fitting(c, answers[i], offset) && Readable(c, answers[i], offset)
  {
    assert CarriedBy(c, answers, i, i) == [];
  }

  lemma BadIsNotGood(
      c: Client, answers: seq<Option<Response>>, i: nat, out: Bytes, offset: U64, expected: int, u: nat)
    requires i < u <= |answers| && expected >= 0 && Judge(c, answers[i], offset, expected).Bad?
    ensures var whole := out + CarriedBy(c, answers, i, u);
            !(AllGood(c, answers, i, u, offset, |whole|) && (expected > 0 ==> |whole| == expected))
  {
    var whole := out + CarriedBy(c, answers, i, u);
    if AllGood(c, answers, i, u, offset, |whole|) && (expected > 0 ==> |whole| == expected) {
      FirstGood(c, answers, i, u, offset, |whole|);
    }
  }

  lemma EndsIff(c: Client, answers: seq<Option<Response>>, i: nat, out: Bytes, offset: U64, expected: int, u: nat)
    requires i < u <= |answers| && expected >= 0 && Judge(c, answers[i], offset, expected).End?
    ensures var (r, used) := FetchFrom(c, answers, i, out, offset, expected);
            var whole := out + CarriedBy(c, answers, i, u);
            && (r.Ok? && used == u <==>
                AllGood(c, answers, i, u, offset, |whole|) && (expected > 0 ==> |whole| == expected))
            && (r.Ok? && used == u ==> r.value == whole)
  {
    var whole := out + CarriedBy(c, answers, i, u);
    assert Judge(c, answers[i], offset, expected) == End(Carried(c, answers[i]));
    if u == i + 1 {
      assert CarriedBy(c, answers, i, u) == Carried(c, answers[i]) + [];
      assert CarriedBy(c, answers, i, i) == [];
      assert AllGood(c, answers, i, u, offset, |whole|) <==> Good(c, answers, i, u, offset, |whole|, i);
    } else if AllGood(c, answers, i, u, offset, |whole|) {
      FirstGood(c, answers, i, u, offset, |whole|);
    }
  }

  lemma MoreIsNotLast(c: Client, answers: seq<Option<Response>>, i: nat, out: Bytes, offset: U64, expected: int)
    requires i < |answers| && expected >= 0 && Judge(c, answers[i], offset, expected).More?
    ensures var (r, used) := FetchFrom(c, answers, i, out, offset, expected);
            && !(r.Ok? && used == i + 1)
            && !AllGood(c, answers, i, i + 1, offset, |out + CarriedBy(c, answers, i, i + 1)|)
  {
    var whole := out + CarriedBy(c, answers, i, i + 1);
    if AllGood(c, answers, i, i + 1, offset, |whole|) {
      FirstGood(c, answers, i, i + 1, offset, |whole|);
    }
    var chunk := Judge(c, answers[i], offset, expected).chunk;
    UsesMore(c, answers, i + 1, out + chunk, (offset + |chunk|) % TWO64, Expect(expected, answers[i]));
  }

  lemma {:induction false} UsesMore(
      c: Client, answers: seq<Option<Response>>, i: nat, out: Bytes, offset: U64, expected: int)
    requires i <= |answers|
    ensures var (r, used) := FetchFrom(c, answers, i, out, offset, expected); used >= i && (r.Ok? ==> used > i)
    decreases |answers| - i
  {
    if i < |answers| && Judge(c, answers[i], offset, expected).More? {
      var chunk := Judge(c, answers[i], offset, expected).chunk;
      UsesMore(c, answers, i + 1, out + chunk, (offset + |chunk|) % TWO64, Expect(expected, answers[i]));
    }
  }

  /** A later answer is as good counted from the next one on. */
  lemma GoodShifts(c: Client, answers: seq<Option<Response>>, i: nat, u: nat, offset: U64, total: int, j: nat)
    requires i < j < u <= |answers|
    ensures Good(c, answers, i, u, offset, total, j)
            <==> Good(c, answers, i + 1, u, (offset + |Carried(c, answers[i])|) % TWO64, total, j)
  {
    WrapOn(offset, |Carried(c, answers[i])|, |CarriedBy(c, answers, i + 1, j)|);
  }

  /** After a good answer that is not the last, the rest is good for the whole exactly if it is good for itself. */
  lemma GoodFromNext(
      c: Client, answers: seq<Option<Response>>, i: nat, out: Bytes, offset: U64, expected: int, u: nat)
    requires i + 1 < u <= |answers| && expected >= 0 && Judge(c, answers[i], offset, expected).More?
    ensures var chunk, expected' := Judge(c, answers[i], offset, expected).chunk, Expect(expected, answers[i]);
            var whole := out + CarriedBy(c, answers, i, u);
            && whole == (out + chunk) + CarriedBy(c, answers, i + 1, u)
            && (AllGood(c, answers, i, u, offset, |whole|) && (expected > 0 ==> |whole| == expected) <==>
                AllGood(c, answers, i + 1, u, (offset + |chunk|) % TWO64, |whole|)
                && (expected' > 0 ==> |whole| == expected'))
  {
    var chunk, expected' := Judge(c, answers[i], offset, expected).chunk, Expect(expected, answers[i]);
    var whole := out + CarriedBy(c, answers, i, u);
    assert chunk == Carried(c, answers[i]);
    assert whole == (out + chunk) + CarriedBy(c, answers, i + 1, u);
    assert CarriedBy(c, answers, i, i) == [];
    var next, k := (offset + |chunk|) % TWO64, i + 1;
    if AllGood(c, answers, i, u, offset, |whole|) {
      FirstGood(c, answers, i, u, offset, |whole|);
      forall j | k <= j < u ensures Good(c, answers, k, u, next, |whole|, j) {
        assert Good(c, answers, i, u, offset, |whole|, j);
        GoodShifts(c, answers, i, u, offset, |whole|, j);
      }
    }
    if AllGood(c, answers, i + 1, u, next, |whole|) && (expected' > 0 ==> |whole| == expected') {
      forall j | i <= j < u ensures Good(c, answers, i, u, offset, |whole|, j) {
        if j > i {
          assert Good(c, answers, i + 1, u, next, |whole|, j);
          GoodShifts(c, answers, i, u, offset, |whole|, j);
        }
      }
    }
  }

  lemma WrapOn(a: int, b: int, c: int)
    ensures ((a + b) % TWO64 + c) % TWO64 == (a + (b + c)) % TWO64
  {
  }

  // ----- the honest server -----

  /** `max(1, ceil(n / CHUNK))`. */
  function Requests(n: nat): nat {
    if n == 0 then 1 else (n + CHUNK - 1) / CHUNK
  }

  /** The first `Requests(|blob|)` answers are the server's, for the offsets the client asks for. */
  ghost predicate Honest(c: Client, sendKey: Bytes, blob: Bytes, answers: seq<Option<Response>>) {
    && |blob| < TWO64 && |answers| >= Requests(|blob|)
    && forall j :: 0 <= j < Requests(|blob|) ==>
         answers[j] == Some(Serve(c.crypto, sendKey, c.conversation, c.msgID, blob, ChunkStart(blob, j), CHUNK))
  }

  /** Where chunk `j` starts. */
  function ChunkStart(blob: Bytes, j: nat): U64
    requires |blob| < TWO64
  {
    if j * CHUNK <= |blob| then j * CHUNK else |blob|
  }

  /** The chunks before the last are whole, and the last one ends the blob. */
  lemma ChunkBounds(n: nat, j: nat)
    requires 0 < n && j < Requests(n)
    ensures j * CHUNK < n && (j + 1 == Requests(n) <==> j * CHUNK + CHUNK >= n)
  {
  }

  /** One answer of the server at an offset inside the blob. */
  lemma JudgeServed(c: Client, sendKey: Bytes, blob: Bytes, offset: U64, expected: int)
    requires Lawful(c.crypto) && sendKey == c.recvKey && offset < |blob| < TWO64 && expected in {0, |blob|}
    ensures var answer := Some(Serve(c.crypto, sendKey, c.conversation, c.msgID, blob, offset, CHUNK));
            && Judge(c, answer, offset, expected)
               == (if offset + CHUNK >= |blob| then End(blob[offset..]) else More(blob[offset..offset + CHUNK]))
            && Expect(expected, answer) == |blob|
  {
  }

  /** One honest answer: the chunk, and the end exactly at the last one. */
  lemma JudgeHonest(c: Client, sendKey: Bytes, blob: Bytes, answers: seq<Option<Response>>, j: nat, expected: int)
    requires Lawful(c.crypto) && sendKey == c.recvKey && Honest(c, sendKey, blob, answers)
    requires blob != [] && j < Requests(|blob|) && expected in {0, |blob|}
    ensures j * CHUNK < |blob| && (j + 1 < Requests(|blob|) ==> j * CHUNK + CHUNK < |blob|)
    ensures Judge(c, answers[j], j * CHUNK, expected)
            == if j + 1 == Requests(|blob|) then End(blob[j * CHUNK..])
               else More(blob[j * CHUNK..j * CHUNK + CHUNK])
    ensures Expect(expected, answers[j]) == |blob|
  {
    ChunkBounds(|blob|, j);
    JudgeServed(c, sendKey, blob, j * CHUNK, expected);
  }

  /** The last chunk completes the blob. */
  lemma FetchEnd(c: Client, blob: Bytes, answers: seq<Option<Response>>, j: nat, o: U64, expected: int)
    requires j < |answers| && o <= |blob| && Expect(expected, answers[j]) == |blob|
    requires Judge(c, answers[j], o, expected) == End(blob[o..])
    ensures FetchFrom(c, answers, j, blob[..o], o, expected) == (Ok(blob), j + 1)
  {
    assert blob[..o] + blob[o..] == blob;
  }

  /** Any other chunk moves the loop on by its length. */
  lemma FetchMore(c: Client, blob: Bytes, answers: seq<Option<Response>>, j: nat, o: U64, expected: int)
    requires j < |answers| && o + CHUNK < |blob| < TWO64 && Expect(expected, answers[j]) == |blob|
    requires Judge(c, answers[j], o, expected) == More(blob[o..o + CHUNK])
    ensures FetchFrom(c, answers, j, blob[..o], o, expected)
            == FetchFrom(c, answers, j + 1, blob[..o + CHUNK], o + CHUNK, |blob|)
  {
    assert blob[..o] + blob[o..o + CHUNK] == blob[..o + CHUNK];
  }

  /** The client, with the server's key and honest answers, is about to ask for chunk `j` at offset `o`. */
  ghost predicate AtChunk(
      c: Client, sendKey: Bytes, blob: Bytes, answers: seq<Option<Response>>, j: nat, o: U64, expected: int)
  {
    && Lawful(c.crypto) && sendKey == c.recvKey && Honest(c, sendKey, blob, answers)
    && blob != [] && j < Requests(|blob|) && expected in {0, |blob|} && o == j * CHUNK <= |blob|
  }

  /** One round of the client's loop. */
  lemma HonestRound(
        c: Client, sendKey: Bytes, blob: Bytes, answers: seq<Option<Response>>, j: nat, o: U64, expected: int)
    requires AtChunk(c, sendKey, blob, answers, j, o, expected)
    ensures if j + 1 == Requests(|blob|)
            then FetchFrom(c, answers, j, blob[..o], o, expected) == (Ok(blob), j + 1)
            else
              && AtChunk(c, sendKey, blob, answers, j + 1, o + CHUNK, |blob|)
              && FetchFrom(c, answers, j, blob[..o], o, expected)
                 == FetchFrom(c, answers, j + 1, blob[..o + CHUNK], o + CHUNK, |blob|)
  {
    JudgeHonest(c, sendKey, blob, answers, j, expected);
    if j + 1 == Requests(|blob|) {
      FetchEnd(c, blob, answers, j, o, expected);
    } else {
      FetchMore(c, blob, answers, j, o, expected);
    }
  }

  lemma {:induction false} HonestFetchFrom(
        c: Client, sendKey: Bytes, blob: Bytes, answers: seq<Option<Response>>, j: nat, o: U64, expected: int)
    requires AtChunk(c, sendKey, blob, answers, j, o, expected)
    ensures FetchFrom(c, answers, j, blob[..o], o, expected) == (Ok(blob), Requests(|blob|))
    decreases Requests(|blob|) - j
  {
    HonestRound(c, sendKey, blob, answers, j, o, expected);
    if j + 1 != Requests(|blob|) {
      HonestFetchFrom(c, sendKey, blob, answers, j + 1, o + CHUNK, |blob|);
    }
  }

  /** Between peers with derived sessions, every blob is fetched byte for byte, in
      `max(1, ceil(len / 1 MiB))` requests. */
  lemma HonestFetch(crypto: Crypto, client: string, server: string, clientPriv: Bytes, serverPriv: Bytes,
                    conversation: string, msgID: string, blob: Bytes, answers: seq<Option<Response>>)
    requires Lawful(crypto) && client != server
    requires Honest(
               Client(crypto, DeriveSession(crypto, client, server, clientPriv, crypto.public(serverPriv)).recvKey,
                      conversation, msgID),
               DeriveSession(crypto, server, client, serverPriv, crypto.public(clientPriv)).sendKey, blob, answers)
    ensures FetchFrom(
              Client(crypto, DeriveSession(crypto, client, server, clientPriv, crypto.public(serverPriv)).recvKey,
                     conversation, msgID),
              answers, 0, [], 0, 0) == (Ok(blob), Requests(|blob|))
  {
    KeysMirrorIff(crypto, client, server, clientPriv, serverPriv);
    var recvKey := DeriveSession(crypto, client, server, clientPriv, crypto.public(serverPriv)).recvKey;
    var sendKey := DeriveSession(crypto, server, client, serverPriv, crypto.public(clientPriv)).sendKey;
    var c := Client(crypto, recvKey, conversation, msgID);
    if blob == [] {
      assert answers[0] == Some(Serve(crypto, sendKey, conversation, msgID, blob, ChunkStart(blob, 0), CHUNK));
    } else {
      HonestFetchFrom(c, sendKey, blob, answers, 0, 0, 0);
      assert blob[..0] == [];
    }
  }
}
