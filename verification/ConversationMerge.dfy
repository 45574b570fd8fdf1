/** Merging the conversation rows a legacy database may hold for one peer: the transaction that moves
    a conversation to another ID across five tables, the loops that use it, and what they keep. */
module ConversationMerge {
  import opened Basics
  import opened Text
  import opened Encodings

  type ID = string
  type Peer = string

  datatype Row = Row(peer: Peer, preview: string)

  /** The tables that name conversations: rows and sessions by conversation, and the conversation of
      each message, revoke job and friend request. */
  datatype DB = DB(
    convs: map<ID, Row>, sessions: map<ID, string>,
    messages: map<string, ID>, jobs: map<string, ID>, requests: map<string, ID>)

  /** `UPDATE ... SET conversation_id = k WHERE conversation_id IN gone`. */
  function Redirect(m: map<string, ID>, gone: set<ID>, k: ID): map<string, ID> {
    map x | x in m :: if m[x] in gone then k else m[x]
  }

  /** The transaction, for IDs that are already trimmed, different and not empty. */
  function Moved(db: DB, from: ID, to: ID): DB
    requires from in db.convs
  {
    DB(db.convs[to := db.convs[from]] - {from},
       (if from in db.sessions then db.sessions[to := db.sessions[from]] else db.sessions) - {from},
       Redirect(db.messages, {from}, to), Redirect(db.jobs, {from}, to), Redirect(db.requests, {from}, to))
  }

  /** `MigrateConversationID`: the new tables and whether there was no error. */
  function Migrated(db: DB, from: ID, to: ID): (DB, bool) {
    var f, t := TrimSpace(from), TrimSpace(to);
    if f == "" || t == "" || f == t then (db, true)
    else if f !in db.convs then (db, false)
    else (Moved(db, f, t), true)
  }

  function RowsOf(db: DB, p: Peer): set<ID> {
    set c | c in db.convs && db.convs[c].peer == p
  }

  function PeerOf(db: DB, msg: string): Option<Peer> {
    if msg in db.messages && db.messages[msg] in db.convs then Some(db.convs[db.messages[msg]].peer) else None
  }

  // ----- what one migration keeps -----

  /** Migrating between two existing rows keeps every message with its peer exactly when the two
      rows are of the same peer or no message sits in the target. */
  lemma MigrateKeepsPeersIff(db: DB, from: ID, to: ID)
    requires from in db.convs && to in db.convs && from != to
    ensures (forall m :: m in db.messages ==> PeerOf(Moved(db, from, to), m) == PeerOf(db, m))
            <==> db.convs[from].peer == db.convs[to].peer || forall m :: m in db.messages ==> db.messages[m] != to
  {
  }

  /** Rows whose ID has surrounding space are as they were. */
  ghost predicate UncleanKept(a: map<ID, Row>, b: map<ID, Row>) {
    forall c :: c in a && !Clean(c) ==> c in b && b[c] == a[c]
  }

  /** A row whose ID has surrounding space is never moved nor overwritten, because both IDs are
      trimmed first. */
  lemma MigrateSkipsUnclean(db: DB, from: ID, to: ID)
    ensures UncleanKept(db.convs, Migrated(db, from, to).0.convs)
  {
    TrimSpaceClean(from);
    TrimSpaceClean(to);
  }

  /** No message, revoke job or request is lost or added. */
  ghost predicate SameIDs(a: DB, b: DB) {
    a.messages.Keys == b.messages.Keys && a.jobs.Keys == b.jobs.Keys && a.requests.Keys == b.requests.Keys
  }

  lemma MigrateKeepsIDs(db: DB, from: ID, to: ID)
    ensures SameIDs(db, Migrated(db, from, to).0)
  {
  }

  // ----- merging one peer's rows -----

  ghost predicate SessionsMoved(a: map<ID, string>, b: map<ID, string>, gone: set<ID>, k: ID) {
    && (forall c :: c != k && c !in gone ==> (c in b <==> c in a) && (c in a && c in b ==> b[c] == a[c]))
    && (forall c :: c in gone ==> c !in b)
    && (k in b <==> k in a || exists c :: c in gone && c in a)
  }

  ghost predicate RowsMoved(a: map<ID, Row>, b: map<ID, Row>, p: Peer, gone: set<ID>, k: ID) {
    && b.Keys == a.Keys - gone + {k}
    && (forall c :: c in b && c != k ==> b[c] == a[c])
    && b[k].peer == p
  }

  /** From `a` to `b` the conversations `gone`, all of peer `p`, have been merged into `k`. */
  ghost predicate Merged(a: DB, b: DB, p: Peer, gone: set<ID>, k: ID) {
    && k !in gone
    && RowsMoved(a.convs, b.convs, p, gone, k)
    && SessionsMoved(a.sessions, b.sessions, gone, k)
    && b.messages == Redirect(a.messages, gone, k)
    && b.jobs == Redirect(a.jobs, gone, k)
    && b.requests == Redirect(a.requests, gone, k)
  }

  lemma RedirectMore(m: map<string, ID>, gone: set<ID>, k: ID, id: ID)
    requires k !in gone && id != k
    ensures Redirect(Redirect(m, gone, k), {id}, k) == Redirect(m, gone + {id}, k)
  {
  }

  lemma RedirectOn(m: map<string, ID>, gone: set<ID>, k: ID, d: ID)
    requires k !in gone && d !in gone && d != k
    ensures Redirect(Redirect(m, gone, k), {k}, d) == Redirect(m, gone + {k}, d)
  {
  }

  /** One more of the peer's rows goes into the keeper. */
  lemma MergedMore(a: DB, b: DB, p: Peer, gone: set<ID>, k: ID, id: ID)
    requires Merged(a, b, p, gone, k) && k in a.convs
    requires id in b.convs && id != k && b.convs[id].peer == p && Clean(id) && Clean(k)
    ensures Migrated(b, id, k).1 && Merged(a, Migrated(b, id, k).0, p, gone + {id}, k)
  {
    TrimSpaceClean(id);
    TrimSpaceClean(k);
    RedirectMore(a.messages, gone, k, id);
    RedirectMore(a.jobs, gone, k, id);
    RedirectMore(a.requests, gone, k, id);
  }

  /** The keeper itself goes to an ID nobody has a row at. */
  lemma MergedOn(a: DB, b: DB, p: Peer, gone: set<ID>, k: ID, d: ID)
    requires Merged(a, b, p, gone, k) && k in a.convs
    requires d !in a.convs && d != k && d !in gone && Clean(k) && Clean(d)
    ensures Migrated(b, k, d).1 && Merged(a, Migrated(b, k, d).0, p, gone + {k}, d)
  {
    TrimSpaceClean(k);
    TrimSpaceClean(d);
    RedirectOn(a.messages, gone, k, d);
    RedirectOn(a.jobs, gone, k, d);
    RedirectOn(a.requests, gone, k, d);
  }

  // ----- all peers -----

  function Peers(db: DB): set<Peer> {
    set c | c in db.convs :: db.convs[c].peer
  }

  /** Stable IDs are clean, differ between peers, and no row at one belongs to another peer. */
  ghost predicate StableIDs(db: DB, stable: Peer -> ID) {
    && (forall p :: p in Peers(db) ==> Clean(stable(p)))
    && (forall p, q :: p in Peers(db) && q in Peers(db) && stable(p) == stable(q) ==> p == q)
    && (forall p :: p in Peers(db) && stable(p) in db.convs ==> db.convs[stable(p)].peer == p)
  }

  /** Peers with more than one row. */
  function Duplicated(db: DB): set<Peer> {
    set c, d | c in db.convs && d in db.convs && c != d && db.convs[c].peer == db.convs[d].peer :: db.convs[c].peer
  }

  /** Every row of every peer in `peers` has an ID without surrounding space. */
  ghost predicate AllClean(db: DB, peers: set<Peer>) {
    forall c :: c in db.convs && db.convs[c].peer in peers ==> Clean(c)
  }

  /** Each peer in `peers` has exactly one row, at its stable ID. */
  ghost predicate OneRowEach(db: DB, peers: set<Peer>, stable: Peer -> ID) {
    forall p :: p in peers ==> RowsOf(db, p) == {stable(p)}
  }

  /** Rows of all other peers are untouched. */
  ghost predicate OthersKept(a: DB, b: DB, peers: set<Peer>) {
    && (forall c :: c in a.convs && a.convs[c].peer !in peers ==> c in b.convs && b.convs[c] == a.convs[c])
    && (forall c :: c in b.convs && b.convs[c].peer !in peers ==> c in a.convs && b.convs[c] == a.convs[c])
  }

  /** No message is lost or added, and each stays with its peer. */
  ghost predicate MessagesKept(a: DB, b: DB) {
    && b.messages.Keys == a.messages.Keys
    && forall m :: m in a.messages && PeerOf(a, m).Some? ==> PeerOf(b, m) == PeerOf(a, m)
  }

  ghost predicate NotNamed(m: map<string, ID>, gone: set<ID>) {
    forall x :: x in m ==> m[x] !in gone
  }

  /** No session, message, revoke job or request names a conversation that was merged away. */
  ghost predicate NoneNamesGone(a: DB, b: DB) {
    var gone := a.convs.Keys - b.convs.Keys;
    && (forall c :: c in gone ==> c !in b.sessions)
    && NotNamed(b.messages, gone) && NotNamed(b.jobs, gone) && NotNamed(b.requests, gone)
  }

  /** Where a run of the merge stands once the peers in `done` have been merged. */
  ghost predicate Deduped(a: DB, b: DB, done: set<Peer>, stable: Peer -> ID) {
    && OneRowEach(b, done, stable) && OthersKept(a, b, done) && MessagesKept(a, b) && NoneNamesGone(a, b)
  }

  lemma StepOneRow(b: DB, b': DB, done: set<Peer>, p: Peer, stable: Peer -> ID)
    requires OneRowEach(b, done, stable) && (stable(p) in b.convs ==> b.convs[stable(p)].peer == p)
    requires Merged(b, b', p, RowsOf(b, p) - {stable(p)}, stable(p))
    ensures OneRowEach(b', done + {p}, stable)
  {
  }

  /** The stable ID is the peer's own, or free. */
  lemma StableStillFree(a: DB, b: DB, done: set<Peer>, p: Peer, stable: Peer -> ID)
    requires StableIDs(a, stable) && OneRowEach(b, done, stable) && OthersKept(a, b, done)
    requires p in Peers(a) && done <= Peers(a) && p !in done
    ensures stable(p) in b.convs ==> b.convs[stable(p)].peer == p
    ensures RowsOf(b, p) == RowsOf(a, p)
  {
    if stable(p) in b.convs && b.convs[stable(p)].peer in done {
      var q := b.convs[stable(p)].peer;
      assert stable(p) in RowsOf(b, q);
    }
  }

  lemma StepMessages(a: DB, b: DB, b': DB, p: Peer, d: ID)
    requires MessagesKept(a, b) && Merged(b, b', p, RowsOf(b, p) - {d}, d)
    requires d in b.convs ==> b.convs[d].peer == p
    ensures MessagesKept(a, b')
  {
  }

  lemma StepGone(a: DB, b: DB, b': DB, p: Peer, d: ID)
    requires NoneNamesGone(a, b) && Merged(b, b', p, RowsOf(b, p) - {d}, d)
    ensures NoneNamesGone(a, b')
  {
  }

  lemma DedupedNone(db: DB, stable: Peer -> ID)
    ensures Deduped(db, db, {}, stable)
  {
  }

  /** Merging one more peer. */
  lemma DedupedMore(a: DB, b: DB, b': DB, done: set<Peer>, p: Peer, stable: Peer -> ID)
    requires StableIDs(a, stable) && Deduped(a, b, done, stable)
    requires p in Peers(a) && done <= Peers(a) && p !in done
    requires Merged(b, b', p, RowsOf(b, p) - {stable(p)}, stable(p))
    ensures Deduped(a, b', done + {p}, stable)
  {
    StableStillFree(a, b, done, p, stable);
    StepOneRow(b, b', done, p, stable);
    StepMessages(a, b, b', p, stable(p));
    StepGone(a, b, b', p, stable(p));
  }

  // ----- stable IDs -----

  const NUL: char := '\0'

  /** The bytes that are hashed: the two peers in order, separated by a NUL. */
  function StableInput(a: Peer, b: Peer): string {
    if Less(b, a) then b + [NUL] + a else a + [NUL] + b
  }

  /** `deriveStableConversationID`, with the hash as a function value. */
  function StableID(hash: string -> string, a: Peer, b: Peer): ID {
    "stable_v1:" + hash("stable_v1:" + StableInput(a, b))
  }

  /** No collisions, and hexadecimal output. */
  ghost predicate GoodHash(hash: string -> string) {
    && (forall x, y :: hash(x) == hash(y) ==> x == y)
    && (forall x :: hash(x) != [] && forall i :: 0 <= i < |hash(x)| ==> !IsSpace(hash(x)[i]))
  }

  /** Both sides of a conversation derive the same ID. */
  lemma StableIDSymmetric(hash: string -> string, a: Peer, b: Peer)
    ensures StableID(hash, a, b) == StableID(hash, b, a)
  {
    LessTotal(a, b);
  }

  lemma StableInputInjective(local: Peer, p: Peer, q: Peer)
    requires NUL !in local && NUL !in p && NUL !in q
    requires StableInput(local, p) == StableInput(local, q)
    ensures p == q
  {
    var a, b := if Less(p, local) then p else local, if Less(p, local) then local else p;
    var c, d := if Less(q, local) then q else local, if Less(q, local) then local else q;
    TerminatedInjective(NUL, a, b, c, d);
  }

  /** The IDs one peer derives for its NUL-free correspondents are clean and all different. */
  lemma StableIDsDiffer(hash: string -> string, local: Peer, p: Peer, q: Peer)
    requires GoodHash(hash) && NUL !in local && NUL !in p && NUL !in q
    ensures Clean(StableID(hash, local, p))
    ensures StableID(hash, local, p) == StableID(hash, local, q) <==> p == q
  {
    var x, y := "stable_v1:" + StableInput(local, p), "stable_v1:" + StableInput(local, q);
    var id := StableID(hash, local, p);
    assert id[0] == 's' && id[|id| - 1] == hash(x)[|hash(x)| - 1];
    if id == StableID(hash, local, q) {
      AfterPrefix("stable_v1:", hash(x), hash(y));
      AfterPrefix("stable_v1:", StableInput(local, p), StableInput(local, q));
      StableInputInjective(local, p, q);
    }
  }

  /** With derived IDs, only a row that already sits at another peer's ID can be in the way. */
  lemma DerivedStableIDs(db: DB, hash: string -> string, local: Peer)
    requires GoodHash(hash) && NUL !in local && forall p :: p in Peers(db) ==> NUL !in p
    requires forall p :: p in Peers(db) && StableID(hash, local, p) in db.convs ==>
            db.convs[StableID(hash, local, p)].peer == p
    ensures StableIDs(db, p => StableID(hash, local, p))
  {
    forall p, q | p in Peers(db) && q in Peers(db)
      ensures Clean(StableID(hash, local, p)) && (StableID(hash, local, p) == StableID(hash, local, q) ==> p == q)
    {
      StableIDsDiffer(hash, local, p, q);
    }
  }

  // ----- the store -----

  class Store {
    var convs: map<ID, Row>
    var sessions: map<ID, string>
    var messages: map<string, ID>
    var jobs: map<string, ID>
    var requests: map<string, ID>

    ghost function Contents(): DB
      reads this
    {
      DB(convs, sessions, messages, jobs, requests)
    }

    method MigrateConversationID(from0: ID, to0: ID) returns (ok: bool)
      modifies this
      ensures (Contents(), ok) == Migrated(old(Contents()), from0, to0)
      ensures var f, t := TrimSpace(from0), TrimSpace(to0);
              && (ok <==> f == "" || t == "" || f == t || f in old(convs))
              && (f == "" || t == "" || f == t || !ok ==> Contents() == old(Contents()))
    {
      var from, to := TrimSpace(from0), TrimSpace(to0);
      if from == "" || to == "" || from == to {
        return true;
      }
      if from !in convs {
        return false;
      }
      convs := convs[to := convs[from]];
      if from in sessions {
        sessions := sessions[to := sessions[from]];
      }
      messages := Redirect(messages, {from}, to);
      jobs := Redirect(jobs, {from}, to);
      requests := Redirect(requests, {from}, to);
      sessions := sessions - {from};
      convs := convs - {from};
      ok := true;
    }

    /** The peer's rows, in some order. */
    method ListIDs(p: Peer) returns (ids: seq<ID>)
      ensures Lists(ids, RowsOf(Contents(), p))
    {
      ids := [];
      var rest := set c | c in convs && convs[c].peer == p;
      while rest != {}
        invariant rest <= RowsOf(Contents(), p) && Lists(ids, RowsOf(Contents(), p) - rest)
        decreases rest
      {
        var c :| c in rest;
        ids := ids + [c];
        rest := rest - {c};
      }
    }

    /** All rows in the list but the keeper go into the keeper; one that cannot be moved is skipped. */
    method MergeInto(ids: seq<ID>, keeper: ID)
      modifies this
      ensures Contents() == IntoKeeper(old(Contents()), ids, keeper, |ids|)
    {
      for i := 0 to |ids|
        invariant Contents() == IntoKeeper(old(Contents()), ids, keeper, i)
      {
        if ids[i] != keeper {
          var _ := MigrateConversationID(ids[i], keeper);
        }
      }
    }

    /** The rows of one peer go into the row at `desired` if there is one, else into the first, which
        then moves to `desired`. With clean IDs, every message stays with its peer exactly unless
        `desired` is another peer's row that holds a message. */
    method MergePeer(p: Peer, ids: seq<ID>, desired: ID)
      requires |ids| >= 2 && Lists(ids, RowsOf(Contents(), p))
      modifies this
      ensures UncleanKept(old(convs), convs) && SameIDs(old(Contents()), Contents())
      ensures Mergeable(old(Contents()), p, ids, desired)
              ==> && Merged(old(Contents()), Contents(), p, RowsOf(old(Contents()), p) - {desired}, desired)
                  && SessionAt(Contents(), desired) == FinalSession(old(Contents()), ids, desired)
      ensures Clean(desired) && CleanList(ids)
              ==> (MessagesKept(old(Contents()), Contents()) <==> !TakesOver(old(Contents()), p, desired))
    {
      ghost var start := Contents();
      var keeper := ids[0];
      for i := 0 to |ids|
        invariant keeper == ids[0] && desired !in ids[..i]
      {
        if ids[i] == desired {
          keeper := desired;
          break;
        }
      }
      assert ids[..|ids|] == ids;
      assert keeper == Keeper(ids, desired);
      MergeInto(ids, keeper);
      if Mergeable(start, p, ids, desired) {
        FinalSessionIs(start, p, ids, desired);
      }
      IntoKeeperKeeps(start, ids, keeper, |ids|);
      assert Listed(ids, |ids|) == RowsOf(start, p);
      if Mergeable(start, p, ids, desired) {
        IntoKeeperMerges(start, p, ids, keeper, |ids|);
      }
      if keeper != desired {
        MigrateSkipsUnclean(Contents(), keeper, desired);
        MigrateKeepsIDs(Contents(), keeper, desired);
        if Mergeable(start, p, ids, desired) {
          MergedLast(start, Contents(), p, ids, keeper, desired);
        }
        var _ := MigrateConversationID(keeper, desired);
      }
      assert Contents() == PeerMerged(start, ids, desired);
      if Clean(desired) && CleanList(ids) {
        MessagesKeptIff(start, p, ids, desired);
      }
    }

    /** The whole merge. On every table no message, job or request is lost. If the stable IDs are in
        order, it leaves one row per formerly duplicated peer, at the stable ID, exactly when none of
        their rows has an ID with surrounding space; and then messages stay with their peers,
        everything else is kept and nothing names a merged-away ID. */
    method DedupeConversationsByPeer(stable: Peer -> ID)
      modifies this
      ensures SameIDs(old(Contents()), Contents()) && UncleanKept(old(convs), convs)
      ensures StableIDs(old(Contents()), stable) ==>
                (OneRowEach(Contents(), Duplicated(old(Contents())), stable) <==>
                    AllClean(old(Contents()), Duplicated(old(Contents()))))
      ensures StableIDs(old(Contents()), stable) && AllClean(old(Contents()), Duplicated(old(Contents())))
              ==> Deduped(old(Contents()), Contents(), Duplicated(old(Contents())), stable)
    {
      ghost var start := Contents();
      var rest := Duplicated(DB(convs, sessions, messages, jobs, requests));
      ghost var dups, done := rest, {};
      ghost var clean := StableIDs(start, stable) && AllClean(start, dups);
      DedupedNone(start, stable);
      assert dups <= Peers(start);
      while rest != {}
        invariant done !! rest && done + rest == dups == Duplicated(start)
        invariant UncleanKept(start.convs, convs) && SameIDs(start, Contents())
        invariant clean ==> Deduped(start, Contents(), done, stable)
        decreases rest
      {
        var p :| p in rest;
        rest := rest - {p};
        var ids := ListIDs(p);
        if clean {
          ReadyToMerge(start, Contents(), done, p, ids, stable);
        }
        ghost var before := Contents();
        if |ids| >= 2 {
          MergePeer(p, ids, stable(p));
        }
        if clean {
          DedupedMore(start, before, Contents(), done, p, stable);
        }
        done := done + {p};
      }
      if StableIDs(start, stable) && !AllClean(start, dups) {
        UncleanRowRemains(start, Contents(), stable);
      }
    }
  }

  lemma UncleanRowRemains(a: DB, b: DB, stable: Peer -> ID)
    requires StableIDs(a, stable) && UncleanKept(a.convs, b.convs) && !AllClean(a, Duplicated(a))
    ensures !OneRowEach(b, Duplicated(a), stable)
  {
    var c :| c in a.convs && a.convs[c].peer in Duplicated(a) && !Clean(c);
    assert a.convs[c].peer in Peers(a);
    assert c in RowsOf(b, a.convs[c].peer);
  }

  /** `ids` lists the elements of `s`, each once. */
  ghost predicate Lists(ids: seq<ID>, s: set<ID>) {
    && (forall c :: c in ids <==> c in s)
    && (forall i, j :: 0 <= i < j < |ids| ==> ids[i] != ids[j])
  }

  function Listed(ids: seq<ID>, n: nat): set<ID>
    requires n <= |ids|
  {
    set i | 0 <= i < n :: ids[i]
  }

  ghost predicate CleanList(ids: seq<ID>) {
    forall i :: 0 <= i < |ids| ==> Clean(ids[i])
  }

  /** All IDs involved are clean, and the desired one is the peer's or free. */
  ghost predicate Mergeable(db: DB, p: Peer, ids: seq<ID>, desired: ID) {
    && Clean(desired) && CleanList(ids)
    && (desired in db.convs ==> db.convs[desired].peer == p)
  }

  lemma MergedNext(a: DB, b: DB, p: Peer, ids: seq<ID>, i: nat, k: ID)
    requires i < |ids| && Lists(ids, RowsOf(a, p)) && CleanList(ids)
    requires k in ids && k != ids[i] && Merged(a, b, p, Listed(ids, i) - {k}, k)
    ensures Merged(a, Migrated(b, ids[i], k).0, p, Listed(ids, i + 1) - {k}, k)
  {
    assert ids[i] in ids && ids[i] in RowsOf(a, p) && k in RowsOf(a, p);
    assert ids[i] !in Listed(ids, i);
    MergedMore(a, b, p, Listed(ids, i) - {k}, k, ids[i]);
    assert Listed(ids, i + 1) - {k} == (Listed(ids, i) - {k}) + {ids[i]};
  }

  /** The first `n` rows of the list moved into the keeper. */
  function IntoKeeper(db: DB, ids: seq<ID>, k: ID, n: nat): DB
    requires n <= |ids|
  {
    if n == 0 then db
    else if ids[n - 1] == k then IntoKeeper(db, ids, k, n - 1)
    else Migrated(IntoKeeper(db, ids, k, n - 1), ids[n - 1], k).0
  }

  lemma {:induction false} IntoKeeperKeeps(db: DB, ids: seq<ID>, k: ID, n: nat)
    requires n <= |ids|
    ensures UncleanKept(db.convs, IntoKeeper(db, ids, k, n).convs) && SameIDs(db, IntoKeeper(db, ids, k, n))
  {
    if n > 0 {
      IntoKeeperKeeps(db, ids, k, n - 1);
      MigrateSkipsUnclean(IntoKeeper(db, ids, k, n - 1), ids[n - 1], k);
      MigrateKeepsIDs(IntoKeeper(db, ids, k, n - 1), ids[n - 1], k);
    }
  }

  lemma {:induction false} IntoKeeperMerges(db: DB, p: Peer, ids: seq<ID>, k: ID, n: nat)
    requires n <= |ids| && k in ids && Lists(ids, RowsOf(db, p)) && CleanList(ids)
    ensures Merged(db, IntoKeeper(db, ids, k, n), p, Listed(ids, n) - {k}, k)
  {
    if n == 0 {
      assert k in RowsOf(db, p);
      assert Listed(ids, 0) - {k} == {};
    } else {
      IntoKeeperMerges(db, p, ids, k, n - 1);
      if ids[n - 1] == k {
        assert Listed(ids, n) - {k} == Listed(ids, n - 1) - {k};
      } else {
        MergedNext(db, IntoKeeper(db, ids, k, n - 1), p, ids, n - 1, k);
      }
    }
  }

  function SessionAt(db: DB, c: ID): Option<string> {
    if c in db.sessions then Some(db.sessions[c]) else None
  }

  /** The session that survives at the keeper: that of the last of the first `n` rows merged into it
      that has one, or else its own. */
  function Survivor(db: DB, ids: seq<ID>, k: ID, n: nat): Option<string>
    requires n <= |ids|
  {
    if n == 0 then SessionAt(db, k)
    else if ids[n - 1] != k && ids[n - 1] in db.sessions then Some(db.sessions[ids[n - 1]])
    else Survivor(db, ids, k, n - 1)
  }

  lemma OthersStay(a: DB, b: DB, p: Peer, gone: set<ID>, k: ID, c: ID)
    requires Merged(a, b, p, gone, k) && c !in gone && c != k
    ensures SessionAt(b, c) == SessionAt(a, c) && (c in a.convs ==> c in b.convs)
  {
  }

  lemma {:induction false} IntoKeeperSession(db: DB, p: Peer, ids: seq<ID>, k: ID, n: nat)
    requires n <= |ids| && k in ids && Lists(ids, RowsOf(db, p)) && CleanList(ids)
    ensures SessionAt(IntoKeeper(db, ids, k, n), k) == Survivor(db, ids, k, n)
  {
    if n > 0 {
      IntoKeeperSession(db, p, ids, k, n - 1);
      if ids[n - 1] != k {
        var id, before := ids[n - 1], IntoKeeper(db, ids, k, n - 1);
        IntoKeeperMerges(db, p, ids, k, n - 1);
        assert id in ids && id in RowsOf(db, p) && id !in Listed(ids, n - 1);
        OthersStay(db, before, p, Listed(ids, n - 1) - {k}, k, id);
        assert Clean(k);
        MoveSession(before, id, k);
      }
    }
  }

  lemma MoveSession(db: DB, from: ID, to: ID)
    requires from in db.convs && from != to && Clean(from) && Clean(to)
    ensures SessionAt(Migrated(db, from, to).0, to) == SessionAt(db, if from in db.sessions then from else to)
  {
    TrimSpaceClean(from);
    TrimSpaceClean(to);
  }

  /** The keeper: the row at the desired ID if the peer has one, or else the first. */
  function Keeper(ids: seq<ID>, desired: ID): ID
    requires ids != []
  {
    if desired in ids then desired else ids[0]
  }

  /** The rows of one peer merged, and the keeper moved to the desired ID. */
  function PeerMerged(db: DB, ids: seq<ID>, desired: ID): DB
    requires ids != []
  {
    var k := Keeper(ids, desired);
    var kept := IntoKeeper(db, ids, k, |ids|);
    if k == desired then kept else Migrated(kept, k, desired).0
  }

  /** The session the peer ends with. */
  function FinalSession(db: DB, ids: seq<ID>, desired: ID): Option<string>
    requires ids != []
  {
    var s := Survivor(db, ids, Keeper(ids, desired), |ids|);
    if s.None? then SessionAt(db, desired) else s
  }

  lemma {:induction false} SurvivorNone(db: DB, ids: seq<ID>, k: ID, n: nat)
    requires n <= |ids|
    ensures Survivor(db, ids, k, n).None? ==> SessionAt(db, k).None?
  {
    if n > 0 {
      SurvivorNone(db, ids, k, n - 1);
    }
  }

  lemma FinalSessionIs(db: DB, p: Peer, ids: seq<ID>, desired: ID)
    requires ids != [] && Lists(ids, RowsOf(db, p)) && Mergeable(db, p, ids, desired)
    ensures SessionAt(PeerMerged(db, ids, desired), desired) == FinalSession(db, ids, desired)
  {
    var k := Keeper(ids, desired);
    var kept := IntoKeeper(db, ids, k, |ids|);
    IntoKeeperSession(db, p, ids, k, |ids|);
    SurvivorNone(db, ids, k, |ids|);
    if k != desired {
      IntoKeeperMerges(db, p, ids, k, |ids|);
      assert k in ids && k in kept.convs;
      MoveSession(kept, k, desired);
      assert desired !in RowsOf(db, p) && desired !in Listed(ids, |ids|);
    }
  }

  lemma MergedLast(a: DB, b: DB, p: Peer, ids: seq<ID>, k: ID, desired: ID)
    requires Lists(ids, RowsOf(a, p)) && Mergeable(a, p, ids, desired)
    requires k in ids && desired !in ids && Merged(a, b, p, RowsOf(a, p) - {k}, k)
    ensures Merged(a, Migrated(b, k, desired).0, p, RowsOf(a, p) - {desired}, desired)
  {
    assert k in RowsOf(a, p) && desired !in RowsOf(a, p);
    MergedOn(a, b, p, RowsOf(a, p) - {k}, k, desired);
    assert RowsOf(a, p) - {k} + {k} == RowsOf(a, p) - {desired};
  }

  /** The desired ID is the row of another peer, and there are messages in it. */
  ghost predicate TakesOver(db: DB, p: Peer, desired: ID) {
    && desired in db.convs && db.convs[desired].peer != p
    && exists m :: m in db.messages && db.messages[m] == desired
  }

  lemma MessagesKeptIff(db: DB, p: Peer, ids: seq<ID>, desired: ID)
    requires ids != [] && Lists(ids, RowsOf(db, p)) && Clean(desired) && CleanList(ids)
    ensures MessagesKept(db, PeerMerged(db, ids, desired)) <==> !TakesOver(db, p, desired)
  {
    var k := Keeper(ids, desired);
    var kept := IntoKeeper(db, ids, k, |ids|);
    assert k in ids && k in RowsOf(db, p);
    IntoKeeperMerges(db, p, ids, k, |ids|);
    assert Listed(ids, |ids|) == RowsOf(db, p);
    StepMessages(db, db, kept, p, k);
    if k != desired {
      assert desired !in RowsOf(db, p);
      TrimSpaceClean(k);
      TrimSpaceClean(desired);
      LastMoveKeepsIff(db, kept, p, k, desired);
    }
  }

  lemma LastMoveKeepsIff(a: DB, b: DB, p: Peer, k: ID, desired: ID)
    requires Merged(a, b, p, RowsOf(a, p) - {k}, k) && MessagesKept(a, b)
    requires k in a.convs && k != desired && desired !in RowsOf(a, p)
    ensures MessagesKept(a, Moved(b, k, desired)) <==> !TakesOver(a, p, desired)
  {
    if TakesOver(a, p, desired) {
      var m :| m in a.messages && a.messages[m] == desired;
      assert PeerOf(a, m) == Some(a.convs[desired].peer);
      assert PeerOf(Moved(b, k, desired), m) == Some(p);
    }
  }

  /** A peer still to be merged has at least two rows, all clean. */
  lemma ReadyToMerge(a: DB, b: DB, done: set<Peer>, p: Peer, ids: seq<ID>, stable: Peer -> ID)
    requires StableIDs(a, stable) && Deduped(a, b, done, stable)
    requires p in Peers(a) && done <= Peers(a) && p !in done
    requires p in Duplicated(a) && AllClean(a, Duplicated(a)) && Lists(ids, RowsOf(b, p))
    ensures |ids| >= 2 && Mergeable(b, p, ids, stable(p))
  {
    StableStillFree(a, b, done, p, stable);
    TwoIDs(a, p, ids);
    forall i | 0 <= i < |ids| ensures Clean(ids[i]) {
      assert ids[i] in ids;
    }
  }

  /** A peer with two rows has a list of at least two IDs. */
  lemma TwoIDs(db: DB, p: Peer, ids: seq<ID>)
    requires p in Duplicated(db) && Lists(ids, RowsOf(db, p))
    ensures |ids| >= 2
  {
    var c, d :| c in db.convs && d in db.convs && c != d && db.convs[c].peer == db.convs[d].peer == p;
    assert c in RowsOf(db, p) && d in RowsOf(db, p);
    assert c in ids && d in ids;
  }
}
