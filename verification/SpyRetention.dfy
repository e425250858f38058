/** Retention: calls past their age go, then the oldest ones until the tables fit. */
module SpyRetention {
  import opened Bytes
  import opened SpyTables
  import opened SpyInvariants
  import opened SpyBatches
  import opened CallOrder

  predicate Oldest(calls: map<CallId, CallRow>, id: CallId) {
    id in calls && forall x :: x in calls && x != id ==> Before(KeyOf(calls, id), KeyOf(calls, x))
  }

  lemma {:induction false} OldestExists(calls: map<CallId, CallRow>)
    requires calls != map[]
    ensures exists id :: Oldest(calls, id)
    decreases |calls|
  {
    hide Before;
    var id :| id in calls;
    var rest := calls - {id};
    if rest == map[] {
      assert forall x :: x in calls ==> x == id || x in rest;
      assert Oldest(calls, id);
    } else {
      OldestExists(rest);
      var o :| Oldest(rest, o);
      BeforeTotal(KeyOf(calls, o), KeyOf(calls, id));
      assert forall x :: x in calls && x != id ==> x in rest && calls[x] == rest[x];
      if Before(KeyOf(calls, o), KeyOf(calls, id)) {
        assert Oldest(calls, o);
      } else {
        forall x | x in calls && x != id && x != o ensures Before(KeyOf(calls, id), KeyOf(calls, x)) {
          BeforeTransitive(KeyOf(calls, id), KeyOf(calls, o), KeyOf(calls, x));
        }
        assert Oldest(calls, id);
      }
    }
  }

  lemma {:induction false} OldestUnique(calls: map<CallId, CallRow>, a: CallId, b: CallId)
    requires Oldest(calls, a) && Oldest(calls, b)
    ensures a == b
  {
    if a != b { BeforeAsymmetric(KeyOf(calls, a), KeyOf(calls, b)); }
  }

  /** SELECT id ... ORDER BY started_at, id LIMIT 1. */
  ghost function OldestOf(calls: map<CallId, CallRow>): (id: CallId)
    requires calls != map[]
    ensures Oldest(calls, id)
  {
    OldestExists(calls);
    var id :| Oldest(calls, id);
    id
  }

  function Expired(calls: map<CallId, CallRow>, cutoff: real): set<CallId> {
    set id | id in calls && calls[id].startedAt < cutoff
  }

  /** The calls that go for size: the oldest, again and again, while the tables use too much. */
  ghost function Excess(db: Db, used: Db -> nat, maxBytes: nat): (gone: set<CallId>)
    ensures gone <= db.calls.Keys
    decreases |db.calls|
  {
    if used(db) <= maxBytes || db.calls == map[] then {}
    else
      var id := OldestOf(db.calls);
      Smaller(db, id);
      {id} + Excess(DeleteCalls(db, {id}), used, maxBytes)
  }

  lemma {:induction false} Smaller(db: Db, id: CallId)
    requires id in db.calls
    ensures |DeleteCalls(db, {id}).calls| < |db.calls|
  {
    assert db.calls.Keys == (db.calls - {id}).Keys + {id};
  }

  /** All the calls a retention run deletes. */
  ghost function Discarded(db: Db, cutoff: real, used: Db -> nat, maxBytes: nat): (gone: set<CallId>)
    ensures gone <= db.calls.Keys
  {
    var expired := Expired(db.calls, cutoff);
    expired + Excess(DeleteCalls(db, expired), used, maxBytes)
  }

  function Counted(counters: map<Counter, int>, deleted: nat): map<Counter, int> {
    if deleted > 0 then Bump(counters, RetentionDeletedCalls, deleted) else counters
  }

  ghost function Retain(db: Db, cutoff: real, used: Db -> nat, maxBytes: nat): Db {
    var gone := Discarded(db, cutoff, used, maxBytes);
    DeleteCalls(db, gone).(counters := Counted(db.counters, |gone|))
  }

  // ----- what is deleted -----

  /** A set of calls with every older call in it. */
  ghost predicate DownSet(calls: map<CallId, CallRow>, ids: set<CallId>) {
    && ids <= calls.Keys
    && forall x, y :: x in calls && y in ids && Before(KeyOf(calls, x), KeyOf(calls, y)) ==> x in ids
  }

  lemma {:induction false} DeleteTwice(db: Db, first: set<CallId>, second: set<CallId>)
    ensures DeleteCalls(DeleteCalls(db, first), second) == DeleteCalls(db, first + second)
  {
    var d := DeleteCalls(db, first);
    assert d.calls - second == db.calls - (first + second);
    assert d.usage - second == db.usage - (first + second);
    assert d.stream - second == db.stream - (first + second);
    OthersTwice(db.http, first, second);
    OthersTwice(db.raw, first, second);
    OthersTwice(db.chunks, first, second);
    hide OfOthers;
    BlocksTwice(db.blocks, db.blocks, first, second);
    BlocksTwice(db.blocks, db.fts, first, second);
  }

  lemma {:induction false} OthersTwice<K, V>(t: map<(CallId, K), V>, first: set<CallId>, second: set<CallId>)
    ensures OfOthers(OfOthers(t, first), second) == OfOthers(t, first + second)
  {}

  lemma {:induction false} BlocksTwice<V>(blocks: map<BlockKey, Block>, t: map<BlockKey, V>, first: set<CallId>,
                                          second: set<CallId>)
    ensures var b := blocks - (set k | k in blocks && k.call in first);
      (t - (set k | k in blocks && k.call in first)) - (set k | k in b && k.call in second)
        == t - (set k | k in blocks && k.call in first + second)
  {}

  /** The expired calls, then a down-set of the rest, are a down-set of all. */
  lemma {:induction false} DownSetAfter(calls: map<CallId, CallRow>, first: set<CallId>, second: set<CallId>)
    requires DownSet(calls, first) && DownSet(calls - first, second)
    ensures DownSet(calls, first + second)
  {
    hide Before;
    forall x, y | x in calls && y in first + second && Before(KeyOf(calls, x), KeyOf(calls, y))
      ensures x in first + second
    {
      if y !in first && x !in first { assert Before(KeyOf(calls - first, x), KeyOf(calls - first, y)); }
    }
  }

  lemma {:induction false} OldestIsDownSet(calls: map<CallId, CallRow>, id: CallId)
    requires Oldest(calls, id)
    ensures DownSet(calls, {id})
  {
    hide Before;
    forall x | x in calls && Before(KeyOf(calls, x), KeyOf(calls, id)) ensures x == id {
      if x != id { BeforeAsymmetric(KeyOf(calls, x), KeyOf(calls, id)); }
    }
  }

  /** A non-empty down-set holds the oldest call. */
  lemma {:induction false} DownSetHasOldest(calls: map<CallId, CallRow>, ids: set<CallId>, id: CallId)
    requires DownSet(calls, ids) && ids != {} && Oldest(calls, id)
    ensures id in ids
  {
    var y :| y in ids;
    if y != id { assert Before(KeyOf(calls, id), KeyOf(calls, y)); }
  }

  /** `gone` is what has to go for the tables to fit: a down-set after which they fit, or all calls,
      while after deleting any smaller down-set they would not fit. */
  ghost predicate LeastExcess(db: Db, used: Db -> nat, maxBytes: nat, gone: set<CallId>) {
    && DownSet(db.calls, gone)
    && (used(DeleteCalls(db, gone)) <= maxBytes || gone == db.calls.Keys)
    && forall s :: DownSet(db.calls, s) && s < gone ==> used(DeleteCalls(db, s)) > maxBytes
  }

  lemma {:induction false} DeleteNone(db: Db)
    ensures DeleteCalls(db, {}) == db
  {
    var d := DeleteCalls(db, {});
    assert d.calls == db.calls && d.blocks == db.blocks && d.fts == db.fts && d.http == db.http;
    assert d.usage == db.usage && d.stream == db.stream && d.raw == db.raw && d.chunks == db.chunks;
  }

  lemma {:induction false} ExcessIsLeast(db: Db, used: Db -> nat, maxBytes: nat)
    ensures LeastExcess(db, used, maxBytes, Excess(db, used, maxBytes))
    decreases |db.calls|
  {
    var gone := Excess(db, used, maxBytes);
    DeleteNone(db);
    if used(db) > maxBytes && db.calls != map[] {
      var id := OldestOf(db.calls);
      var db1 := DeleteCalls(db, {id});
      Smaller(db, id);
      ExcessIsLeast(db1, used, maxBytes);
      ExcessStep(db, used, maxBytes, id, Excess(db1, used, maxBytes));
    }
  }

  lemma {:induction false} ExcessStep(db: Db, used: Db -> nat, maxBytes: nat, id: CallId, rest: set<CallId>)
    requires Oldest(db.calls, id) && used(db) > maxBytes
    requires LeastExcess(DeleteCalls(db, {id}), used, maxBytes, rest)
    ensures LeastExcess(db, used, maxBytes, {id} + rest)
  {
    hide Oldest; hide DownSet;
    var db1 := DeleteCalls(db, {id});
    assert db1.calls == db.calls - {id};
    assert rest <= db1.calls.Keys && id in db.calls by { DownSetKeys(db1.calls, rest); OldestKey(db.calls, id); }
    OldestIsDownSet(db.calls, id);
    DownSetAfter(db.calls, {id}, rest);
    DeleteTwice(db, {id}, rest);
    hide DeleteCalls;
    forall s | DownSet(db.calls, s) && s < {id} + rest ensures used(DeleteCalls(db, s)) > maxBytes {
      if s == {} {
        DeleteNone(db);
      } else {
        DownSetHasOldest(db.calls, s, id);
        DownSetMinus(db.calls, s, {id});
        assert s - {id} < rest;
        DeleteTwice(db, {id}, s - {id});
        assert {id} + (s - {id}) == s;
      }
    }
  }

  lemma {:induction false} DownSetKeys(calls: map<CallId, CallRow>, ids: set<CallId>)
    requires DownSet(calls, ids)
    ensures ids <= calls.Keys
  {}

  lemma {:induction false} OldestKey(calls: map<CallId, CallRow>, id: CallId)
    requires Oldest(calls, id)
    ensures id in calls
  {}

  lemma {:induction false} ExpiredIsDownSet(calls: map<CallId, CallRow>, cutoff: real)
    ensures DownSet(calls, Expired(calls, cutoff))
  {}

  /** Retention deletes exactly the least set of oldest calls that contains the expired ones and
      makes the tables fit, or every call; nothing older than a deleted call stays. */
  lemma {:induction false} RetentionIsLeast(db: Db, cutoff: real, used: Db -> nat, maxBytes: nat)
    ensures var gone := Discarded(db, cutoff, used, maxBytes);
      && DownSet(db.calls, gone) && Expired(db.calls, cutoff) <= gone
      && (used(DeleteCalls(db, gone)) <= maxBytes || gone == db.calls.Keys)
      && forall s :: DownSet(db.calls, s) && Expired(db.calls, cutoff) <= s < gone
           ==> used(DeleteCalls(db, s)) > maxBytes
  {
    hide DownSet; hide Excess;
    var expired := Expired(db.calls, cutoff);
    var db1 := DeleteCalls(db, expired);
    var excess := Excess(db1, used, maxBytes);
    ExpiredIsDownSet(db.calls, cutoff);
    assert db1.calls == db.calls - expired;
    ExcessIsLeast(db1, used, maxBytes);
    DownSetAfter(db.calls, expired, excess);
    DeleteTwice(db, expired, excess);
    hide DeleteCalls; hide Expired;
    forall s | DownSet(db.calls, s) && expired <= s < expired + excess ensures used(DeleteCalls(db, s)) > maxBytes {
      DownSetMinus(db.calls, s, expired);
      DeleteTwice(db, expired, s - expired);
      assert expired + (s - expired) == s;
      assert s - expired < excess;
    }
  }

  lemma {:induction false} DownSetMinus(calls: map<CallId, CallRow>, ids: set<CallId>, first: set<CallId>)
    requires DownSet(calls, ids)
    ensures DownSet(calls - first, ids - first)
  {
    hide Before;
    forall x, y | x in calls - first && y in ids - first && Before(KeyOf(calls - first, x), KeyOf(calls - first, y))
      ensures x in ids - first
    {
      assert Before(KeyOf(calls, x), KeyOf(calls, y));
    }
  }

  lemma {:induction false} RetainKeeps(db: Db, cutoff: real, used: Db -> nat, maxBytes: nat)
    requires Sound(db)
    ensures Sound(Retain(db, cutoff, used, maxBytes))
  {
    var gone := Discarded(db, cutoff, used, maxBytes);
    DeleteCallsKeeps(db, gone);
    hide DeleteCalls; hide IndexAgrees; hide Discarded;
  }

  /** What a run leaves: every call past the cutoff is gone, a call that is not goes only for space and only
      before every younger one, with nothing else deleted when the expired calls make room enough; and
      exactly the calls that went are counted. */
  lemma {:induction false} RetentionOutcome(db: Db, cutoff: real, used: Db -> nat, maxBytes: nat, aged: set<CallId>)
    requires forall id :: id in aged <==> id in db.calls && db.calls[id].startedAt < cutoff
    ensures var db' := Retain(db, cutoff, used, maxBytes);
      && db'.calls.Keys <= db.calls.Keys - aged
      && (forall x, y :: x in db.calls && x !in db'.calls && y in db'.calls ==>
            db.calls[x].startedAt <= db.calls[y].startedAt)
      && (used(DeleteCalls(db, aged)) <= maxBytes ==> db'.calls.Keys == db.calls.Keys - aged)
      && CountsDeleted(db, db', |db.calls.Keys - db'.calls.Keys|)
  {
    hide DeleteCalls; hide Discarded; hide CountsDeleted; hide Retain;
    var gone, db' := Discarded(db, cutoff, used, maxBytes), Retain(db, cutoff, used, maxBytes);
    RetainedIs(db, cutoff, used, maxBytes);
    DiscardedIs(db, cutoff, used, maxBytes, aged);
    assert db.calls.Keys - db'.calls.Keys == gone;
    forall x, y | x in db.calls && x !in db'.calls && y in db'.calls
      ensures db.calls[x].startedAt <= db.calls[y].startedAt
    {
      assert x in gone && y in db.calls && y !in gone;
    }
  }

  ghost predicate CountsDeleted(db: Db, db': Db, deleted: nat) {
    forall n :: CounterOf(db', n) == CounterOf(db, n) + (if n == RetentionDeletedCalls then deleted else 0)
  }

  lemma {:induction false} RetainedIs(db: Db, cutoff: real, used: Db -> nat, maxBytes: nat)
    ensures var gone, db' := Discarded(db, cutoff, used, maxBytes), Retain(db, cutoff, used, maxBytes);
      db'.calls.Keys == db.calls.Keys - gone && CountsDeleted(db, db', |gone|)
  {
    hide DeleteCalls; hide Discarded; hide CountsDeleted; hide Counted;
    var gone, db' := Discarded(db, cutoff, used, maxBytes), Retain(db, cutoff, used, maxBytes);
    DeletedKeys(db, gone);
    CountedIs(db, db', |gone|);
  }

  lemma {:induction false} DeletedKeys(db: Db, ids: set<CallId>)
    ensures DeleteCalls(db, ids).calls.Keys == db.calls.Keys - ids
    ensures DeleteCalls(db, ids).counters == db.counters
  {}

  /** The discarded calls: all aged ones, and no call without every older one. */
  lemma {:induction false} DiscardedIs(db: Db, cutoff: real, used: Db -> nat, maxBytes: nat, aged: set<CallId>)
    requires forall id :: id in aged <==> id in db.calls && db.calls[id].startedAt < cutoff
    ensures var gone := Discarded(db, cutoff, used, maxBytes);
      && aged <= gone <= db.calls.Keys && (used(DeleteCalls(db, aged)) <= maxBytes ==> gone == aged)
      && forall x, y :: x in gone && y in db.calls && y !in gone ==> db.calls[x].startedAt <= db.calls[y].startedAt
  {
    hide Excess; hide Before; hide DownSet; hide DeleteCalls;
    var gone := Discarded(db, cutoff, used, maxBytes);
    RetentionIsLeast(db, cutoff, used, maxBytes);
    ExpiredIsDownSet(db.calls, cutoff);
    assert Expired(db.calls, cutoff) == aged;
    hide Discarded;
    assert DownSet(db.calls, aged);
    forall x, y | x in gone && y in db.calls && y !in gone ensures db.calls[x].startedAt <= db.calls[y].startedAt {
      YoungerStays(db.calls, gone, x, y);
    }
  }

  lemma {:induction false} YoungerStays(calls: map<CallId, CallRow>, gone: set<CallId>, x: CallId, y: CallId)
    requires DownSet(calls, gone) && x in gone && y in calls && y !in gone
    ensures x in calls && calls[x].startedAt <= calls[y].startedAt
  {}

  lemma {:induction false} CountedIs(db: Db, db': Db, deleted: nat)
    requires db'.counters == Counted(db.counters, deleted)
    ensures CountsDeleted(db, db', deleted)
  {}
}
