/** Ingesting the spool in batches: exact accounting, and progress. */
module SpyBatches {
  import opened Bytes
  import opened SpyTables
  import opened SpyInvariants

  /** A spool file; one that does not parse has no event. */
  datatype File = File(size: nat, event: Option<SpoolEvent>)

  /** The tables after a batch, the files that stay, and what became of each file attempted. */
  datatype Attempted = Attempted(db: Db, kept: seq<File>, outcomes: seq<Outcome>)

  predicate Stays(o: Outcome) {
    o == Deferred || o == Failed
  }

  /** The files of a batch, one after the other. */
  ghost function Attempt(a: Adapter, db: Db, files: seq<File>): Attempted {
    if files == [] then Attempted(db, [], [])
    else
      var n := |files| - 1;
      var before := Attempt(a, db, files[..n]);
      var (o, db') := IngestFile(a, before.db, files[n].event);
      Attempted(db', before.kept + (if Stays(o) then [files[n]] else []), before.outcomes + [o])
  }

  datatype Spooled = Spooled(db: Db, spool: seq<File>)

  function Taken(spool: seq<File>, limit: nat): nat {
    if limit < |spool| then limit else |spool|
  }

  /** `ingestSpoolBatch`: the first `limit` files in name order. */
  ghost function Batch(a: Adapter, s: Spooled, limit: nat): Spooled {
    var n := Taken(s.spool, limit);
    var r := Attempt(a, s.db, s.spool[..n]);
    Spooled(r.db, r.kept + s.spool[n..])
  }

  // ----- accounting -----

  function Count(os: seq<Outcome>, o: Outcome): nat {
    if os == [] then 0 else Count(os[..|os| - 1], o) + (if os[|os| - 1] == o then 1 else 0)
  }

  /** The files whose outcome makes them stay, in order. */
  function StayingFiles(files: seq<File>, os: seq<Outcome>): seq<File>
    requires |files| == |os|
  {
    if files == [] then []
    else
      var n := |files| - 1;
      StayingFiles(files[..n], os[..n]) + (if Stays(os[n]) then [files[n]] else [])
  }

  lemma {:induction false} OutcomesCounted(os: seq<Outcome>)
    ensures Count(os, Ingested) + Count(os, Malformed) + Count(os, Deferred) + Count(os, Failed) == |os|
  {
    if os != [] { OutcomesCounted(os[..|os| - 1]); }
  }

  lemma {:induction false} StayingCounted(files: seq<File>, os: seq<Outcome>)
    requires |files| == |os|
    ensures |StayingFiles(files, os)| == Count(os, Deferred) + Count(os, Failed)
  {
    if files != [] { StayingCounted(files[..|files| - 1], os[..|os| - 1]); }
  }

  lemma {:induction false} AttemptStays(a: Adapter, db: Db, files: seq<File>)
    ensures var r := Attempt(a, db, files); |r.outcomes| == |files| && r.kept == StayingFiles(files, r.outcomes)
  {
    hide IngestFile;
    if files != [] {
      var n := |files| - 1;
      AttemptStays(a, db, files[..n]);
      assert Attempt(a, db, files).outcomes[..n] == Attempt(a, db, files[..n]).outcomes;
    }
  }

  /** Every attempted file has one outcome; exactly the deferred and failed ones stay, in order. */
  lemma {:induction false} AttemptAccounts(a: Adapter, db: Db, files: seq<File>)
    ensures var r := Attempt(a, db, files);
      && |r.outcomes| == |files|
      && Count(r.outcomes, Ingested) + Count(r.outcomes, Malformed)
         + Count(r.outcomes, Deferred) + Count(r.outcomes, Failed) == |files|
      && r.kept == StayingFiles(files, r.outcomes)
      && |r.kept| == Count(r.outcomes, Deferred) + Count(r.outcomes, Failed)
  {
    hide *;
    AttemptStays(a, db, files);
    OutcomesCounted(Attempt(a, db, files).outcomes);
    StayingCounted(files, Attempt(a, db, files).outcomes);
  }

  function CounterOf(db: Db, name: Counter): int {
    if name in db.counters then db.counters[name] else 0
  }

  /** Events the database says it has ingested, of all kinds. */
  function EventsCounted(db: Db): int {
    CounterOf(db, SpoolRequestEvents) + CounterOf(db, SpoolResponseEvents) + CounterOf(db, SpoolStreamChunkEvents)
      + CounterOf(db, SpoolDroppedEvents) + CounterOf(db, SpoolErrorEvents)
  }

  lemma {:induction false} BumpCounts(db: Db, db': Db, name: Counter, amount: int)
    requires db'.counters == Bump(db.counters, name, amount)
    ensures forall n :: CounterOf(db', n) == CounterOf(db, n) + (if n == name then amount else 0)
  {}

  /** The counters after events, malformed files, errors and drops were counted. */
  ghost predicate Grown(db: Db, db': Db, events: int, malformed: int, errors: int, drops: int) {
    && EventsCounted(db') == EventsCounted(db) + events
    && CounterOf(db', SpoolMalformedEvents) == CounterOf(db, SpoolMalformedEvents) + malformed
    && CounterOf(db', SpoolIngestErrors) == CounterOf(db, SpoolIngestErrors) + errors
    && CounterOf(db', CapturesDropped) == CounterOf(db, CapturesDropped) + drops
  }

  function Drops(event: Option<SpoolEvent>): nat {
    if event.Some? && event.value.DroppedEvent? then event.value.count else 0
  }

  lemma {:induction false} PersistCounts(a: Adapter, db: Db, e: SpoolEvent)
    requires Persist(a, db, e).Saved?
    ensures Grown(db, Persist(a, db, e).db, 1, 0, 0, Drops(Some(e)))
  {
    hide Bump; hide ReplaceRows; hide ReplaceBlocks; hide AmendRequestBlocks; hide UpsertPending; hide Merge;
    hide ChunkRows; hide RespondedRow; hide ErroredCalls; hide OfDirection; hide CallOf; hide CounterOf;
    var db' := Persist(a, db, e).db;
    match e {
      case RequestEvent(_, _, _, _, _) => BumpCounts(db, db', SpoolRequestEvents, 1);
      case ResponseEvent(_, _, _, _, _, _) => BumpCounts(db, db', SpoolResponseEvents, 1);
      case ChunkEvent(_, _, _, _) => BumpCounts(db, db', SpoolStreamChunkEvents, 1);
      case DroppedEvent(n) =>
        var between := db.(counters := Bump(db.counters, SpoolDroppedEvents, 1));
        BumpCounts(db, between, SpoolDroppedEvents, 1);
        BumpCounts(between, db', CapturesDropped, n);
      case ErrorEvent(_, _, _) => BumpCounts(db, db', SpoolErrorEvents, 1);
    }
  }

  lemma {:induction false} DroppedIsSaved(a: Adapter, db: Db, e: SpoolEvent)
    requires e.DroppedEvent?
    ensures Persist(a, db, e).Saved?
  {
    hide PersistDropped;
  }

  /** A file that does not parse, or fails, is counted as that and as nothing else. */
  lemma {:induction false} FailureCounts(db: Db, db': Db, name: Counter)
    requires name == SpoolMalformedEvents || name == SpoolIngestErrors
    requires db'.counters == Bump(db.counters, name, 1)
    ensures Grown(db, db', 0, if name == SpoolMalformedEvents then 1 else 0,
                  if name == SpoolIngestErrors then 1 else 0, 0)
  {
    hide CounterOf;
    BumpCounts(db, db', name, 1);
    hide Bump;
  }

  lemma {:induction false} IngestCounts(a: Adapter, db: Db, event: Option<SpoolEvent>)
    ensures var (o, db') := IngestFile(a, db, event);
      Grown(db, db', if o == Ingested then 1 else 0, if o == Malformed then 1 else 0, if o == Failed then 1 else 0,
            Drops(event))
  {
    FailureCounts(db, db.(counters := Bump(db.counters, SpoolMalformedEvents, 1)), SpoolMalformedEvents);
    FailureCounts(db, db.(counters := Bump(db.counters, SpoolIngestErrors, 1)), SpoolIngestErrors);
    assert Grown(db, db, 0, 0, 0, 0);
    if event.Some? {
      if event.value.DroppedEvent? { DroppedIsSaved(a, db, event.value); }
      if Persist(a, db, event.value).Saved? { PersistCounts(a, db, event.value); }
    }
    hide Bump; hide Persist; hide Grown;
  }

  /** The health counters tell exactly how many files had which outcome. */
  lemma {:induction false} CountersTell(a: Adapter, db: Db, files: seq<File>)
    ensures var r := Attempt(a, db, files);
      && EventsCounted(r.db) == EventsCounted(db) + Count(r.outcomes, Ingested)
      && CounterOf(r.db, SpoolMalformedEvents) == CounterOf(db, SpoolMalformedEvents) + Count(r.outcomes, Malformed)
      && CounterOf(r.db, SpoolIngestErrors) == CounterOf(db, SpoolIngestErrors) + Count(r.outcomes, Failed)
  {
    hide IngestFile; hide EventsCounted; hide CounterOf; hide Drops;
    if files != [] {
      var n := |files| - 1;
      var before := Attempt(a, db, files[..n]);
      CountersTell(a, db, files[..n]);
      IngestCounts(a, before.db, files[n].event);
      var o := IngestFile(a, before.db, files[n].event).0;
      assert (before.outcomes + [o])[..|before.outcomes|] == before.outcomes;
    }
  }

  lemma {:induction false} AttemptKeepsSound(a: Adapter, db: Db, files: seq<File>)
    requires Sound(db)
    ensures Sound(Attempt(a, db, files).db)
  {
    if files != [] {
      var n := |files| - 1;
      AttemptKeepsSound(a, db, files[..n]);
      hide IngestFile; hide Sound;
      IngestKeeps(a, Attempt(a, db, files[..n]).db, files[n].event);
    }
  }

  // ----- progress -----

  /** A file beyond the limit moves forward by as many places as files left the batch. */
  lemma {:induction false} UnattemptedMoves(a: Adapter, s: Spooled, limit: nat, p: nat)
    requires limit <= p < |s.spool|
    ensures var kept := |Attempt(a, s.db, s.spool[..limit]).kept|;
      var s' := Batch(a, s, limit);
      && kept <= limit && p - limit + kept < |s'.spool| && s'.spool[p - limit + kept] == s.spool[p]
  {
    hide Attempt;
    KeptFits(a, s.db, s.spool[..limit]);
    var kept := Attempt(a, s.db, s.spool[..limit]).kept;
    assert (kept + s.spool[limit..])[p - limit + |kept|] == s.spool[limit..][p - limit];
  }

  lemma {:induction false} StayingBound(files: seq<File>, os: seq<Outcome>)
    requires |files| == |os|
    ensures |StayingFiles(files, os)| <= |files|
  {
    if files != [] { StayingBound(files[..|files| - 1], os[..|files| - 1]); }
  }

  /** Rounds of a batch followed by new files that sort last. */
  ghost function Rounds(a: Adapter, s: Spooled, limit: nat, arrivals: seq<seq<File>>): Spooled {
    if arrivals == [] then s
    else
      var n := |arrivals| - 1;
      var t := Batch(a, Rounds(a, s, limit, arrivals[..n]), limit);
      t.(spool := t.spool + arrivals[n])
  }

  /** How many files the next batch would leave stuck. */
  ghost function Stuck(a: Adapter, s: Spooled, limit: nat): nat {
    |Attempt(a, s.db, s.spool[..Taken(s.spool, limit)]).kept|
  }

  /** While each batch leaves at most `stuck < limit` files, the file at position p has been
      attempted once `(limit - stuck)` times the number of rounds exceeds p: until then it stands
      at a known place that shrinks by at least `limit - stuck` a round. */
  lemma {:induction false} EventuallyAttempted(a: Adapter, s: Spooled, limit: nat, stuck: nat,
                                               arrivals: seq<seq<File>>, p: nat) returns (r: nat, q: nat)
    requires stuck < limit && p < |s.spool| && (limit - stuck) * |arrivals| > p
    requires forall i :: 0 <= i < |arrivals| ==> Stuck(a, Rounds(a, s, limit, arrivals[..i]), limit) <= stuck
    ensures r < |arrivals|
    ensures var t := Rounds(a, s, limit, arrivals[..r]).spool; q < limit && q < |t| && t[q] == s.spool[p]
  {
    hide Rounds; hide Stuck;
    r, q := 0, p;
    assert arrivals[..0] == [];
    assert Rounds(a, s, limit, []) == s by { NoRounds(a, s, limit); }
    NextRound(limit - stuck, 0, |arrivals|, p);
    while q >= limit
      invariant r < |arrivals| && q + (limit - stuck) * r <= p
      invariant var t := Rounds(a, s, limit, arrivals[..r]).spool; q < |t| && t[q] == s.spool[p]
      decreases q
    {
      RoundMoves(a, s, limit, arrivals, r, q);
      NextRound(limit - stuck, r, |arrivals|, p);
      q := q - limit + Stuck(a, Rounds(a, s, limit, arrivals[..r]), limit);
      r := r + 1;
    }
  }

  lemma {:induction false} NoRounds(a: Adapter, s: Spooled, limit: nat)
    ensures Rounds(a, s, limit, []) == s
  {}

  lemma {:induction false} NextRound(gain: nat, r: nat, rounds: nat, p: nat)
    requires gain * rounds > p
    ensures gain * (r + 1) == gain * r + gain
    ensures gain * (r + 1) <= p ==> r + 1 < rounds
  {
    Monotone(gain, rounds, r + 1);
  }

  lemma {:induction false} Monotone(gain: nat, x: nat, y: nat)
    ensures x <= y ==> gain * x <= gain * y
  {}

  /** One round carries the file at `q` to its next place. */
  lemma {:induction false} RoundMoves(a: Adapter, s: Spooled, limit: nat, arrivals: seq<seq<File>>, r: nat, q: nat)
    requires r < |arrivals| && limit <= q < |Rounds(a, s, limit, arrivals[..r]).spool|
    ensures var t := Rounds(a, s, limit, arrivals[..r]);
      var t' := Rounds(a, s, limit, arrivals[..r + 1]);
      var q' := q - limit + Stuck(a, t, limit);
      q' < |t'.spool| && t'.spool[q'] == t.spool[q]
  {
    hide Attempt;
    var t := Rounds(a, s, limit, arrivals[..r]);
    assert arrivals[..r + 1][..r] == arrivals[..r];
    assert Taken(t.spool, limit) == limit;
    UnattemptedMoves(a, t, limit, q);
  }

  // ----- a blocked head -----

  /** The counters play no part in what becomes of a file. */
  lemma {:induction false} PersistIgnoresCounters(a: Adapter, db: Db, db': Db, e: SpoolEvent)
    requires Bare(db) == Bare(db')
    ensures Persist(a, db, e).Saved? <==> Persist(a, db', e).Saved?
    ensures Persist(a, db, e).NotYet? <==> Persist(a, db', e).NotYet?
    ensures Persist(a, db, e).Saved? ==> Bare(Persist(a, db, e).db) == Bare(Persist(a, db', e).db)
  {
    hide Bump; hide ReplaceRows; hide ReplaceBlocks; hide AmendRequestBlocks; hide UpsertPending; hide Merge;
    hide ChunkRows; hide RespondedRow; hide ErroredCalls; hide OfDirection; hide CallOf;
    assert db' == db.(counters := db'.counters);
  }

  lemma {:induction false} OutcomeIgnoresCounters(a: Adapter, db: Db, db': Db, event: Option<SpoolEvent>)
    requires Bare(db) == Bare(db')
    ensures IngestFile(a, db, event).0 == IngestFile(a, db', event).0
    ensures Bare(IngestFile(a, db, event).1) == Bare(IngestFile(a, db', event).1)
  {
    if event.Some? { PersistIgnoresCounters(a, db, db', event.value); }
    hide Persist; hide Bump;
  }

  lemma {:induction false} AttemptIgnoresCounters(a: Adapter, db: Db, db': Db, files: seq<File>)
    requires Bare(db) == Bare(db')
    ensures var r, r' := Attempt(a, db, files), Attempt(a, db', files); Bare(r.db) == Bare(r'.db) && r.kept == r'.kept
  {
    hide IngestFile; hide Bare;
    if files != [] {
      var n := |files| - 1;
      AttemptIgnoresCounters(a, db, db', files[..n]);
      OutcomeIgnoresCounters(a, Attempt(a, db, files[..n]).db, Attempt(a, db', files[..n]).db, files[n].event);
    }
  }

  lemma {:induction false} BatchIgnoresCounters(a: Adapter, s: Spooled, t: Spooled, limit: nat)
    requires Bare(s.db) == Bare(t.db) && s.spool == t.spool
    ensures Bare(Batch(a, s, limit).db) == Bare(Batch(a, t, limit).db)
    ensures Batch(a, s, limit).spool == Batch(a, t, limit).spool
  {
    hide Attempt; hide Bare;
    AttemptIgnoresCounters(a, s.db, t.db, s.spool[..Taken(s.spool, limit)]);
  }

  lemma {:induction false} StayingChangesNoTable(a: Adapter, db: Db, event: Option<SpoolEvent>)
    requires Stays(IngestFile(a, db, event).0)
    ensures Bare(IngestFile(a, db, event).1) == Bare(db)
  {
    IngestResult(a, db, event);
    hide IngestFile;
  }

  /** Each of the files would stay if it were attempted now. */
  ghost predicate AllStay(a: Adapter, db: Db, files: seq<File>) {
    forall i :: 0 <= i < |files| ==> Stays(IngestFile(a, db, files[i].event).0)
  }

  lemma {:induction false} StayingAttempt(a: Adapter, db: Db, files: seq<File>)
    requires AllStay(a, db, files)
    ensures var r := Attempt(a, db, files); Bare(r.db) == Bare(db) && r.kept == files
  {
    hide IngestFile; hide Bare;
    if files != [] {
      var n := |files| - 1;
      assert AllStay(a, db, files[..n]) by { assert forall i :: 0 <= i < n ==> files[..n][i] == files[i]; }
      StayingAttempt(a, db, files[..n]);
      var before := Attempt(a, db, files[..n]).db;
      OutcomeIgnoresCounters(a, before, db, files[n].event);
      StayingChangesNoTable(a, before, files[n].event);
      assert files[..n] + [files[n]] == files;
    }
  }

  /** If every file of a batch stays, no later batch changes a table or reaches the files behind,
      whatever arrives meanwhile. */
  lemma {:induction false} BlockedForGood(a: Adapter, s: Spooled, limit: nat, arrivals: seq<seq<File>>)
    requires limit <= |s.spool| && AllStay(a, s.db, s.spool[..limit])
    ensures var t := Rounds(a, s, limit, arrivals); Bare(t.db) == Bare(s.db) && s.spool <= t.spool
  {
    hide IngestFile; hide Attempt; hide Bare;
    if arrivals != [] {
      var n := |arrivals| - 1;
      BlockedForGood(a, s, limit, arrivals[..n]);
      var t := Rounds(a, s, limit, arrivals[..n]);
      assert t.spool[..limit] == s.spool[..limit];
      forall i | 0 <= i < limit ensures Stays(IngestFile(a, t.db, t.spool[..limit][i].event).0) {
        OutcomeIgnoresCounters(a, t.db, s.db, s.spool[i].event);
      }
      StayingAttempt(a, t.db, t.spool[..limit]);
      assert t.spool[..limit] + t.spool[limit..] == t.spool;
    }
  }

  lemma {:induction false} AllStayIffAllKept(a: Adapter, db: Db, files: seq<File>)
    ensures AllStay(a, db, files) <==> |Attempt(a, db, files).kept| == |files|
  {
    hide IngestFile; hide Bare;
    if files != [] {
      var n := |files| - 1;
      var before := Attempt(a, db, files[..n]);
      AllStayIffAllKept(a, db, files[..n]);
      KeptFits(a, db, files[..n]);
      assert forall i :: 0 <= i < n ==> files[..n][i] == files[i];
      if AllStay(a, db, files[..n]) {
        StayingAttempt(a, db, files[..n]);
        OutcomeIgnoresCounters(a, before.db, db, files[n].event);
      }
    }
  }

  lemma {:induction false} KeptFits(a: Adapter, db: Db, files: seq<File>)
    ensures |Attempt(a, db, files).kept| <= |files|
  {
    AttemptAccounts(a, db, files);
    StayingBound(files, Attempt(a, db, files).outcomes);
    hide Attempt;
  }

  /** The files there now stay in front for ever, whatever arrives. */
  ghost predicate Blocked(a: Adapter, s: Spooled, limit: nat) {
    forall arrivals :: s.spool <= Rounds(a, s, limit, arrivals).spool
  }

  /** A full batch is blocked for good exactly when all of its files stay; if one of them leaves, the
      very next batch moves the others forward. */
  lemma {:induction false} BlockedIffAllStay(a: Adapter, s: Spooled, limit: nat)
    requires limit <= |s.spool|
    ensures Blocked(a, s, limit) <==> AllStay(a, s.db, s.spool[..limit])
    ensures AllStay(a, s.db, s.spool[..limit]) <==> Stuck(a, s, limit) == limit
  {
    hide IngestFile; hide Attempt; hide Rounds; hide Bare;
    AllStayIffAllKept(a, s.db, s.spool[..limit]);
    hide AllStay;
    if AllStay(a, s.db, s.spool[..limit]) {
      forall arrivals ensures s.spool <= Rounds(a, s, limit, arrivals).spool { BlockedForGood(a, s, limit, arrivals); }
    } else {
      KeptFits(a, s.db, s.spool[..limit]);
      OneRound(a, s, limit);
      assert !(s.spool <= Rounds(a, s, limit, [[]]).spool);
    }
  }

  lemma {:induction false} OneRound(a: Adapter, s: Spooled, limit: nat)
    ensures Rounds(a, s, limit, [[]]).spool == Batch(a, s, limit).spool
  {
    hide Batch;
    var once: seq<seq<File>> := [[]];
    assert once[..0] == [];
    NoRounds(a, s, limit);
  }
}
