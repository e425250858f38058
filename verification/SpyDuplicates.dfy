/** Responses that come again after other files: at any moment of a drain, and after an error event or a
    chunk that came in between. */
module SpyDuplicates {
  import opened Bytes
  import opened SpyTables
  import opened SpyInvariants
  import opened SpyBatches
  import opened SpyViews
  import opened SpyDrain
  import opened SpyReplay
  import opened SpyErrors
  import opened SpyQuiescence

  // ----- at any moment of a drain -----

  lemma {:induction false} AskedAgrees(a: Adapter, request: SpoolEvent)
    ensures var db := Asked(a, request); IndexAgrees(Indexed(db.blocks, db.fts))
  {
    hide PersistRequest;
    assert Sound(EMPTY);
    if request.RequestEvent? && PersistRequest(a, EMPTY, request).Some? { RequestKeeps(a, EMPTY, request); }
  }

  /** The request blocks a response adds depend on its own call's chunks only, which it leaves alone. */
  lemma {:induction false} OwnBlocksLocal(a: Adapter, db: Db, part: Db, e: SpoolEvent)
    requires e.ResponseEvent? && PersistResponse(a, part, e).Saved?
    requires var c := a.callId(e.provider, e.flow); View(db, c) == Bare(PersistResponse(a, part, e).db)
    ensures OwnRequestBlocks(a, db, e) == OwnRequestBlocks(a, part, e)
  {
    hide AmendRequestBlocks; hide ReplaceBlocks; hide ReplaceRows; hide Bump; hide Merge; hide ChunkRows;
    hide OfDirection;
    hide RespondedRow; hide OwnRows; hide Own; hide OwnBlocks;
    var c := a.callId(e.provider, e.flow);
    ChunkRowsLocal(db.chunks, c);
    assert View(db, c).chunks == part.chunks;
  }

  /** An ingested response, on the rows of its call. */
  lemma {:induction false} AnsweredView(a: Adapter, plan: Plan, db: Db, left: seq<File>, c: CallId) returns (part: Db)
    requires Inv(a, plan, db, left) && c in plan && plan[c].response.Some? && !Has(left, plan[c].response.value)
    ensures var e := plan[c].response.value;
      && e.ResponseEvent? && a.callId(e.provider, e.flow) == c && c in db.calls
      && IndexAgrees(Indexed(part.blocks, part.fts)) && PersistResponse(a, part, e).Saved?
      && View(db, c) == Bare(PersistResponse(a, part, e).db)
  {
    hide Has; hide PersistRequest; hide PersistResponse; hide View; hide IndexAgrees; hide Asked;
    var fl := plan[c];
    assert CallOk(a, plan, db, left, c);
    assert SpyDrain.Taken(fl, left) == fl.chunks;
    part := Chunked(Asked(a, fl.request), c, fl.chunks);
    AskedAgrees(a, fl.request);
  }

  /** A response that succeeds again on its call's rows and changes none of them does so on all tables. */
  lemma {:induction false} AgainOnAll(a: Adapter, db: Db, e: SpoolEvent)
    requires e.ResponseEvent?
    requires a.callId(e.provider, e.flow) in db.calls
    requires var c := a.callId(e.provider, e.flow);
      var again := PersistResponse(a, View(db, c), e);
      again.Saved? ==> Bare(again.db) == View(db, c)
    ensures var c, r := a.callId(e.provider, e.flow), PersistResponse(a, db, e);
      && (r.Saved? <==> PersistResponse(a, View(db, c), e).Saved?) && !r.NotYet?
      && (r.Saved? ==> Bare(r.db) == Bare(db))
  {
    var c := a.callId(e.provider, e.flow);
    KnownIsTried(a, db, e);
    hide PersistResponse; hide View; hide Bare;
    if PersistResponse(a, View(db, c), e).Saved? { ResponseLocalBack(a, db, e); }
    if PersistResponse(a, db, e).Saved? {
      ResponseLocal(a, db, e);
      var db' := PersistResponse(a, db, e).db;
      forall d ensures View(db', d) == View(db, d) {}
      ViewsDetermine(db', db);
    }
  }

  lemma {:induction false} KnownIsTried(a: Adapter, db: Db, e: SpoolEvent)
    requires e.ResponseEvent? && a.callId(e.provider, e.flow) in db.calls
    ensures !PersistResponse(a, db, e).NotYet?
  {
    hide AmendRequestBlocks; hide ReplaceBlocks; hide ReplaceRows; hide Bump; hide Merge; hide ChunkRows;
    hide OfDirection;
    hide RespondedRow;
  }

  /** At every moment of a drain, a response of the plan that has left the spool can come again: no table
      changes, and it is ingested exactly when all the request blocks it adds are marked as derived. */
  lemma {:induction false} ReplayInDrain(a: Adapter, plan: Plan, db: Db, left: seq<File>, c: CallId)
    requires Inv(a, plan, db, left) && c in plan && plan[c].response.Some? && !Has(left, plan[c].response.value)
    ensures plan[c].response.value.ResponseEvent?
    ensures var e := plan[c].response.value;
      var (o, db') := IngestFile(a, db, Some(e));
      && Bare(db') == Bare(db) && Inv(a, plan, db', left)
      && o == if AllDerived(OwnRequestBlocks(a, db, e)) then Ingested else Failed
  {
    hide PersistResponse; hide View; hide Inv; hide AllDerived; hide OwnRequestBlocks; hide IndexAgrees; hide Has;
    hide Bare;
    hide Bump;
    var part := AnsweredView(a, plan, db, left, c);
    var e := plan[c].response.value;
    var once := PersistResponse(a, part, e).db;
    ReplayedResponse(a, part, e);
    OwnBlocksLocal(a, db, part, e);
    CountersAside(once, View(db, c));
    ResponseIgnoresCounters(a, once, View(db, c), e);
    AgainOnAll(a, db, e);
    IngestResult(a, db, Some(e));
    var db' := IngestFile(a, db, Some(e)).1;
    CountersAside(db, db');
    InvUnchanged(a, plan, db, db', left);
  }

  lemma {:induction false} CountersAside(db: Db, db': Db)
    ensures db' == db.(counters := db'.counters) || db' == Bare(db) ==> Bare(db') == Bare(db)
  {}

  lemma {:induction false} InvUnchanged(a: Adapter, plan: Plan, db: Db, db': Db, left: seq<File>)
    requires Inv(a, plan, db, left)
    ensures Bare(db') == Bare(db) ==> Inv(a, plan, db', left)
  {
    hide CallOk; hide Belong; hide InOrder; hide Bare;
    if Bare(db') == Bare(db) { SameTables(a, plan, db, db', left, left); }
  }

  lemma {:induction false} ResponseIgnoresCounters(a: Adapter, db: Db, db': Db, e: SpoolEvent)
    requires e.ResponseEvent? && Bare(db) == Bare(db')
    ensures var r, r' := PersistResponse(a, db, e), PersistResponse(a, db', e);
      && (r.Saved? <==> r'.Saved?) && (r.NotYet? <==> r'.NotYet?) && (r.Saved? ==> Bare(r.db) == Bare(r'.db))
  {
    hide PersistResponse; hide Bare;
    PersistIgnoresCounters(a, db, db', e);
  }

  // ----- whole runs with duplicates -----

  /** Arrivals and a batch, or the response of a call once more. */
  datatype Step = Work(round: Round) | Again(call: CallId)

  function Works(steps: seq<Step>): seq<Round>
    decreases |steps|
  {
    if steps == [] then [] else (if steps[0].Work? then [steps[0].round] else []) + Works(steps[1..])
  }

  ghost function Run(a: Adapter, plan: Plan, s: Spooled, steps: seq<Step>): Spooled
    decreases |steps|
  {
    if steps == [] then s
    else
      match steps[0]
      case Work(r) => Run(a, plan, Batch(a, s.(spool := s.spool + r.arrivals), r.limit), steps[1..])
      case Again(c) =>
        var response := if c in plan then plan[c].response else None;
        Run(a, plan, s.(db := IngestFile(a, s.db, response).1), steps[1..])
  }

  /** A response comes again only when it has come and left before. */
  ghost predicate OnlyAgain(a: Adapter, plan: Plan, s: Spooled, steps: seq<Step>)
    decreases |steps|
  {
    steps == [] ||
      match steps[0]
      case Work(r) => OnlyAgain(a, plan, Batch(a, s.(spool := s.spool + r.arrivals), r.limit), steps[1..])
      case Again(c) =>
        && c in plan && plan[c].response.Some? && !Has(s.spool + Future(Works(steps[1..])), plan[c].response.value)
        && OnlyAgain(a, plan, s.(db := IngestFile(a, s.db, plan[c].response).1), steps[1..])
  }

  /** Responses that come again, however often and between which batches, leave spool and tables as if
      they had not come. */
  lemma {:induction false} DuplicatesChangeNothing(a: Adapter, plan: Plan, s: Spooled, steps: seq<Step>)
    requires Inv(a, plan, s.db, s.spool + Future(Works(steps))) && OnlyAgain(a, plan, s, steps)
    ensures var s', t := Run(a, plan, s, steps), Drain(a, s, Works(steps));
      s'.spool == t.spool && Bare(s'.db) == Bare(t.db)
    decreases |steps|
  {
    hide Inv; hide Batch; hide Bare; hide IngestFile; hide Has;
    if steps != [] {
      match steps[0] {
        case Work(r) =>
          var s1, rest := s.(spool := s.spool + r.arrivals), Works(steps[1..]);
          FirstRound(a, s, r, rest);
          assert Works(steps) == [r] + rest;
          assert s.spool + (r.arrivals + Future(rest)) == s1.spool + Future(rest);
          BatchInv(a, plan, s1, r.limit, Future(rest));
          DuplicatesChangeNothing(a, plan, Batch(a, s1, r.limit), steps[1..]);
        case Again(c) =>
          assert Works(steps) == Works(steps[1..]);
          var s1 := s.(db := IngestFile(a, s.db, plan[c].response).1);
          ReplayInDrain(a, plan, s.db, s.spool + Future(Works(steps)), c);
          DuplicatesChangeNothing(a, plan, s1, steps[1..]);
          DrainIgnoresCounters(a, s1, s, Works(steps));
      }
    }
  }

  lemma {:induction false} RestIgnoresCounters(a: Adapter, db: Db, db': Db, files: seq<File>)
    requires Bare(db) == Bare(db') && AllStay(a, db, files)
    ensures AllStay(a, db', files)
  {
    hide IngestFile; hide Bare;
    forall i | 0 <= i < |files| ensures Stays(IngestFile(a, db', files[i].event).0) {
      OutcomeIgnoresCounters(a, db, db', files[i].event);
    }
  }

  /** So draining is confluent with duplicates too: two runs that come to rest leave the same events in
      the spool and the same tables. */
  lemma {:induction false} DuplicatedRunsAgree(a: Adapter, plan: Plan, spool1: seq<File>, steps1: seq<Step>,
                                               spool2: seq<File>, steps2: seq<Step>)
    requires Lawful(a, plan, spool1 + Future(Works(steps1))) && OnlyAgain(a, plan, Spooled(EMPTY, spool1), steps1)
    requires Lawful(a, plan, spool2 + Future(Works(steps2))) && OnlyAgain(a, plan, Spooled(EMPTY, spool2), steps2)
    requires DistinctFlows(plan)
    requires var s := Run(a, plan, Spooled(EMPTY, spool1), steps1); AllStay(a, s.db, s.spool)
    requires var s := Run(a, plan, Spooled(EMPTY, spool2), steps2); AllStay(a, s.db, s.spool)
    ensures var s, t := Run(a, plan, Spooled(EMPTY, spool1), steps1), Run(a, plan, Spooled(EMPTY, spool2), steps2);
      Bare(s.db) == Bare(t.db) && forall e :: Has(s.spool, e) <==> Has(t.spool, e)
  {
    hide Run; hide Drain; hide Lawful; hide Inv; hide AllStay; hide Bare; hide OnlyAgain; hide DistinctFlows;
    hide Works;
    hide Future; hide Has;
    LawfulStart(a, plan, spool1 + Future(Works(steps1)));
    LawfulStart(a, plan, spool2 + Future(Works(steps2)));
    DuplicatesChangeNothing(a, plan, Spooled(EMPTY, spool1), steps1);
    DuplicatesChangeNothing(a, plan, Spooled(EMPTY, spool2), steps2);
    var s, t := Run(a, plan, Spooled(EMPTY, spool1), steps1), Run(a, plan, Spooled(EMPTY, spool2), steps2);
    RestIgnoresCounters(a, s.db, Drain(a, Spooled(EMPTY, spool1), Works(steps1)).db, s.spool);
    RestIgnoresCounters(a, t.db, Drain(a, Spooled(EMPTY, spool2), Works(steps2)).db, t.spool);
    DrainIsConfluent(a, plan, spool1, Works(steps1), spool2, Works(steps2));
  }

  lemma {:induction false} FirstRound(a: Adapter, s: Spooled, r: Round, rest: seq<Round>)
    ensures Future([r] + rest) == r.arrivals + Future(rest)
    ensures Drain(a, s, [r] + rest) == Drain(a, Batch(a, s.(spool := s.spool + r.arrivals), r.limit), rest)
  {
    hide Batch;
    assert ([r] + rest)[1..] == rest;
  }

  // ----- after an error event or a chunk in between -----

  /** The tables after a response file came once more. */
  ghost predicate NoOp(a: Adapter, db: Db, e: SpoolEvent) {
    Bare(IngestFile(a, db, Some(e)).1) == Bare(db)
  }

  /** A response changes no table when it comes, whatever came before, exactly when it is not ingested
      or they say already what it has to say. */
  lemma {:induction false} NoOpIff(a: Adapter, db: Db, e: SpoolEvent)
    requires IndexAgrees(Indexed(db.blocks, db.fts)) && e.ResponseEvent?
    ensures PersistResponse(a, db, e).Saved? ==> SaidNow(a, db, e).Some?
    ensures NoOp(a, db, e) <==>
      !PersistResponse(a, db, e).Saved? || Recorded(db, a.callId(e.provider, e.flow), SaidNow(a, db, e).value, e)
  {
    hide PersistResponse; hide Bare; hide IndexAgrees; hide SaidNow; hide Recorded; hide Bump;
    IngestResult(a, db, Some(e));
    if PersistResponse(a, db, e).Saved? {
      NoOpIffRecorded(a, db, e);
    } else {
      CountersAside(db, IngestFile(a, db, Some(e)).1);
    }
  }

  /** After an error event in between, the response that comes again puts the row back: no table changes
      only if it is not ingested, or is itself an error of the same time and flow. */
  lemma {:induction false} ReplayAfterErrorIff(a: Adapter, db: Db, e: SpoolEvent, x: SpoolEvent)
    requires IndexAgrees(Indexed(db.blocks, db.fts)) && e.ResponseEvent? && PersistResponse(a, db, e).Saved?
    requires x.ErrorEvent? && CallOf(a, x) == Some(a.callId(e.provider, e.flow))
    ensures NoOp(a, PersistError(a, PersistResponse(a, db, e).db, x), e) <==>
      || !AllDerived(OwnRequestBlocks(a, db, e))
      || (e.statusCode >= 400 && x.ts == e.ts && x.errorFlow == Some(e.flow))
  {
    hide PersistResponse; hide PersistError; hide Bare; hide IndexAgrees; hide AllDerived; hide OwnRequestBlocks;
    hide CallOf; hide Bump; hide Says;
    var once := PersistResponse(a, db, e).db;
    var marked := PersistError(a, once, x);
    ReplayedResponse(a, db, e);
    ResponseAfterError(a, once, e, x);
    ResponseSays(a, db, e, x);
    ErrorChangesNothingIff(a, once, x, a.callId(e.provider, e.flow));
    IngestResult(a, marked, Some(e));
    CountersAside(marked, IngestFile(a, marked, Some(e)).1);
  }

  /** The content hash tells two bodies of a response apart. */
  predicate TellsApart(a: Adapter, body: SpoolEvent, body': SpoolEvent) {
    var n, n' := a.response(body), a.response(body');
    n.Some? && n'.Some? && n.value.responseHash == n'.value.responseHash ==> body == body'
  }

  lemma {:induction false} HashRecorded(a: Adapter, db: Db, e: SpoolEvent)
    requires e.ResponseEvent? && PersistResponse(a, db, e).Saved?
    ensures a.response(SeenNow(a, db, e)).Some?
    ensures var c, once := a.callId(e.provider, e.flow), PersistResponse(a, db, e).db;
      && c in once.calls && once.calls[c].responseHash == a.response(SeenNow(a, db, e)).value.responseHash
      && once.chunks == db.chunks
  {
    hide AmendRequestBlocks; hide ReplaceBlocks; hide ReplaceRows; hide Bump; hide Merge; hide ChunkRows;
    hide OfDirection;
    hide BetterModel;
  }

  /** A chunk is of no account to a response whose body it leaves as it was. */
  lemma {:induction false} ChunksAside(a: Adapter, db: Db, y: SpoolEvent, e: SpoolEvent)
    requires e.ResponseEvent? && y.ChunkEvent? && SeenNow(a, PersistChunk(a, db, y), e) == SeenNow(a, db, e)
    ensures var r, r' := PersistResponse(a, db, e), PersistResponse(a, PersistChunk(a, db, y), e);
      && (r'.Saved? <==> r.Saved?)
      && (r.Saved? ==> Bare(r'.db) == Bare(r.db.(chunks := PersistChunk(a, db, y).chunks)))
  {
    hide AmendRequestBlocks; hide ReplaceBlocks; hide ReplaceRows; hide Bump; hide Merge; hide ChunkRows;
    hide OfDirection;
    hide RespondedRow;
  }

  /** After a chunk in between, the response that comes again changes no table exactly when it is not
      ingested, or its body is what it was without the chunk. */
  lemma {:induction false} ReplayAfterChunkIff(a: Adapter, db: Db, e: SpoolEvent, y: SpoolEvent)
    requires IndexAgrees(Indexed(db.blocks, db.fts)) && e.ResponseEvent? && PersistResponse(a, db, e).Saved?
    requires y.ChunkEvent?
    requires var late := PersistChunk(a, PersistResponse(a, db, e).db, y);
      TellsApart(a, SeenNow(a, db, e), SeenNow(a, late, e))
    ensures var late := PersistChunk(a, PersistResponse(a, db, e).db, y);
      NoOp(a, late, e) <==> !PersistResponse(a, late, e).Saved? || SeenNow(a, late, e) == SeenNow(a, db, e)
  {
    hide PersistResponse; hide Bare; hide IndexAgrees; hide AllDerived; hide OwnRequestBlocks; hide Bump; hide Merge;
    hide ChunkRows;
    var once := PersistResponse(a, db, e).db;
    var late := PersistChunk(a, once, y);
    HashRecorded(a, db, e);
    assert SeenNow(a, once, e) == SeenNow(a, db, e);
    IngestResult(a, late, Some(e));
    CountersAside(late, IngestFile(a, late, Some(e)).1);
    if PersistResponse(a, late, e).Saved? {
      HashRecorded(a, late, e);
      HashesDiffer(PersistResponse(a, late, e).db, late, a.callId(e.provider, e.flow));
      if SeenNow(a, late, e) == SeenNow(a, db, e) {
        ChunksAside(a, once, y, e);
        ReplayedResponse(a, db, e);
        ChunksReplaced(PersistResponse(a, once, e).db, once, late);
      }
    }
  }

  lemma {:induction false} HashesDiffer(x: Db, y: Db, c: CallId)
    ensures c in x.calls && c in y.calls && x.calls[c].responseHash != y.calls[c].responseHash ==> Bare(x) != Bare(y)
  {}

  lemma {:induction false} ChunksReplaced(x: Db, y: Db, late: Db)
    requires Bare(x) == Bare(y) && late == y.(chunks := late.chunks, counters := late.counters)
    ensures Bare(x.(chunks := late.chunks)) == Bare(late)
  {}

  // ----- examples -----

  const PIECE: SpoolEvent := ChunkEvent("bedrock", "f", 0, ChunkRow([0], None, ""))

  /** An adapter whose content hash tells whether there is a body. */
  const HASHING: Adapter := PLAIN.(response :=
    (e: SpoolEvent) =>
      Some(NormalizedResponse("m", if e.ResponseEvent? && e.body.bytes.Some? then Some("") else None, [], [], [], [])))

  lemma {:induction false} ThreeThenAgain(a: Adapter, q: File, p: File, z: File, asked: Db, late: Db)
    requires q.event.Some? && p.event.Some? && z.event.Some? && p.event.value.ResponseEvent?
    requires Persist(a, EMPTY, q.event.value) == Saved(asked) && PersistResponse(a, asked, p.event.value).Saved?
    requires Persist(a, PersistResponse(a, asked, p.event.value).db, z.event.value) == Saved(late)
    ensures Attempt(a, EMPTY, [q, p, z]).db == late && Attempt(a, EMPTY, [q, p, z]).kept == []
    ensures Attempt(a, EMPTY, [q, p, z, p]).db == IngestFile(a, late, p.event).1
  {
    hide PersistRequest; hide PersistResponse; hide PersistError; hide PersistChunk; hide Attempt; hide CallOf;
    Unstarted(a);
    Ingests(a, EMPTY, [], q, asked);
    assert [] + [q] == [q];
    Ingests(a, EMPTY, [q], p, PersistResponse(a, asked, p.event.value).db);
    assert [q] + [p] == [q, p];
    Ingests(a, EMPTY, [q, p], z, late);
    assert [q, p] + [z] == [q, p, z];
    assert [q, p, z] + [p] == [q, p, z, p];
    AttemptInParts(a, EMPTY, [q, p, z], [p]);
    OneFile(a, late, p);
  }

  lemma {:induction false} OneFile(a: Adapter, db: Db, f: File)
    ensures Attempt(a, db, [f]).db == IngestFile(a, db, f.event).1
  {
    hide IngestFile;
    assert [f][..0] == [];
  }

  /** Request, response, error event, the same response: it takes the error back. */
  lemma {:induction false} ReplayAfterErrorChanges(size: nat)
    ensures var q, p, x := File(size, Some(ASK)), File(size, Some(ANSWER)), File(size, Some(FAIL));
      && Attempt(PLAIN, EMPTY, [q, p, x]).kept == []
      && Bare(Attempt(PLAIN, EMPTY, [q, p, x, p]).db) != Bare(Attempt(PLAIN, EMPTY, [q, p, x]).db)
  {
    hide PersistRequest; hide PersistResponse; hide PersistError; hide Attempt; hide CallOf; hide Bare; hide IngestFile;
    hide AllDerived; hide IndexAgrees;
    var q, p, x := File(size, Some(ASK)), File(size, Some(ANSWER)), File(size, Some(FAIL));
    AskIsStored();
    var asked := PersistRequest(PLAIN, EMPTY, ASK).value;
    AskAgrees();
    NothingOwn(PLAIN, asked, ANSWER);
    ReplayAfterErrorIff(PLAIN, asked, ANSWER, FAIL);
    ThreeThenAgain(PLAIN, q, p, x, asked, PersistError(PLAIN, PersistResponse(PLAIN, asked, ANSWER).db, FAIL));
  }

  lemma {:induction false} AskAgrees()
    requires PersistRequest(PLAIN, EMPTY, ASK).Some?
    ensures var db := PersistRequest(PLAIN, EMPTY, ASK).value; IndexAgrees(Indexed(db.blocks, db.fts))
  {
    hide PersistRequest;
    assert Sound(EMPTY);
    RequestKeeps(PLAIN, EMPTY, ASK);
  }

  lemma {:induction false} NothingOwn(a: Adapter, db: Db, e: SpoolEvent)
    requires e.ResponseEvent? && SaidNow(a, db, e).Some? ==> SaidNow(a, db, e).value.blocks == []
    ensures e.ResponseEvent? ==> AllDerived(OwnRequestBlocks(a, db, e))
  {
    hide Merge; hide ChunkRows;
  }

  lemma {:induction false} ChunksMatter(e: SpoolEvent, y: SpoolEvent, c: CallId)
    requires e.ResponseEvent? && y.ChunkEvent? && y.row.bytes != []
    ensures Merge(e, ChunkRows(map[], c)) == e
    ensures var seen := Merge(e, ChunkRows(map[(c, y.index) := y.row], c)); seen.ResponseEvent? && seen.body.bytes.Some?
  {
    hide Merge;
    var rows := map[(c, y.index) := y.row];
    ChunkRowsBelow(map[], c, 0);
    ChunkRowsBelow(rows, c, y.index + 1);
    ChunksGap(rows, c, 0, y.index);
    assert ChunkRows(rows, c) == [y.row];
    hide ChunkRows;
    MergeFew(e, y.row);
  }

  lemma {:induction false} MergeFew(e: SpoolEvent, row: ChunkRow)
    requires e.ResponseEvent? && row.bytes != []
    ensures Merge(e, []) == e
    ensures var seen := Merge(e, [row]); seen.ResponseEvent? && seen.body.bytes.Some?
  {
    var bytes := BytesOf([row]);
    assert bytes == [row.bytes];
    assert Concat(bytes) == row.bytes + Concat(bytes[1..]);
  }

  lemma {:induction false} HashingStores()
    ensures PersistRequest(HASHING, EMPTY, ASK) == PersistRequest(PLAIN, EMPTY, ASK)
    ensures PersistRequest(HASHING, EMPTY, ASK).Some?
    ensures var asked := PersistRequest(HASHING, EMPTY, ASK).value;
      asked.chunks == map[] && HASHING.callId(ASK.provider, ASK.flow) in asked.calls
  {}

  lemma {:induction false} HashingAnswers(db: Db)
    requires HASHING.callId(ANSWER.provider, ANSWER.flow) in db.calls
    ensures PersistResponse(HASHING, db, ANSWER).Saved?
    ensures var once := PersistResponse(HASHING, db, ANSWER).db;
      once.chunks == db.chunks && HASHING.callId(ANSWER.provider, ANSWER.flow) in once.calls
  {
    hide ChunkRows; hide Merge; hide Bump; hide ReplaceRows; hide RespondedRow;
  }

  lemma {:induction false} HashTells(e: SpoolEvent, seen: SpoolEvent)
    requires e.ResponseEvent? && e.body.bytes.None? && seen.ResponseEvent? && seen.body.bytes.Some?
    ensures TellsApart(HASHING, e, seen)
  {}

  /** Request, response, a piece of the stream, the same response: it takes the piece in. */
  lemma {:induction false} ReplayAfterChunkChanges(size: nat)
    ensures var q, p, y := File(size, Some(ASK)), File(size, Some(ANSWER)), File(size, Some(PIECE));
      && Attempt(HASHING, EMPTY, [q, p, y]).kept == []
      && Bare(Attempt(HASHING, EMPTY, [q, p, y, p]).db) != Bare(Attempt(HASHING, EMPTY, [q, p, y]).db)
  {
    hide PersistRequest; hide PersistResponse; hide Attempt; hide Bare; hide IngestFile; hide IndexAgrees; hide Merge;
    hide ChunkRows;
    hide Bump;
    var q, p, y := File(size, Some(ASK)), File(size, Some(ANSWER)), File(size, Some(PIECE));
    var c := HASHING.callId(ASK.provider, ASK.flow);
    HashingStores();
    AskIsStored();
    AskAgrees();
    var asked := PersistRequest(HASHING, EMPTY, ASK).value;
    HashingAnswers(asked);
    var late := PersistChunk(HASHING, PersistResponse(HASHING, asked, ANSWER).db, PIECE);
    HashingAnswers(late);
    ChunksMatter(ANSWER, PIECE, c);
    assert SeenNow(HASHING, asked, ANSWER) == ANSWER;
    assert late.chunks == map[(c, PIECE.index) := PIECE.row];
    HashTells(ANSWER, SeenNow(HASHING, late, ANSWER));
    ReplayAfterChunkIff(HASHING, asked, ANSWER, PIECE);
    ThreeThenAgain(HASHING, q, p, y, asked, late);
  }
}
