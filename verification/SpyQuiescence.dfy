/** Quiescence: when attempting what is left changes nothing any more. Two full batches lead there,
    and where it is does not depend on the order of the files. */
module SpyQuiescence {
  import opened Bytes
  import opened SpyTables
  import opened SpyBatches
  import opened SpyViews
  import opened SpyDrain

  /** No two requests share a flow id. */
  ghost predicate DistinctFlows(plan: Plan) {
    forall c, d :: c in plan && d in plan && c != d && plan[c].request.RequestEvent? && plan[d].request.RequestEvent?
      ==> plan[c].request.flow != plan[d].request.flow
  }

  /** An event of the flow that can never be ingested: its request cannot be stored, or it is a
      response that cannot be stored after the request and all chunks. */
  ghost predicate Hopeless(a: Adapter, c: CallId, fl: Flow, e: SpoolEvent)
    requires FlowOk(a, c, fl)
  {
    !Storable(a, fl.request) || (e.ResponseEvent? && !Answerable(a, c, fl))
  }

  // ----- requests -----

  lemma {:induction false} AskedFlow(a: Adapter, c: CallId, request: SpoolEvent)
    requires request.RequestEvent? && CallOf(a, request) == Some(c)
    ensures var calls := Asked(a, request).calls; c in calls ==> calls[c].requestFlow == request.flow
  {
    hide ReplaceBlocks; hide ReplaceRows; hide Bump;
  }

  lemma {:induction false} AnsweredFlow(a: Adapter, db: Db, response: SpoolEvent, c: CallId)
    ensures c in Answered(a, db, response).calls ==>
      c in db.calls && Answered(a, db, response).calls[c].requestFlow == db.calls[c].requestFlow
  {
    hide AmendRequestBlocks; hide ReplaceBlocks; hide ReplaceRows; hide Bump; hide Merge; hide ChunkRows;
    hide OfDirection;
    hide BetterModel;
  }

  lemma {:induction false} ExpectedFlow(a: Adapter, c: CallId, fl: Flow, left: seq<File>)
    requires FlowOk(a, c, fl)
    ensures var calls := Expected(a, c, fl, left).calls; c in calls ==> calls[c].requestFlow == fl.request.flow
  {
    hide Has; hide Asked; hide Answered;
    AskedFlow(a, c, fl.request);
    if fl.response.Some? {
      AnsweredFlow(a, Chunked(Asked(a, fl.request), c, SpyDrain.Taken(fl, left)), fl.response.value, c);
    }
  }

  lemma {:induction false} FlowsRecorded(a: Adapter, plan: Plan, db: Db, left: seq<File>, d: CallId)
    requires Inv(a, plan, db, left) && d in db.calls
    ensures d in plan && plan[d].request.RequestEvent? && db.calls[d].requestFlow == plan[d].request.flow
  {
    hide Has; hide Expected; hide AllThere;
    assert CallOk(a, plan, db, left, d);
    assert d in View(db, d).calls && View(db, d).calls[d] == db.calls[d];
    hide View;
    if d in plan { ExpectedFlow(a, d, plan[d], left); }
  }

  lemma {:induction false} UpsertSucceeds(calls: map<CallId, CallRow>, id: CallId, n: NormalizedRequest, ts: real,
                                          flow: string)
    requires forall d :: d in calls && d != id ==> calls[d].requestFlow != flow
    ensures UpsertPending(calls, id, n, ts, flow).Some?
  {}

  /** A request that is left can be stored exactly when it could be on its own. */
  lemma {:induction false} RequestSucceedsIff(a: Adapter, plan: Plan, db: Db, left: seq<File>, c: CallId)
    requires Inv(a, plan, db, left) && DistinctFlows(plan) && c in plan && Has(left, plan[c].request)
    ensures plan[c].request.RequestEvent?
    ensures PersistRequest(a, db, plan[c].request).Some? <==> Storable(a, plan[c].request)
  {
    hide Has; hide AllThere; hide ReplaceRows; hide Bump; hide ReplaceBlocks; hide Answerable;
    var e := plan[c].request;
    assert CallOk(a, plan, db, left, c);
    assert View(db, c) == EMPTY;
    if PersistRequest(a, db, e).Some? { RequestLocal(a, db, e); }
    if Storable(a, e) {
      var n := a.request(e).value;
      forall d | d in db.calls && d != c ensures db.calls[d].requestFlow != e.flow {
        FlowsRecorded(a, plan, db, left, d);
      }
      UpsertSucceeds(db.calls, c, n, e.ts, e.flow);
      hide Inv; hide UpsertPending;
      assert OwnIndexed(Indexed(db.blocks, db.fts), c) == Indexed(EMPTY.blocks, EMPTY.fts) by {
        assert View(db, c).blocks == EMPTY.blocks && View(db, c).fts == EMPTY.fts;
      }
      ReplaceLocal(Indexed(db.blocks, db.fts), c, Request, n.blocks);
    }
  }

  // ----- responses -----

  /** So can a response of a recorded call, once no chunk of it is left. */
  lemma {:induction false} ResponseSucceedsIff(a: Adapter, plan: Plan, db: Db, left: seq<File>, c: CallId,
                                               e: SpoolEvent)
    requires Inv(a, plan, db, left) && c in plan && c in db.calls && Has(left, e)
    requires e.ResponseEvent? && CallOf(a, e) == Some(c) && PartOf(plan[c], e)
    requires forall i :: i in plan[c].chunks ==> !Has(left, plan[c].chunks[i])
    ensures FlowOk(a, c, plan[c])
    ensures PersistResponse(a, db, e).Saved? <==> Answerable(a, c, plan[c])
  {
    hide Has; hide AllThere; hide PersistResponse; hide View; hide Asked; hide Chunked; hide Storable;
    var fl := plan[c];
    assert CallOk(a, plan, db, left, c);
    assert SpyDrain.Taken(fl, left) == fl.chunks;
    if PersistResponse(a, db, e).Saved? { ResponseLocal(a, db, e); }
    if Answerable(a, c, fl) { ResponseLocalBack(a, db, e); }
  }

  lemma {:induction false} Attempted(pre: seq<File>, f: File, post: seq<File>)
    requires f.event.Some?
    ensures Has(pre + [f] + post, f.event.value)
  {
    assert (pre + [f] + post)[|pre|] == f;
  }

  // ----- one file -----

  /** What keeps an event of a flow in the spool, while `left` is left. */
  ghost predicate Waits(a: Adapter, c: CallId, fl: Flow, left: seq<File>, e: SpoolEvent)
    requires FlowOk(a, c, fl)
  {
    match e
    case RequestEvent(_, _, _, _, _) => !Storable(a, fl.request)
    case ChunkEvent(_, _, _, _) => Has(left, fl.request)
    case _ => Has(left, fl.request) || !Answerable(a, c, fl)
  }

  lemma {:induction false} KnownCall(a: Adapter, plan: Plan, db: Db, left: seq<File>, c: CallId)
    requires Inv(a, plan, db, left) && c in plan
    ensures FlowOk(a, c, plan[c]) && (c in db.calls <==> !Has(left, plan[c].request))
    ensures !Has(left, plan[c].request) ==> Storable(a, plan[c].request)
    ensures Has(left, plan[c].request) ==> AllThere(plan[c], left)
    ensures plan[c].response.Some? && !Has(left, plan[c].response.value) ==> Answerable(a, c, plan[c])
  {
    hide Has; hide View; hide Expected; hide AllThere; hide Storable; hide Answerable;
    assert CallOk(a, plan, db, left, c);
  }

  /** A file of a batch stays exactly when it is an event that waits. */
  lemma {:induction false} StaysIffWaits(a: Adapter, plan: Plan, db: Db, pre: seq<File>, f: File, post: seq<File>)
    requires Inv(a, plan, db, pre + [f] + post) && DistinctFlows(plan) && ChunksWait(a, plan, pre)
    ensures Planned(a, plan, f) ==> FlowOk(a, CallOf(a, f.event.value).value, plan[CallOf(a, f.event.value).value])
    ensures Stays(IngestFile(a, db, f.event).0) <==>
      Planned(a, plan, f) && var c := CallOf(a, f.event.value).value;
        Waits(a, c, plan[c], pre + [f] + post, f.event.value)
  {
    var all := pre + [f] + post;
    assert Planned(a, plan, f) || Neutral(a, f) by { assert all[|pre|] == f; }
    if Planned(a, plan, f) {
      var e, c := f.event.value, CallOf(a, f.event.value).value;
      Attempted(pre, f, post);
      KnownCall(a, plan, db, all, c);
      if e.RequestEvent? { RequestSucceedsIff(a, plan, db, all, c); }
      if e.ResponseEvent? && c in db.calls {
        NoChunkLeft(a, plan, db, pre, f, post, c);
        ResponseSucceedsIff(a, plan, db, all, c, e);
      }
      hide Inv; hide Has; hide PersistRequest; hide PersistResponse; hide PersistChunk; hide Bump; hide Storable;
      hide Answerable; hide AllThere; hide ChunksWait;
    } else {
      if f.event.Some? { NeutralEvent(a, db, f.event.value); }
      hide Inv; hide Persist; hide Bump; hide ChunksWait;
    }
  }

  // ----- quiescence -----

  /** Every file is an event of the plan, and hopeless. */
  ghost predicate AllHopeless(a: Adapter, plan: Plan, left: seq<File>) {
    forall i :: 0 <= i < |left| ==> HopelessFile(a, plan, left[i])
  }

  ghost predicate HopelessFile(a: Adapter, plan: Plan, f: File) {
    Planned(a, plan, f) && var c := CallOf(a, f.event.value).value;
      FlowOk(a, c, plan[c]) && Hopeless(a, c, plan[c], f.event.value)
  }

  lemma {:induction false} HasPlanned(a: Adapter, plan: Plan, left: seq<File>, c: CallId, e: SpoolEvent)
    requires AllHopeless(a, plan, left) && c in plan && FlowOk(a, c, plan[c]) && CallOf(a, e) == Some(c) && Has(left, e)
    ensures Hopeless(a, c, plan[c], e)
  {
    var i :| 0 <= i < |left| && left[i].event == Some(e);
    assert HopelessFile(a, plan, left[i]);
  }

  /** If only hopeless events are left, attempting any of them changes nothing. */
  lemma {:induction false} HopelessStay(a: Adapter, plan: Plan, db: Db, left: seq<File>, f: File)
    requires Inv(a, plan, db, left) && AllHopeless(a, plan, left) && f in left
    ensures Stays(IngestFile(a, db, f.event).0)
  {
    var i :| 0 <= i < |left| && left[i] == f;
    assert HopelessFile(a, plan, f);
    var e, c := f.event.value, CallOf(a, f.event.value).value;
    var fl := plan[c];
    KnownCall(a, plan, db, left, c);
    assert Has(left, e);
    if c in db.calls {
      forall k | k in fl.chunks ensures Has(left, fl.chunks[k]) ==> Hopeless(a, c, fl, fl.chunks[k]) {
        if Has(left, fl.chunks[k]) { HasPlanned(a, plan, left, c, fl.chunks[k]); }
      }
      ResponseSucceedsIff(a, plan, db, left, c, e);
    } else if e.RequestEvent? {
      CannotBeStored(a, plan, db, left, c);
    }
    hide Inv; hide Has; hide PersistRequest; hide PersistResponse; hide Bump; hide Storable; hide Answerable;
    hide AllHopeless;
  }

  lemma {:induction false} CannotBeStored(a: Adapter, plan: Plan, db: Db, left: seq<File>, c: CallId)
    requires Inv(a, plan, db, left) && c in plan && Has(left, plan[c].request) && !Storable(a, plan[c].request)
    ensures plan[c].request.RequestEvent? ==> PersistRequest(a, db, plan[c].request).None?
  {
    hide Has; hide AllThere; hide PersistRequest; hide Answerable;
    assert CallOk(a, plan, db, left, c);
    assert View(db, c) == EMPTY;
    if plan[c].request.RequestEvent? && PersistRequest(a, db, plan[c].request).Some? {
      RequestLocal(a, db, plan[c].request);
    }
  }

  /** If the files before a place all stay, the chunks among them wait for requests among them. */
  lemma {:induction false} QuietChunksWait(a: Adapter, plan: Plan, db: Db, left: seq<File>, n: nat)
    requires Inv(a, plan, db, left) && n <= |left| && AllStay(a, db, left[..n])
    ensures ChunksWait(a, plan, left[..n])
  {
    hide Inv; hide IngestFile; hide Planned; hide Has;
    if n == 0 {
      NoneWait(a, plan);
    } else {
      var pre, f, post := left[..n - 1], left[n - 1], left[n..];
      assert left == pre + [f] + post && left[..n] == pre + [f];
      PrefixStays(a, db, left[..n], n - 1);
      assert left[..n][..n - 1] == left[..n - 1] && left[..n][n - 1] == f;
      QuietChunksWait(a, plan, db, left, n - 1);
      assert Stays(IngestFile(a, db, f.event).0);
      ChunkWaits(a, plan, db, pre, f, post);
    }
  }

  lemma {:induction false} PrefixStays(a: Adapter, db: Db, files: seq<File>, n: nat)
    requires AllStay(a, db, files) && n <= |files|
    ensures AllStay(a, db, files[..n])
  {
    hide IngestFile;
    assert forall i :: 0 <= i < n ==> files[..n][i] == files[i];
  }

  lemma {:induction false} NoneWait(a: Adapter, plan: Plan)
    ensures ChunksWait(a, plan, [])
  {}

  lemma {:induction false} ChunkWaits(a: Adapter, plan: Plan, db: Db, pre: seq<File>, f: File, post: seq<File>)
    requires Inv(a, plan, db, pre + [f] + post) && ChunksWait(a, plan, pre) && Stays(IngestFile(a, db, f.event).0)
    ensures ChunksWait(a, plan, pre + [f])
  {
    hide Inv; hide IngestFile; hide ChunksWait;
    if Planned(a, plan, f) && f.event.value.ChunkEvent? { DeferredChunkWaits(a, plan, db, pre, f, post); }
    WaitMore(a, plan, pre, f);
  }

  /** In a quiescent spool everything left is hopeless. */
  lemma {:induction false} QuiescentIsHopeless(a: Adapter, plan: Plan, db: Db, left: seq<File>)
    requires Inv(a, plan, db, left) && DistinctFlows(plan) && AllStay(a, db, left)
    ensures AllHopeless(a, plan, left)
  {
    hide Inv; hide IngestFile; hide Storable; hide Answerable; hide Has; hide DistinctFlows; hide ChunksWait;
    hide CallOf;
    forall c | c in plan && Has(left, plan[c].request)
      ensures FlowOk(a, c, plan[c]) && !Storable(a, plan[c].request)
    {
      KnownCall(a, plan, db, left, c);
      RequestLeftFails(a, plan, db, left, c);
    }
    forall i | 0 <= i < |left| ensures HopelessFile(a, plan, left[i]) {
      var pre, f, post := left[..i], left[i], left[i + 1..];
      assert left == pre + [f] + post;
      PrefixStays(a, db, left, i);
      QuietChunksWait(a, plan, db, left, i);
      StaysIffWaits(a, plan, db, pre, f, post);
      var c := CallOf(a, f.event.value).value;
      assert Waits(a, c, plan[c], left, f.event.value);
    }
  }

  lemma {:induction false} RequestLeftFails(a: Adapter, plan: Plan, db: Db, left: seq<File>, c: CallId)
    requires Inv(a, plan, db, left) && DistinctFlows(plan) && AllStay(a, db, left)
    requires c in plan && Has(left, plan[c].request)
    ensures !Storable(a, plan[c].request)
  {
    RequestSucceedsIff(a, plan, db, left, c);
    var i :| 0 <= i < |left| && left[i].event == Some(plan[c].request);
    assert Stays(IngestFile(a, db, left[i].event).0);
    hide Inv; hide PersistRequest; hide Storable; hide Bump;
  }

  /** Which events are left at quiescence is decided by each flow on its own. */
  lemma {:induction false} LeftIffHopeless(a: Adapter, plan: Plan, db: Db, left: seq<File>, c: CallId, e: SpoolEvent)
    requires Inv(a, plan, db, left) && DistinctFlows(plan) && AllStay(a, db, left)
    requires c in plan && CallOf(a, e) == Some(c) && PartOf(plan[c], e)
    ensures FlowOk(a, c, plan[c]) && (Has(left, e) <==> Hopeless(a, c, plan[c], e))
  {
    hide IngestFile; hide Storable; hide Answerable; hide CallOf; hide DistinctFlows; hide Inv; hide Has;
    KnownCall(a, plan, db, left, c);
    QuiescentIsHopeless(a, plan, db, left);
    if Has(left, e) { HasPlanned(a, plan, left, c, e); }
    hide AllHopeless;
    if Hopeless(a, c, plan[c], e) { assert Storable(a, plan[c].request) ==> e.ResponseEvent?; }
  }

  lemma {:induction false} LeftIsPlanned(a: Adapter, plan: Plan, left: seq<File>, e: SpoolEvent)
    requires AllHopeless(a, plan, left) && Has(left, e)
    ensures CallOf(a, e).Some? && CallOf(a, e).value in plan && PartOf(plan[CallOf(a, e).value], e)
  {
    var i :| 0 <= i < |left| && left[i].event == Some(e);
    assert HopelessFile(a, plan, left[i]);
  }

  lemma {:induction false} SameLeft(a: Adapter, plan: Plan, db1: Db, left1: seq<File>, db2: Db, left2: seq<File>,
                                    e: SpoolEvent)
    requires Inv(a, plan, db1, left1) && AllStay(a, db1, left1) && Inv(a, plan, db2, left2) && AllStay(a, db2, left2)
    requires DistinctFlows(plan) && Has(left1, e)
    ensures Has(left2, e)
  {
    hide Inv; hide AllStay; hide Has; hide DistinctFlows; hide PartOf; hide CallOf; hide Hopeless;
    QuiescentIsHopeless(a, plan, db1, left1);
    LeftIsPlanned(a, plan, left1, e);
    var c := CallOf(a, e).value;
    LeftIffHopeless(a, plan, db1, left1, c, e);
    LeftIffHopeless(a, plan, db2, left2, c, e);
  }

  lemma {:induction false} SameExpected(a: Adapter, c: CallId, fl: Flow, left1: seq<File>, left2: seq<File>)
    requires FlowOk(a, c, fl) && forall e :: Has(left1, e) <==> Has(left2, e)
    ensures Expected(a, c, fl, left1) == Expected(a, c, fl, left2)
  {
    hide Has; hide Asked; hide Answered; hide Chunked;
    assert SpyDrain.Taken(fl, left1) == SpyDrain.Taken(fl, left2);
  }

  lemma {:induction false} SameViews(a: Adapter, plan: Plan, db1: Db, left1: seq<File>, db2: Db, left2: seq<File>,
                                     c: CallId)
    requires Inv(a, plan, db1, left1) && Inv(a, plan, db2, left2) && forall e :: Has(left1, e) <==> Has(left2, e)
    ensures View(db1, c) == View(db2, c)
  {
    hide Has; hide Expected; hide View; hide AllThere; hide Storable; hide Answerable;
    assert CallOk(a, plan, db1, left1, c) && CallOk(a, plan, db2, left2, c);
    if c in plan { SameExpected(a, c, plan[c], left1, left2); }
  }

  /** Draining is confluent: whatever the two file orders, arrivals and batch limits, if both drains
      come to rest, they leave the same events in the spool and the same tables. */
  lemma {:induction false} DrainIsConfluent(a: Adapter, plan: Plan, spool1: seq<File>, rounds1: seq<Round>,
                                            spool2: seq<File>, rounds2: seq<Round>)
    requires Lawful(a, plan, spool1 + Future(rounds1)) && Lawful(a, plan, spool2 + Future(rounds2))
    requires DistinctFlows(plan)
    requires var s := Drain(a, Spooled(EMPTY, spool1), rounds1); AllStay(a, s.db, s.spool)
    requires var s := Drain(a, Spooled(EMPTY, spool2), rounds2); AllStay(a, s.db, s.spool)
    ensures var s, t := Drain(a, Spooled(EMPTY, spool1), rounds1), Drain(a, Spooled(EMPTY, spool2), rounds2);
      Bare(s.db) == Bare(t.db) && forall e :: Has(s.spool, e) <==> Has(t.spool, e)
  {
    hide Drain; hide Lawful; hide Inv; hide AllStay; hide Has; hide View; hide DistinctFlows; hide Bare;
    LawfulStart(a, plan, spool1 + Future(rounds1));
    LawfulStart(a, plan, spool2 + Future(rounds2));
    DrainInv(a, plan, Spooled(EMPTY, spool1), rounds1);
    DrainInv(a, plan, Spooled(EMPTY, spool2), rounds2);
    var s, t := Drain(a, Spooled(EMPTY, spool1), rounds1), Drain(a, Spooled(EMPTY, spool2), rounds2);
    forall e ensures Has(s.spool, e) <==> Has(t.spool, e) {
      if Has(s.spool, e) { SameLeft(a, plan, s.db, s.spool, t.db, t.spool, e); }
      if Has(t.spool, e) { SameLeft(a, plan, t.db, t.spool, s.db, s.spool, e); }
    }
    forall c ensures View(s.db, c) == View(t.db, c) { SameViews(a, plan, s.db, s.spool, t.db, t.spool, c); }
    ViewsDetermine(s.db, t.db);
  }

  // ----- two batches settle a spool -----

  /** No request is left that could be stored. */
  ghost predicate RequestsDoomed(a: Adapter, files: seq<File>) {
    forall i :: 0 <= i < |files| && files[i].event.Some? && files[i].event.value.RequestEvent?
      ==> !Storable(a, files[i].event.value)
  }

  lemma {:induction false} StayingRequest(a: Adapter, plan: Plan, db: Db, pre: seq<File>, f: File, post: seq<File>)
    requires Inv(a, plan, db, pre + [f] + post) && DistinctFlows(plan) && ChunksWait(a, plan, pre)
    requires Stays(IngestFile(a, db, f.event).0) && f.event.Some? && f.event.value.RequestEvent?
    ensures !Storable(a, f.event.value)
  {
    StaysIffWaits(a, plan, db, pre, f, post);
    hide Inv; hide IngestFile; hide ChunksWait; hide Storable;
  }

  /** The first batch ingests every request that can be stored. */
  lemma {:induction false} RequestsSettle(a: Adapter, plan: Plan, db: Db, files: seq<File>, rest: seq<File>)
    requires Inv(a, plan, db, files + rest) && DistinctFlows(plan)
    ensures RequestsDoomed(a, Attempt(a, db, files).kept)
    decreases |files|
  {
    hide Inv; hide IngestFile; hide DistinctFlows; hide ChunksWait; hide Storable;
    if files != [] {
      var n := |files| - 1;
      var f := files[n];
      assert files + rest == files[..n] + ([f] + rest);
      RequestsSettle(a, plan, db, files[..n], [f] + rest);
      AttemptInv(a, plan, db, files[..n], [f] + rest);
      var before := Attempt(a, db, files[..n]);
      assert before.kept + [f] + rest == before.kept + ([f] + rest);
      if Stays(IngestFile(a, before.db, f.event).0) && f.event.Some? && f.event.value.RequestEvent? {
        StayingRequest(a, plan, before.db, before.kept, f, rest);
      }
    }
  }

  /** With only doomed requests before and behind it, a file that stays is hopeless. */
  lemma {:induction false} StayingIsHopeless(a: Adapter, plan: Plan, db: Db, pre: seq<File>, f: File, post: seq<File>)
    requires Inv(a, plan, db, pre + [f] + post) && DistinctFlows(plan) && ChunksWait(a, plan, pre)
    requires RequestsDoomed(a, pre + [f] + post) && Stays(IngestFile(a, db, f.event).0)
    ensures HopelessFile(a, plan, f)
  {
    StaysIffWaits(a, plan, db, pre, f, post);
    var c := CallOf(a, f.event.value).value;
    KnownCall(a, plan, db, pre + [f] + post, c);
    hide Inv; hide IngestFile; hide ChunksWait; hide Storable; hide Answerable; hide DistinctFlows;
  }

  lemma {:induction false} HopelessRequestsDoomed(a: Adapter, plan: Plan, files: seq<File>)
    requires AllHopeless(a, plan, files)
    ensures RequestsDoomed(a, files)
  {
    hide Storable; hide Answerable;
    forall i | 0 <= i < |files| && files[i].event.Some? && files[i].event.value.RequestEvent?
      ensures !Storable(a, files[i].event.value)
    {
      assert HopelessFile(a, plan, files[i]);
    }
  }

  lemma {:induction false} DoomedParts(a: Adapter, x: seq<File>, y: seq<File>)
    ensures RequestsDoomed(a, x + y) <==> RequestsDoomed(a, x) && RequestsDoomed(a, y)
  {
    hide Storable;
    if RequestsDoomed(a, x + y) {
      assert forall i :: 0 <= i < |x| ==> (x + y)[i] == x[i];
      assert forall i :: 0 <= i < |y| ==> (x + y)[|x| + i] == y[i];
    }
  }

  /** The second batch leaves only hopeless files. */
  lemma {:induction false} RestSettles(a: Adapter, plan: Plan, db: Db, files: seq<File>, rest: seq<File>)
    requires Inv(a, plan, db, files + rest) && DistinctFlows(plan) && RequestsDoomed(a, files + rest)
    ensures AllHopeless(a, plan, Attempt(a, db, files).kept)
    decreases |files|
  {
    hide Inv; hide IngestFile; hide DistinctFlows; hide ChunksWait; hide HopelessFile; hide RequestsDoomed;
    if files != [] {
      var n := |files| - 1;
      var f := files[n];
      assert files + rest == files[..n] + ([f] + rest);
      RestSettles(a, plan, db, files[..n], [f] + rest);
      AttemptInv(a, plan, db, files[..n], [f] + rest);
      var before := Attempt(a, db, files[..n]);
      assert before.kept + [f] + rest == before.kept + ([f] + rest);
      DoomedParts(a, files[..n], [f] + rest);
      HopelessRequestsDoomed(a, plan, before.kept);
      DoomedParts(a, before.kept, [f] + rest);
      if Stays(IngestFile(a, before.db, f.event).0) {
        StayingIsHopeless(a, plan, before.db, before.kept, f, rest);
      }
    }
  }

  lemma {:induction false} FullBatch(a: Adapter, s: Spooled, limit: nat)
    requires |s.spool| <= limit
    ensures var r := Attempt(a, s.db, s.spool); Batch(a, s, limit) == Spooled(r.db, r.kept)
  {
    hide Attempt;
    assert s.spool[..|s.spool|] == s.spool;
    assert s.spool[|s.spool|..] == [];
  }

  /** After two full batches, what is left of the spool is hopeless. */
  lemma {:induction false} TwoBatches(a: Adapter, plan: Plan, spool: seq<File>, limit: nat)
    requires Lawful(a, plan, spool) && DistinctFlows(plan) && |spool| <= limit
    ensures var s := Drain(a, Spooled(EMPTY, spool), [Round([], limit), Round([], limit)]);
      Inv(a, plan, s.db, s.spool) && AllHopeless(a, plan, s.spool)
  {
    hide Lawful; hide Attempt; hide Inv; hide Batch; hide RequestsDoomed; hide AllHopeless; hide DistinctFlows;
    hide ChunksWait;
    var start := Spooled(EMPTY, spool);
    LawfulStart(a, plan, spool);
    assert spool + [] == spool;
    RequestsSettle(a, plan, EMPTY, spool, []);
    AttemptInv(a, plan, EMPTY, spool, []);
    KeptFits(a, EMPTY, spool);
    FullBatch(a, start, limit);
    var s1 := Batch(a, start, limit);
    assert s1.spool + [] == s1.spool;
    RestSettles(a, plan, s1.db, s1.spool, []);
    AttemptInv(a, plan, s1.db, s1.spool, []);
    FullBatch(a, s1, limit);
    var s2 := Batch(a, s1, limit);
    assert s2.spool + [] == s2.spool;
    TwoRounds(a, start, limit);
  }

  /** Whatever the order and whatever fails, two batches as large as the spool bring it to rest. */
  lemma {:induction false} TwoBatchesSettle(a: Adapter, plan: Plan, spool: seq<File>, limit: nat)
    requires Lawful(a, plan, spool) && DistinctFlows(plan) && |spool| <= limit
    ensures var s := Drain(a, Spooled(EMPTY, spool), [Round([], limit), Round([], limit)]); AllStay(a, s.db, s.spool)
  {
    hide Lawful; hide Drain; hide Inv; hide AllHopeless; hide DistinctFlows; hide IngestFile;
    TwoBatches(a, plan, spool, limit);
    var s := Drain(a, Spooled(EMPTY, spool), [Round([], limit), Round([], limit)]);
    forall i | 0 <= i < |s.spool| ensures Stays(IngestFile(a, s.db, s.spool[i].event).0) {
      HopelessStay(a, plan, s.db, s.spool, s.spool[i]);
    }
  }

  /** Every flow can be stored on its own. */
  ghost predicate Clean(a: Adapter, plan: Plan) {
    forall c :: c in plan ==> FlowOk(a, c, plan[c]) && Storable(a, plan[c].request) && Answerable(a, c, plan[c])
  }

  /** If nothing fails on its own, they empty it. */
  lemma {:induction false} TwoBatchesDrain(a: Adapter, plan: Plan, spool: seq<File>, limit: nat)
    requires Lawful(a, plan, spool) && DistinctFlows(plan) && Clean(a, plan) && |spool| <= limit
    ensures Drain(a, Spooled(EMPTY, spool), [Round([], limit), Round([], limit)]).spool == []
  {
    hide Lawful; hide Drain; hide Inv; hide DistinctFlows; hide Storable; hide Answerable; hide CallOf; hide PartOf;
    TwoBatches(a, plan, spool, limit);
    var s := Drain(a, Spooled(EMPTY, spool), [Round([], limit), Round([], limit)]);
    assert s.spool != [] ==> HopelessFile(a, plan, s.spool[0]);
  }

  lemma {:induction false} TwoRounds(a: Adapter, s: Spooled, limit: nat)
    ensures Drain(a, s, [Round([], limit), Round([], limit)]) == Batch(a, Batch(a, s, limit), limit)
  {
    hide Batch;
    var once := Batch(a, s, limit);
    assert [Round([], limit), Round([], limit)][1..] == [Round([], limit)];
    assert [Round([], limit)][1..] == [];
    assert s.spool + [] == s.spool && once.spool + [] == once.spool;
    assert Drain(a, Batch(a, once, limit), []) == Batch(a, once, limit);
  }
}
