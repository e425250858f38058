/** Error events. Their order matters: what one records is lost before its request, and overwritten by
    its response; where in a run an error event makes a difference is stated exactly. */
module SpyErrors {
  import opened Bytes
  import opened SpyTables
  import opened SpyBatches
  import opened SpyViews
  import opened SpyDrain
  import opened SpyOutcome

  /** The row reads as the error event leaves it. */
  predicate Says(row: CallRow, x: SpoolEvent)
    requires x.ErrorEvent?
  {
    row.status == Errored && row.completedAt == Some(x.ts) && row.responseFlow == x.errorFlow
  }

  function Marked(row: CallRow, x: SpoolEvent): CallRow
    requires x.ErrorEvent?
  {
    row.(status := Errored, completedAt := Some(x.ts), responseFlow := x.errorFlow)
  }

  lemma {:induction false} ErrorIs(a: Adapter, db: Db, x: SpoolEvent, c: CallId)
    requires x.ErrorEvent? && CallOf(a, x) == Some(c)
    ensures Bare(PersistError(a, db, x))
      == Bare(if c in db.calls then db.(calls := db.calls[c := Marked(db.calls[c], x)]) else db)
  {
    hide Bump; hide CallOf;
  }

  /** An error event changes nothing exactly when its call is unknown or reads so already. */
  lemma {:induction false} ErrorChangesNothingIff(a: Adapter, db: Db, x: SpoolEvent, c: CallId)
    requires x.ErrorEvent? && CallOf(a, x) == Some(c)
    ensures Bare(PersistError(a, db, x)) == Bare(db) <==> (c in db.calls ==> Says(db.calls[c], x))
  {
    ErrorIs(a, db, x, c);
    hide PersistError; hide CallOf;
    if c in db.calls {
      var row := Marked(db.calls[c], x);
      assert db.calls[c := row][c] == row;
      if row == db.calls[c] { assert db.calls[c := row] == db.calls; }
    }
  }

  // ----- an error and another event of its call -----

  /** A response overwrites everything an error event recorded. */
  lemma {:induction false} ResponseAfterError(a: Adapter, db: Db, e: SpoolEvent, x: SpoolEvent)
    requires e.ResponseEvent? && x.ErrorEvent? && CallOf(a, x) == Some(a.callId(e.provider, e.flow))
    ensures var r, r' := PersistResponse(a, db, e), PersistResponse(a, PersistError(a, db, x), e);
      && (r'.Saved? <==> r.Saved?) && (r'.NotYet? <==> r.NotYet?)
      && (r.Saved? ==> Bare(r'.db) == Bare(r.db))
  {
    hide ReplaceBlocks; hide AmendRequestBlocks; hide Merge; hide ChunkRows; hide OfDirection; hide Bump;
    hide ReplaceRows;
    hide BetterModel;
  }

  lemma {:induction false} ResponseSays(a: Adapter, db: Db, e: SpoolEvent, x: SpoolEvent)
    requires e.ResponseEvent? && x.ErrorEvent? && PersistResponse(a, db, e).Saved?
    ensures var c, once := a.callId(e.provider, e.flow), PersistResponse(a, db, e).db;
      && c in once.calls
      && (Says(once.calls[c], x) <==> e.statusCode >= 400 && x.ts == e.ts && x.errorFlow == Some(e.flow))
  {
    hide ReplaceBlocks; hide AmendRequestBlocks; hide Merge; hide ChunkRows; hide OfDirection; hide Bump;
    hide ReplaceRows;
    hide BetterModel;
  }

  /** An error and a response leave the same tables in both orders exactly when the response is
      itself an error, of the same time and flow. */
  lemma {:induction false} ErrorCommutesIff(a: Adapter, db: Db, e: SpoolEvent, x: SpoolEvent)
    requires e.ResponseEvent? && x.ErrorEvent? && PersistResponse(a, db, e).Saved?
    requires CallOf(a, x) == Some(a.callId(e.provider, e.flow))
    ensures PersistResponse(a, PersistError(a, db, x), e).Saved?
    ensures
      Bare(PersistResponse(a, PersistError(a, db, x), e).db) == Bare(PersistError(a, PersistResponse(a, db, e).db, x))
      <==> e.statusCode >= 400 && x.ts == e.ts && x.errorFlow == Some(e.flow)
  {
    hide PersistResponse; hide PersistError; hide CallOf; hide Says; hide Bare;
    ResponseAfterError(a, db, e, x);
    ResponseSays(a, db, e, x);
    ErrorChangesNothingIff(a, PersistResponse(a, db, e).db, x, a.callId(e.provider, e.flow));
  }

  /** An error and a request do exactly when the call is recorded already: an error that comes
      before its request is only counted. */
  lemma {:induction false} ErrorRequestCommuteIff(a: Adapter, db: Db, q: SpoolEvent, x: SpoolEvent)
    requires q.RequestEvent? && x.ErrorEvent? && PersistRequest(a, db, q).Some?
    requires CallOf(a, x) == Some(a.callId(q.provider, q.flow))
    ensures PersistRequest(a, PersistError(a, db, x), q).Some?
    ensures var early, late := PersistRequest(a, PersistError(a, db, x), q).value, PersistRequest(a, db, q).value;
      Bare(early) == Bare(PersistError(a, late, x)) <==> a.callId(q.provider, q.flow) in db.calls
  {
    var c := a.callId(q.provider, q.flow);
    RequestAfterError(a, db, q, x, c);
    if c !in db.calls { FirstRequest(a, db, q, c); }
    ErrorIs(a, PersistRequest(a, db, q).value, x, c);
    hide PersistRequest; hide PersistError; hide CallOf;
    assert c !in db.calls ==> Marked(PersistRequest(a, db, q).value.calls[c], x).status == Errored;
  }

  lemma {:induction false} FirstRequest(a: Adapter, db: Db, q: SpoolEvent, c: CallId)
    requires q.RequestEvent? && PersistRequest(a, db, q).Some? && c == a.callId(q.provider, q.flow) && c !in db.calls
    ensures var db' := PersistRequest(a, db, q).value; c in db'.calls && db'.calls[c].status == Pending
  {
    hide ReplaceBlocks; hide Bump; hide ReplaceRows;
  }

  /** A request after an error event. */
  lemma {:induction false} RequestAfterError(a: Adapter, db: Db, q: SpoolEvent, x: SpoolEvent, c: CallId)
    requires q.RequestEvent? && x.ErrorEvent? && CallOf(a, x) == Some(c)
    ensures var r, r' := PersistRequest(a, db, q), PersistRequest(a, PersistError(a, db, x), q);
      && (r'.Some? <==> r.Some?)
      && (r.Some? ==>
            && (forall d :: d in db.calls ==> d in r.value.calls)
            && Bare(r'.value) == Bare(if c in db.calls then PersistError(a, r.value, x) else r.value))
  {
    hide ReplaceBlocks; hide Bump; hide ReplaceRows; hide CallOf; hide UpsertPending;
    if a.request(q).Some? {
      UpsertAfterError(db.calls, a.callId(q.provider, q.flow), a.request(q).value, q.ts, q.flow, c, x);
    }
  }

  /** Whether a request is refused depends on the flow ids only. */
  lemma {:induction false} RefusedAlike(calls: map<CallId, CallRow>, calls': map<CallId, CallRow>,
                                        id: CallId, n: NormalizedRequest, ts: real, flow: string)
    requires calls'.Keys == calls.Keys && forall d :: d in calls ==> calls'[d].requestFlow == calls[d].requestFlow
    ensures UpsertPending(calls', id, n, ts, flow).Some? <==> UpsertPending(calls, id, n, ts, flow).Some?
  {
    assert forall d :: d in calls <==> d in calls';
  }

  lemma {:induction false} UpsertAfterError(calls: map<CallId, CallRow>, id: CallId, n: NormalizedRequest, ts: real,
                                            flow: string,
                                            c: CallId, x: SpoolEvent)
    requires x.ErrorEvent?
    ensures var calls' := ErroredCalls(calls, Some(c), x.ts, x.errorFlow);
      var r, r' := UpsertPending(calls, id, n, ts, flow), UpsertPending(calls', id, n, ts, flow);
      && (r'.Some? <==> r.Some?)
      && (r.Some? ==>
            && (forall d :: d in calls ==> d in r.value)
            && r'.value == if c in calls then ErroredCalls(r.value, Some(c), x.ts, x.errorFlow) else r.value)
  {
    var calls' := ErroredCalls(calls, Some(c), x.ts, x.errorFlow);
    RefusedAlike(calls, calls', id, n, ts, flow);
    var r, r' := UpsertPending(calls, id, n, ts, flow), UpsertPending(calls', id, n, ts, flow);
    if r.Some? && c in calls { assert r'.value == ErroredCalls(r.value, Some(c), x.ts, x.errorFlow); }
  }

  // ----- an error event and what follows it -----

  /** The file completes the call: it is ingested, and holds a response or an error event of it. */
  ghost predicate Completes(a: Adapter, c: CallId, event: Option<SpoolEvent>, o: Outcome) {
    && o == Ingested && event.Some? && (event.value.ResponseEvent? || event.value.ErrorEvent?)
    && CallOf(a, event.value) == Some(c)
  }

  lemma {:induction false} ErrorAfterError(a: Adapter, db: Db, e: SpoolEvent, x: SpoolEvent, c: CallId)
    requires e.ErrorEvent? && x.ErrorEvent? && CallOf(a, x) == Some(c)
    ensures Bare(PersistError(a, PersistError(a, db, x), e))
      == Bare(if CallOf(a, e) == Some(c) then PersistError(a, db, e) else PersistError(a, PersistError(a, db, e), x))
  {
    hide Bump; hide CallOf; hide ErroredCalls;
    ErroredTwice(db.calls, CallOf(a, e), e, Some(c), x);
  }

  lemma {:induction false} ErroredTwice(calls: map<CallId, CallRow>, d: Option<CallId>, e: SpoolEvent,
                                        c: Option<CallId>, x: SpoolEvent)
    requires e.ErrorEvent? && x.ErrorEvent?
    ensures var first := ErroredCalls(calls, c, x.ts, x.errorFlow);
      ErroredCalls(first, d, e.ts, e.errorFlow)
        == if d == c then ErroredCalls(calls, d, e.ts, e.errorFlow)
           else ErroredCalls(ErroredCalls(calls, d, e.ts, e.errorFlow), c, x.ts, x.errorFlow)
  {}

  lemma {:induction false} OtherResponseAfterError(a: Adapter, db: Db, e: SpoolEvent, x: SpoolEvent, c: CallId)
    requires e.ResponseEvent? && x.ErrorEvent? && CallOf(a, x) == Some(c) && a.callId(e.provider, e.flow) != c
    ensures var r, r' := PersistResponse(a, db, e), PersistResponse(a, PersistError(a, db, x), e);
      && (r'.Saved? <==> r.Saved?) && (r'.NotYet? <==> r.NotYet?)
      && (r.Saved? ==> Bare(r'.db) == Bare(PersistError(a, r.db, x)))
  {
    hide ReplaceBlocks; hide AmendRequestBlocks; hide Merge; hide ChunkRows; hide OfDirection; hide Bump;
    hide ReplaceRows;
    hide RespondedRow; hide CallOf;
  }

  lemma {:induction false} CallsStay(a: Adapter, db: Db, e: SpoolEvent, c: CallId)
    requires Persist(a, db, e).Saved? && c in db.calls
    ensures c in Persist(a, db, e).db.calls
  {
    hide ReplaceBlocks; hide AmendRequestBlocks; hide Merge; hide ChunkRows; hide OfDirection; hide Bump;
    hide ReplaceRows;
    hide RespondedRow;
  }

  lemma {:induction false} PersistAfterError(a: Adapter, db: Db, e: SpoolEvent, x: SpoolEvent, c: CallId)
    requires x.ErrorEvent? && CallOf(a, x) == Some(c) && c in db.calls
    ensures var r, r' := Persist(a, db, e), Persist(a, PersistError(a, db, x), e);
      && (r'.Saved? <==> r.Saved?) && (r'.NotYet? <==> r.NotYet?)
      && (r.Saved? ==>
            && c in r.db.calls
            && Bare(r'.db) == Bare(if Completes(a, c, Some(e), Ingested) then r.db else PersistError(a, r.db, x)))
  {
    if Persist(a, db, e).Saved? { CallsStay(a, db, e, c); }
    match e {
      case RequestEvent(_, _, _, _, _) =>
        RequestAfterError(a, db, e, x, c);
        hide PersistRequest; hide PersistError; hide CallOf;
      case ResponseEvent(p, f, _, _, _, _) =>
        assert CallOf(a, e) == Some(a.callId(p, f));
        if a.callId(p, f) == c { ResponseAfterError(a, db, e, x); } else { OtherResponseAfterError(a, db, e, x, c); }
        hide PersistResponse; hide PersistError; hide CallOf;
      case ChunkEvent(_, _, _, _) =>
        hide CallOf; hide Bump;
      case DroppedEvent(_) =>
        hide CallOf; hide Bump;
      case ErrorEvent(_, _, _) =>
        ErrorAfterError(a, db, e, x, c);
        hide PersistError; hide CallOf;
    }
  }

  lemma {:induction false} IngestAfterError(a: Adapter, db: Db, event: Option<SpoolEvent>, x: SpoolEvent, c: CallId)
    requires x.ErrorEvent? && CallOf(a, x) == Some(c) && c in db.calls
    ensures var (o, after), (o', after') := IngestFile(a, db, event), IngestFile(a, PersistError(a, db, x), event);
      && o' == o && c in after.calls
      && Bare(after') == Bare(if Completes(a, c, event, o) then after else PersistError(a, after, x))
  {
    if event.Some? { PersistAfterError(a, db, event.value, x, c); }
    var after := IngestFile(a, db, event).1;
    IngestResult(a, db, event);
    if IngestFile(a, db, event).0 != Ingested { ErrorIgnoresCounters(a, db, after, x); }
    ErrorIgnoresCounters(a, PersistError(a, db, x), IngestFile(a, PersistError(a, db, x), event).1, x);
    hide Persist; hide PersistError; hide CallOf; hide Bump;
  }

  lemma {:induction false} ErrorIgnoresCounters(a: Adapter, db: Db, db': Db, x: SpoolEvent)
    requires x.ErrorEvent?
    ensures Bare(db) == Bare(db') ==> Bare(PersistError(a, db, x)) == Bare(PersistError(a, db', x))
  {
    hide Bump; hide CallOf; hide ErroredCalls;
  }

  /** Among the files there is one that completes the call. */
  ghost predicate Completed(a: Adapter, db: Db, files: seq<File>, c: CallId) {
    files != [] &&
      var n := |files| - 1;
      Completed(a, db, files[..n], c)
        || Completes(a, c, files[n].event, IngestFile(a, Attempt(a, db, files[..n]).db, files[n].event).0)
  }

  /** What an error event of a recorded call leaves is still there after any files, as if it came last,
      unless one of them completes the call: then nothing of it is left. */
  lemma {:induction false} AttemptAfterError(a: Adapter, db: Db, files: seq<File>, x: SpoolEvent, c: CallId)
    requires x.ErrorEvent? && CallOf(a, x) == Some(c) && c in db.calls
    ensures var r, r' := Attempt(a, db, files), Attempt(a, PersistError(a, db, x), files);
      && r'.kept == r.kept && c in r.db.calls
      && Bare(r'.db) == Bare(if Completed(a, db, files, c) then r.db else PersistError(a, r.db, x))
  {
    hide IngestFile; hide PersistError; hide Completes; hide Bare; hide CallOf;
    if files != [] {
      var n := |files| - 1;
      AttemptAfterError(a, db, files[..n], x, c);
      var before, before' := Attempt(a, db, files[..n]).db, Attempt(a, PersistError(a, db, x), files[..n]).db;
      var f := files[n].event;
      IngestAfterError(a, before, f, x, c);
      if Completed(a, db, files[..n], c) {
        OutcomeIgnoresCounters(a, before', before, f);
      } else {
        OutcomeIgnoresCounters(a, before', PersistError(a, before, x), f);
      }
    }
  }

  // ----- where in a run an error event makes a difference -----

  lemma {:induction false} AttemptInParts(a: Adapter, db: Db, xs: seq<File>, ys: seq<File>)
    ensures var first := Attempt(a, db, xs);
      var second := Attempt(a, first.db, ys);
      Attempt(a, db, xs + ys).db == second.db && Attempt(a, db, xs + ys).kept == first.kept + second.kept
    decreases |ys|
  {
    hide IngestFile;
    if ys == [] {
      assert xs + ys == xs;
    } else {
      var n := |ys| - 1;
      AttemptInParts(a, db, xs, ys[..n]);
      assert (xs + ys)[..|xs| + n] == xs + ys[..n] && (xs + ys)[|xs| + n] == ys[n];
    }
  }

  lemma {:induction false} AttemptOne(a: Adapter, db: Db, f: File)
    requires f.event.Some? && f.event.value.ErrorEvent?
    ensures Attempt(a, db, [f]).db == PersistError(a, db, f.event.value) && Attempt(a, db, [f]).kept == []
  {
    hide PersistError;
    assert [f][..0] == [];
  }

  /** An error event among the files of a run leaves no trace if its call is unknown when it comes or a
      later file completes the call; else it is as if it came last. */
  lemma {:induction false} ErrorAmongFiles(a: Adapter, db: Db, xs: seq<File>, f: File, ys: seq<File>, c: CallId)
    requires f.event.Some? && f.event.value.ErrorEvent? && CallOf(a, f.event.value) == Some(c)
    ensures var before, r, r' := Attempt(a, db, xs).db, Attempt(a, db, xs + ys), Attempt(a, db, xs + [f] + ys);
      && r'.kept == r.kept
      && Bare(r'.db) == Bare(
           if c in before.calls && !Completed(a, before, ys, c) then PersistError(a, r.db, f.event.value) else r.db)
  {
    hide Attempt; hide PersistError; hide Completed; hide Bare; hide CallOf;
    var x, before := f.event.value, Attempt(a, db, xs).db;
    AttemptInParts(a, db, xs, ys);
    AttemptInParts(a, db, xs + [f], ys);
    AttemptInParts(a, db, xs, [f]);
    AttemptOne(a, before, f);
    if c in before.calls {
      AttemptAfterError(a, before, ys, x, c);
    } else {
      ErrorChangesNothingIff(a, before, x, c);
      AttemptIgnoresCounters(a, PersistError(a, before, x), before, ys);
    }
  }

  /** The error event may come anywhere among the files. */
  ghost predicate AnywhereAlike(a: Adapter, db: Db, files: seq<File>, f: File) {
    forall i :: 0 <= i <= |files| ==>
      Bare(Attempt(a, db, files[..i] + [f] + files[i..]).db) == Bare(Attempt(a, db, files).db)
  }

  /** Whatever the files are, all places of an error event leave the same tables exactly when its call is
      not recorded in the end, or its row reads then as the event would leave it. */
  lemma {:induction false} AnywhereAlikeIff(a: Adapter, db: Db, files: seq<File>, f: File, c: CallId)
    requires f.event.Some? && f.event.value.ErrorEvent? && CallOf(a, f.event.value) == Some(c)
    ensures var calls := Attempt(a, db, files).db.calls;
      AnywhereAlike(a, db, files, f) <==> (c in calls ==> Says(calls[c], f.event.value))
  {
    hide Attempt; hide PersistError; hide Completed; hide Bare; hide CallOf; hide Says;
    var r := Attempt(a, db, files);
    ErrorChangesNothingIff(a, r.db, f.event.value, c);
    forall i | 0 <= i <= |files|
      ensures var there := Bare(Attempt(a, db, files[..i] + [f] + files[i..]).db);
        there == Bare(r.db) || there == Bare(PersistError(a, r.db, f.event.value))
    {
      assert files[..i] + files[i..] == files;
      ErrorAmongFiles(a, db, files[..i], f, files[i..], c);
    }
    ErrorLast(a, db, files, f, c);
    if AnywhereAlike(a, db, files, f) {
      assert Bare(Attempt(a, db, files[..|files|] + [f] + files[|files|..]).db) == Bare(r.db);
    }
  }

  lemma {:induction false} ErrorLast(a: Adapter, db: Db, files: seq<File>, f: File, c: CallId)
    requires f.event.Some? && f.event.value.ErrorEvent? && CallOf(a, f.event.value) == Some(c)
    ensures Attempt(a, db, files[..|files|] + [f] + files[|files|..]).db
      == PersistError(a, Attempt(a, db, files).db, f.event.value)
  {
    hide Attempt; hide PersistError; hide CallOf;
    assert files[..|files|] + [f] + files[|files|..] == files + [f];
    AttemptInParts(a, db, files, [f]);
    AttemptOne(a, Attempt(a, db, files).db, f);
  }

  /** For a flow in any lawful order of files: that is when its request was not stored, or its response
      was, and is itself an error, of the same time and flow. */
  lemma {:induction false} FlowAnywhereIff(a: Adapter, plan: Plan, files: seq<File>, f: File, c: CallId)
    requires Lawful(a, plan, files) && c in plan
    requires f.event.Some? && f.event.value.ErrorEvent? && CallOf(a, f.event.value) == Some(c)
    ensures var kept, fl, x := Attempt(a, EMPTY, files).kept, plan[c], f.event.value;
      AnywhereAlike(a, EMPTY, files, f) <==>
        || Has(kept, fl.request)
        || (fl.response.Some? && !Has(kept, fl.response.value) && fl.response.value.ResponseEvent?
            && fl.response.value.statusCode >= 400 && x.ts == fl.response.value.ts
            && x.errorFlow == Some(fl.response.value.flow))
  {
    hide Lawful; hide Inv; hide Attempt; hide AnywhereAlike; hide Has; hide CallOf; hide Says;
    var r := Attempt(a, EMPTY, files);
    LawfulStart(a, plan, files);
    assert files + [] == files && r.kept + [] == r.kept;
    AttemptInv(a, plan, EMPTY, files, []);
    AnywhereAlikeIff(a, EMPTY, files, f, c);
    RowInDrain(a, plan, r.db, r.kept, c, f.event.value);
  }

  /** What an error event would change in a row, at any time of a drain. */
  lemma {:induction false} RowInDrain(a: Adapter, plan: Plan, db: Db, left: seq<File>, c: CallId, x: SpoolEvent)
    requires Inv(a, plan, db, left) && c in plan && x.ErrorEvent?
    ensures var fl := plan[c];
      && FlowOk(a, c, fl) && (c in db.calls <==> !Has(left, fl.request))
      && (c in db.calls ==> (Says(db.calls[c], x) <==>
            && fl.response.Some? && !Has(left, fl.response.value) && fl.response.value.statusCode >= 400
            && x.ts == fl.response.value.ts && x.errorFlow == Some(fl.response.value.flow)))
  {
    hide Has; hide AllThere; hide Says;
    assert CallOk(a, plan, db, left, c);
    assert c in db.calls ==> c in View(db, c).calls && View(db, c).calls[c] == db.calls[c];
    hide View;
    if c in db.calls { ExpectedRow(a, c, plan[c], left, x); }
  }

  lemma {:induction false} ExpectedRow(a: Adapter, c: CallId, fl: Flow, left: seq<File>, x: SpoolEvent)
    requires FlowOk(a, c, fl) && Storable(a, fl.request) && !Has(left, fl.request) && x.ErrorEvent?
    requires fl.response.Some? && !Has(left, fl.response.value) ==>
      Answerable(a, c, fl) && forall i :: i in fl.chunks ==> !Has(left, fl.chunks[i])
    ensures var calls := Expected(a, c, fl, left).calls;
      c in calls && (Says(calls[c], x) <==>
        && fl.response.Some? && !Has(left, fl.response.value) && fl.response.value.statusCode >= 400
        && x.ts == fl.response.value.ts && x.errorFlow == Some(fl.response.value.flow))
  {
    hide Has; hide PersistRequest; hide PersistResponse; hide Asked;
    AskedIs(a, c, fl.request);
    if fl.response.Some? && !Has(left, fl.response.value) {
      assert SpyDrain.Taken(fl, left) == fl.chunks;
      ResponseSays(a, Chunked(Asked(a, fl.request), c, fl.chunks), fl.response.value, x);
    }
    hide Says; hide Chunked;
  }

  // ----- an error event during a drain -----

  /** Some later batch ingests a response or another error event of the call. */
  ghost predicate Overwritten(a: Adapter, s: Spooled, rounds: seq<Round>, c: CallId)
    decreases |rounds|
  {
    rounds != [] &&
      var s1 := s.(spool := s.spool + rounds[0].arrivals);
      || Completed(a, s1.db, s1.spool[..SpyBatches.Taken(s1.spool, rounds[0].limit)], c)
      || Overwritten(a, Batch(a, s1, rounds[0].limit), rounds[1..], c)
  }

  /** An error event ingested at any moment of a drain changes neither what later batches do with the
      files, nor the tables they leave, unless its call is recorded and never completed after it:
      then the tables are those it would leave if it came last. */
  lemma {:induction false} ErrorDuringDrain(a: Adapter, s: Spooled, rounds: seq<Round>, x: SpoolEvent, c: CallId)
    requires x.ErrorEvent? && CallOf(a, x) == Some(c)
    ensures var s', t' := Drain(a, s, rounds), Drain(a, s.(db := PersistError(a, s.db, x)), rounds);
      && t'.spool == s'.spool
      && Bare(t'.db) == Bare(
           if c in s.db.calls && !Overwritten(a, s, rounds, c) then PersistError(a, s'.db, x) else s'.db)
    decreases |rounds|
  {
    hide Attempt; hide PersistError; hide Completed; hide Bare; hide CallOf;
    var t := s.(db := PersistError(a, s.db, x));
    if c !in s.db.calls {
      ErrorChangesNothingIff(a, s.db, x, c);
      DrainIgnoresCounters(a, t, s, rounds);
    } else if rounds != [] {
      hide Drain; hide Overwritten;
      OneMoreRound(a, s, rounds);
      OneMoreRound(a, t, rounds);
      OverwrittenNow(a, s, rounds, c);
      var s1, limit := s.(spool := s.spool + rounds[0].arrivals), rounds[0].limit;
      var t1 := s1.(db := PersistError(a, s.db, x));
      AttemptAfterError(a, s1.db, s1.spool[..SpyBatches.Taken(s1.spool, limit)], x, c);
      var s2, t2 := Batch(a, s1, limit), Batch(a, t1, limit);
      if Completed(a, s1.db, s1.spool[..SpyBatches.Taken(s1.spool, limit)], c) {
        DrainIgnoresCounters(a, t2, s2, rounds[1..]);
      } else {
        DrainIgnoresCounters(a, t2, s2.(db := PersistError(a, s2.db, x)), rounds[1..]);
        ErrorDuringDrain(a, s2, rounds[1..], x, c);
      }
    }
  }

  /** So it makes no difference exactly when its call was unknown, is completed later, or is not
      recorded in the end or reads then as the event would leave it. */
  lemma {:induction false} ErrorHarmlessIff(a: Adapter, s: Spooled, rounds: seq<Round>, x: SpoolEvent, c: CallId)
    requires x.ErrorEvent? && CallOf(a, x) == Some(c)
    ensures var s', t' := Drain(a, s, rounds), Drain(a, s.(db := PersistError(a, s.db, x)), rounds);
      Bare(t'.db) == Bare(s'.db) <==>
        c !in s.db.calls || Overwritten(a, s, rounds, c) || (c in s'.db.calls ==> Says(s'.db.calls[c], x))
  {
    hide Drain; hide PersistError; hide Overwritten; hide Bare; hide CallOf; hide Says;
    ErrorDuringDrain(a, s, rounds, x, c);
    ErrorChangesNothingIff(a, Drain(a, s, rounds).db, x, c);
  }

  lemma {:induction false} OneMoreRound(a: Adapter, s: Spooled, rounds: seq<Round>)
    requires rounds != []
    ensures Drain(a, s, rounds)
      == Drain(a, Batch(a, s.(spool := s.spool + rounds[0].arrivals), rounds[0].limit), rounds[1..])
  {
    hide Batch;
  }

  lemma {:induction false} OverwrittenNow(a: Adapter, s: Spooled, rounds: seq<Round>, c: CallId)
    requires rounds != []
    ensures var s1 := s.(spool := s.spool + rounds[0].arrivals);
      Overwritten(a, s, rounds, c) <==>
        || Completed(a, s1.db, s1.spool[..SpyBatches.Taken(s1.spool, rounds[0].limit)], c)
        || Overwritten(a, Batch(a, s1, rounds[0].limit), rounds[1..], c)
  {
    hide Batch; hide Completed;
  }

  // ----- examples -----

  const NO_BODY: Body := Body(None, None, None)
  const ASK: SpoolEvent := RequestEvent("bedrock", "f", 1.0, "", NO_BODY)
  const ANSWER: SpoolEvent := ResponseEvent("bedrock", "f", 2.0, "", NO_BODY, 200)
  const FAIL: SpoolEvent := ErrorEvent(Some("bedrock"), Some("f"), 3.0)

  const PLAIN: Adapter := Adapter(
    (p, f) => [], e => Some(NormalizedRequest("bedrock", "Converse", "m", None, [], [])),
    e => Some(NormalizedResponse("m", None, [], [], [], [])))

  /** A request, a response and an error, in the two orders the last two can come in. */
  lemma {:induction false} TwoOrders(a: Adapter, q: File, p: File, x: File, db: Db)
    requires q.event.Some? && p.event.Some? && x.event.Some? && Persist(a, EMPTY, q.event.value) == Saved(db)
    requires var e, y := p.event.value, x.event.value;
      && e.ResponseEvent? && y.ErrorEvent? && PersistResponse(a, db, e).Saved?
      && CallOf(a, y) == Some(a.callId(e.provider, e.flow))
    ensures var e, y := p.event.value, x.event.value;
      var late, early := Attempt(a, EMPTY, [q, p, x]), Attempt(a, EMPTY, [q, x, p]);
      && late.kept == early.kept == []
      && (Bare(late.db) == Bare(early.db) <==> e.statusCode >= 400 && y.ts == e.ts && y.errorFlow == Some(e.flow))
  {
    hide PersistRequest; hide PersistResponse; hide PersistError; hide Bare; hide Attempt; hide CallOf;
    var e, y := p.event.value, x.event.value;
    ErrorCommutesIff(a, db, e, y);
    Unstarted(a);
    Ingests(a, EMPTY, [], q, db);
    assert [] + [q] == [q];
    Ingests(a, EMPTY, [q], p, PersistResponse(a, db, e).db);
    Ingests(a, EMPTY, [q], x, PersistError(a, db, y));
    assert [q] + [p] == [q, p] && [q] + [x] == [q, x];
    Ingests(a, EMPTY, [q, p], x, PersistError(a, PersistResponse(a, db, e).db, y));
    Ingests(a, EMPTY, [q, x], p, PersistResponse(a, PersistError(a, db, y), e).db);
    assert [q, p] + [x] == [q, p, x] && [q, x] + [p] == [q, x, p];
  }

  lemma {:induction false} Unstarted(a: Adapter)
    ensures Attempt(a, EMPTY, []) == Attempted(EMPTY, [], [])
  {}

  /** Two orders of three files that leave different tables. */
  lemma {:induction false} ErrorOrderMatters(size: nat)
    ensures var q, p, x := File(size, Some(ASK)), File(size, Some(ANSWER)), File(size, Some(FAIL));
      var late, early := Attempt(PLAIN, EMPTY, [q, p, x]), Attempt(PLAIN, EMPTY, [q, x, p]);
      late.kept == early.kept == [] && Bare(late.db) != Bare(early.db)
  {
    hide PersistRequest; hide PersistResponse; hide Bare; hide Attempt; hide CallOf;
    AskIsStored();
    TwoOrders(PLAIN, File(size, Some(ASK)), File(size, Some(ANSWER)), File(size, Some(FAIL)),
              PersistRequest(PLAIN, EMPTY, ASK).value);
  }

  lemma {:induction false} Ingests(a: Adapter, db: Db, files: seq<File>, f: File, db': Db)
    requires f.event.Some? && Attempt(a, db, files).kept == []
    requires Persist(a, Attempt(a, db, files).db, f.event.value) == Saved(db')
    ensures Attempt(a, db, files + [f]).db == db' && Attempt(a, db, files + [f]).kept == []
  {
    hide Persist;
    assert (files + [f])[..|files|] == files;
  }

  lemma {:induction false} AskIsStored()
    ensures PersistRequest(PLAIN, EMPTY, ASK).Some?
    ensures var db := PersistRequest(PLAIN, EMPTY, ASK).value; PersistResponse(PLAIN, db, ANSWER).Saved?
    ensures CallOf(PLAIN, FAIL) == Some(PLAIN.callId(ANSWER.provider, ANSWER.flow))
  {
    hide ChunkRows; hide Merge;
  }

  /** A request and an error of its call, in the two orders they can come in. */
  lemma {:induction false} TwoFiles(a: Adapter, q: File, x: File, db: Db, c: CallId)
    requires q.event.Some? && q.event.value.RequestEvent? && x.event.Some? && x.event.value.ErrorEvent?
    requires PersistRequest(a, EMPTY, q.event.value) == Some(db)
    requires CallOf(a, q.event.value) == Some(c) && CallOf(a, x.event.value) == Some(c)
    ensures var early, late := Attempt(a, EMPTY, [x, q]), Attempt(a, EMPTY, [q, x]);
      && early.kept == late.kept == [] && c in early.db.calls && c in late.db.calls
      && early.db.calls[c].status == Pending && late.db.calls[c].status == Errored
  {
    FirstRequest(a, EMPTY, q.event.value, c);
    hide PersistRequest; hide PersistError; hide Attempt; hide CallOf;
    Unstarted(a);
    Ingests(a, EMPTY, [], q, db);
    assert [] + [q] == [q] && [q] + [x] == [q, x] && [] + [x] + [q] == [x, q] && [] + [q] == [q];
    AttemptInParts(a, EMPTY, [q], [x]);
    AttemptOne(a, db, x);
    ErrorIs(a, db, x.event.value, c);
    BareCalls(PersistError(a, db, x.event.value), db.(calls := db.calls[c := Marked(db.calls[c], x.event.value)]));
    ErrorAmongFiles(a, EMPTY, [], x, [q], c);
    BareCalls(Attempt(a, EMPTY, [x, q]).db, db);
  }

  lemma {:induction false} BareCalls(x: Db, y: Db)
    ensures Bare(x) == Bare(y) ==> x.calls == y.calls
  {}

  /** An error that comes before its request is lost, and the call stays pending. */
  lemma {:induction false} EarlyErrorIsLost(size: nat)
    ensures var q, x, c := File(size, Some(ASK)), File(size, Some(FAIL)), PLAIN.callId(ASK.provider, ASK.flow);
      var early, late := Attempt(PLAIN, EMPTY, [x, q]), Attempt(PLAIN, EMPTY, [q, x]);
      && early.kept == late.kept == [] && c in early.db.calls && c in late.db.calls
      && early.db.calls[c].status == Pending && late.db.calls[c].status == Errored
  {
    hide PersistRequest; hide Attempt;
    AskIsStored();
    TwoFiles(PLAIN, File(size, Some(ASK)), File(size, Some(FAIL)), PersistRequest(PLAIN, EMPTY, ASK).value,
             PLAIN.callId(ASK.provider, ASK.flow));
  }
}
