/** Draining the spool: whatever the file order, the batch limits and the arrival times, each call
    ends with the rows its own flow would give it in an empty database. */
module SpyDrain {
  import opened Bytes
  import opened SpyTables
  import opened SpyBatches
  import opened SpyViews

  /** The events of one call. */
  datatype Flow = Flow(request: SpoolEvent, chunks: map<nat, SpoolEvent>, response: Option<SpoolEvent>)

  type Plan = map<CallId, Flow>

  ghost predicate FlowOk(a: Adapter, c: CallId, fl: Flow) {
    && fl.request.RequestEvent? && CallOf(a, fl.request) == Some(c)
    && (forall i :: i in fl.chunks ==>
          fl.chunks[i].ChunkEvent? && fl.chunks[i].index == i && CallOf(a, fl.chunks[i]) == Some(c))
    && (fl.response.Some? ==> fl.response.value.ResponseEvent? && CallOf(a, fl.response.value) == Some(c))
  }

  predicate PartOf(fl: Flow, e: SpoolEvent) {
    match e
    case RequestEvent(_, _, _, _, _) => e == fl.request
    case ChunkEvent(_, _, i, _) => i in fl.chunks && fl.chunks[i] == e
    case ResponseEvent(_, _, _, _, _, _) => fl.response == Some(e)
    case _ => false
  }

  /** The file carries an event of the plan. */
  predicate Planned(a: Adapter, plan: Plan, f: File) {
    f.event.Some? && CallOf(a, f.event.value).Some? && CallOf(a, f.event.value).value in plan
    && PartOf(plan[CallOf(a, f.event.value).value], f.event.value)
  }

  /** A malformed file, or an event that concerns no call. */
  predicate Neutral(a: Adapter, f: File) {
    f.event.Some? ==> CallOf(a, f.event.value).None?
  }

  predicate Has(files: seq<File>, e: SpoolEvent) {
    exists i :: 0 <= i < |files| && files[i].event == Some(e)
  }

  function Rank(e: SpoolEvent): nat {
    match e
    case RequestEvent(_, _, _, _, _) => 0
    case ChunkEvent(_, _, _, _) => 1
    case _ => 2
  }

  /** `y` may come later than `x`: no event comes twice, and in a call with chunks the request comes
      before the chunks and these before the response. */
  predicate MayFollow(a: Adapter, plan: Plan, x: File, y: File) {
    Planned(a, plan, x) && Planned(a, plan, y) && CallOf(a, x.event.value) == CallOf(a, y.event.value) ==>
      && x.event != y.event
      && (plan[CallOf(a, x.event.value).value].chunks != map[] ==> Rank(x.event.value) <= Rank(y.event.value))
  }

  ghost predicate InOrder(a: Adapter, plan: Plan, files: seq<File>) {
    forall i, j :: 0 <= i < j < |files| ==> MayFollow(a, plan, files[i], files[j])
  }

  ghost predicate Belong(a: Adapter, plan: Plan, files: seq<File>) {
    forall i :: 0 <= i < |files| ==> Planned(a, plan, files[i]) || Neutral(a, files[i])
  }

  /** The files are the events of the plan, each once, in an order that may occur. */
  ghost predicate Lawful(a: Adapter, plan: Plan, files: seq<File>) {
    && Belong(a, plan, files) && InOrder(a, plan, files)
    && forall c :: c in plan ==> FlowOk(a, c, plan[c]) && AllThere(plan[c], files)
  }

  ghost predicate AllThere(fl: Flow, files: seq<File>) {
    && Has(files, fl.request) && (forall i :: i in fl.chunks ==> Has(files, fl.chunks[i]))
    && (fl.response.Some? ==> Has(files, fl.response.value))
  }

  // ----- what the tables are to hold -----

  /** The request of a call, in an empty database. */
  ghost function Asked(a: Adapter, request: SpoolEvent): Db {
    if !request.RequestEvent? then EMPTY
    else match PersistRequest(a, EMPTY, request)
      case None => EMPTY
      case Some(db) => Bare(db)
  }

  function Chunked(db: Db, c: CallId, chunks: map<nat, SpoolEvent>): Db
    requires forall i :: i in chunks ==> chunks[i].ChunkEvent?
  {
    db.(chunks := map i | i in chunks :: (c, i) := chunks[i].row)
  }

  ghost function Answered(a: Adapter, db: Db, response: SpoolEvent): Db {
    if !response.ResponseEvent? then db
    else match PersistResponse(a, db, response)
      case Saved(db') => Bare(db')
      case _ => db
  }

  /** What the flow of a call gives in an empty database: request, chunks, response. */
  ghost function Alone(a: Adapter, c: CallId, fl: Flow): Db
    requires FlowOk(a, c, fl)
  {
    var part := Chunked(Asked(a, fl.request), c, fl.chunks);
    if fl.response.None? then part else Answered(a, part, fl.response.value)
  }

  /** The request can be stored in an empty database. */
  ghost predicate Storable(a: Adapter, request: SpoolEvent) {
    request.RequestEvent? && PersistRequest(a, EMPTY, request).Some?
  }

  /** The response, if there is one, can be stored after the request and all chunks. */
  ghost predicate Answerable(a: Adapter, c: CallId, fl: Flow)
    requires FlowOk(a, c, fl)
  {
    fl.response.Some? ==>
      PersistResponse(a, Chunked(Asked(a, fl.request), c, fl.chunks), fl.response.value).Saved?
  }

  /** The chunks of the flow that are no longer in the spool. */
  ghost function Taken(fl: Flow, left: seq<File>): map<nat, SpoolEvent> {
    map i | i in fl.chunks && !Has(left, fl.chunks[i]) :: fl.chunks[i]
  }

  ghost function Expected(a: Adapter, c: CallId, fl: Flow, left: seq<File>): Db
    requires FlowOk(a, c, fl)
  {
    if Has(left, fl.request) then EMPTY
    else
      var part := Chunked(Asked(a, fl.request), c, Taken(fl, left));
      if fl.response.None? || Has(left, fl.response.value) then part else Answered(a, part, fl.response.value)
  }

  /** One call, while `left` is still to be ingested. */
  ghost predicate CallOk(a: Adapter, plan: Plan, db: Db, left: seq<File>, c: CallId) {
    if c !in plan then View(db, c) == EMPTY
    else
      var fl := plan[c];
      && FlowOk(a, c, fl)
      && View(db, c) == Expected(a, c, fl, left)
      && (c in db.calls <==> !Has(left, fl.request))
      && (if Has(left, fl.request) then AllThere(fl, left) else Storable(a, fl.request))
      && (fl.response.Some? && !Has(left, fl.response.value) ==> Answerable(a, c, fl))
      && (fl.response.Some? && !Has(left, fl.response.value) ==>
            forall i :: i in fl.chunks ==> !Has(left, fl.chunks[i]))
  }

  /** The tables are a function of the files that are left. */
  ghost predicate Inv(a: Adapter, plan: Plan, db: Db, left: seq<File>) {
    && Belong(a, plan, left) && InOrder(a, plan, left)
    && forall c :: CallOk(a, plan, db, left, c)
  }

  /** A chunk that a batch keeps waits for a request that the batch keeps too. */
  ghost predicate ChunksWait(a: Adapter, plan: Plan, kept: seq<File>) {
    forall i :: 0 <= i < |kept| && Planned(a, plan, kept[i]) && kept[i].event.value.ChunkEvent?
      ==> Has(kept, plan[CallOf(a, kept[i].event.value).value].request)
  }

  // ----- removing one file -----

  lemma {:induction false} RemoveOne(a: Adapter, plan: Plan, pre: seq<File>, f: File, post: seq<File>)
    requires Belong(a, plan, pre + [f] + post) && InOrder(a, plan, pre + [f] + post)
    ensures Belong(a, plan, pre + post) && InOrder(a, plan, pre + post)
    ensures forall e :: Some(e) != f.event ==> (Has(pre + post, e) <==> Has(pre + [f] + post, e))
    ensures f.event.Some? ==>
      Has(pre + [f] + post, f.event.value) && (Planned(a, plan, f) ==> !Has(pre + post, f.event.value))
  {
    hide MayFollow; hide Planned; hide Neutral;
    var all, rest := pre + [f] + post, pre + post;
    var at := (i: nat) => if i < |pre| then i else i + 1;
    assert all[|pre|] == f;
    assert forall i: nat :: i < |rest| ==> rest[i] == all[at(i)];
    forall e | Some(e) != f.event ensures Has(rest, e) <==> Has(all, e) { HasSplit(pre, f, post, e); }
    if f.event.Some? && Planned(a, plan, f) && Has(rest, f.event.value) {
      var i :| 0 <= i < |rest| && rest[i].event == f.event;
      SameEvent(a, plan, all[at(i)], f);
    }
  }

  lemma {:induction false} HasSplit(pre: seq<File>, f: File, post: seq<File>, e: SpoolEvent)
    requires Some(e) != f.event
    ensures Has(pre + post, e) <==> Has(pre + [f] + post, e)
  {
    var all, rest := pre + [f] + post, pre + post;
    if Has(rest, e) {
      var i :| 0 <= i < |rest| && rest[i].event == Some(e);
      assert all[if i < |pre| then i else i + 1].event == Some(e);
    }
    if Has(all, e) {
      var i :| 0 <= i < |all| && all[i].event == Some(e);
      assert rest[if i < |pre| then i else i - 1].event == Some(e);
    }
  }

  lemma {:induction false} SameEvent(a: Adapter, plan: Plan, x: File, y: File)
    requires Planned(a, plan, y) && x.event == y.event
    ensures !MayFollow(a, plan, x, y) && !MayFollow(a, plan, y, x)
  {}

  lemma {:induction false} HasPrefix(pre: seq<File>, post: seq<File>, e: SpoolEvent)
    requires Has(pre, e)
    ensures Has(pre + post, e)
  {
    var i :| 0 <= i < |pre| && pre[i].event == Some(e);
    assert (pre + post)[i].event == Some(e);
  }

  /** A call none of whose events leaves, and whose rows do not change, stays as it is. */
  lemma {:induction false} OtherCall(a: Adapter, plan: Plan, db: Db, db': Db, left: seq<File>, left': seq<File>,
                                     c: CallId)
    requires CallOk(a, plan, db, left, c) && View(db', c) == View(db, c)
    requires forall e :: CallOf(a, e) == Some(c) ==> (Has(left', e) <==> Has(left, e))
    ensures CallOk(a, plan, db', left', c)
  {
    hide Storable; hide Answerable;
    assert c in db.calls <==> c in View(db, c).calls;
    assert c in db'.calls <==> c in View(db', c).calls;
    hide View; hide Has;
    if c in plan {
      var fl := plan[c];
      assert FlowOk(a, c, fl);
      assert Taken(fl, left') == Taken(fl, left);
    }
  }

  // ----- one file -----

  lemma {:induction false} AskedKeepsChunks(a: Adapter, request: SpoolEvent)
    ensures Asked(a, request).chunks == map[]
  {
    hide UpsertPending; hide ReplaceBlocks; hide ReplaceRows; hide Bump;
  }

  /** One event of a call leaves the spool, the others stay. */
  ghost predicate Leaves(left: seq<File>, left': seq<File>, e: SpoolEvent) {
    Has(left, e) && !Has(left', e) && forall x :: x != e ==> (Has(left', x) <==> Has(left, x))
  }

  lemma {:induction false} ExpectAsked(a: Adapter, c: CallId, fl: Flow, left: seq<File>, left': seq<File>)
    requires FlowOk(a, c, fl) && AllThere(fl, left) && Leaves(left, left', fl.request)
    ensures Expected(a, c, fl, left') == Asked(a, fl.request)
    ensures forall i :: i in fl.chunks ==> Has(left', fl.chunks[i])
    ensures fl.response.Some? ==> Has(left', fl.response.value)
  {
    hide Has;
    AskedKeepsChunks(a, fl.request);
    hide Asked;
    assert Taken(fl, left') == map[];
    ChunkedNone(Asked(a, fl.request), c);
  }

  lemma {:induction false} ChunkedNone(db: Db, c: CallId)
    requires db.chunks == map[]
    ensures Chunked(db, c, map[]) == db
  {
    assert Chunked(db, c, map[]).chunks == map[];
  }

  lemma {:induction false} RequestStep(a: Adapter, plan: Plan, db: Db, left: seq<File>, left': seq<File>, c: CallId)
    requires c in plan && CallOk(a, plan, db, left, c) && Leaves(left, left', plan[c].request)
    requires var e := plan[c].request; e.RequestEvent? && PersistRequest(a, db, e).Some?
    ensures CallOk(a, plan, PersistRequest(a, db, plan[c].request).value, left', c)
  {
    hide Answerable;
    hide Has; hide AllThere;
    var fl := plan[c];
    assert View(db, c) == EMPTY && AllThere(fl, left);
    ExpectAsked(a, c, fl, left, left');
    hide Expected;
    RequestLocal(a, db, fl.request);
    RequestRecords(a, db, fl.request);
    hide PersistRequest; hide View;
  }

  lemma {:induction false} RequestRecords(a: Adapter, db: Db, e: SpoolEvent)
    requires e.RequestEvent? && PersistRequest(a, db, e).Some?
    ensures a.callId(e.provider, e.flow) in PersistRequest(a, db, e).value.calls
  {
    hide ReplaceBlocks; hide ReplaceRows; hide Bump;
  }

  lemma {:induction false} ExpectChunk(a: Adapter, c: CallId, fl: Flow, left: seq<File>, left': seq<File>,
                                       e: SpoolEvent)
    requires FlowOk(a, c, fl) && e.ChunkEvent? && PartOf(fl, e) && Leaves(left, left', e) && !Has(left, fl.request)
    requires fl.response.Some? ==> Has(left, fl.response.value)
    ensures var before := Expected(a, c, fl, left);
      Expected(a, c, fl, left') == before.(chunks := before.chunks[(c, e.index) := e.row])
  {
    hide Has; hide Asked;
    assert e != fl.request && Some(e) != fl.response;
    assert Taken(fl, left') == Taken(fl, left)[e.index := e];
    var base, taken := Asked(a, fl.request), Taken(fl, left);
    hide Taken;
    ChunkedOneMore(base, c, taken, e);
  }

  lemma {:induction false} ChunkedOneMore(db: Db, c: CallId, chunks: map<nat, SpoolEvent>, e: SpoolEvent)
    requires e.ChunkEvent? && forall i :: i in chunks ==> chunks[i].ChunkEvent?
    ensures Chunked(db, c, chunks[e.index := e]).chunks == Chunked(db, c, chunks).chunks[(c, e.index) := e.row]
  {}

  lemma {:induction false} ChunkStep(a: Adapter, plan: Plan, db: Db, left: seq<File>, left': seq<File>, c: CallId,
                                     e: SpoolEvent)
    requires c in plan && CallOk(a, plan, db, left, c) && e.ChunkEvent? && CallOf(a, e) == Some(c) && PartOf(plan[c], e)
    requires Leaves(left, left', e) && c in db.calls
    ensures CallOk(a, plan, PersistChunk(a, db, e), left', c)
  {
    hide Storable; hide Answerable;
    hide Has; hide AllThere;
    var fl := plan[c];
    assert e != fl.request && Some(e) != fl.response;
    ExpectChunk(a, c, fl, left, left', e);
    hide Expected;
    ChunkLocal(a, db, e);
    assert PersistChunk(a, db, e).calls == db.calls;
    hide PersistChunk; hide View;
  }

  lemma {:induction false} ExpectAnswered(a: Adapter, c: CallId, fl: Flow, left: seq<File>, left': seq<File>,
                                          e: SpoolEvent)
    requires FlowOk(a, c, fl) && fl.response == Some(e) && Leaves(left, left', e) && !Has(left, fl.request)
    requires forall i :: i in fl.chunks ==> !Has(left, fl.chunks[i])
    ensures Expected(a, c, fl, left') == Answered(a, Expected(a, c, fl, left), e)
    ensures forall i :: i in fl.chunks ==> !Has(left', fl.chunks[i])
    ensures Expected(a, c, fl, left) == Chunked(Asked(a, fl.request), c, fl.chunks)
  {
    hide Has; hide Asked; hide Answered; hide Chunked;
    assert e != fl.request;
    assert Taken(fl, left') == Taken(fl, left);
    assert Taken(fl, left) == fl.chunks;
  }

  lemma {:induction false} ResponseStep(a: Adapter, plan: Plan, db: Db, left: seq<File>, left': seq<File>, c: CallId,
                                        e: SpoolEvent)
    requires c in plan && CallOk(a, plan, db, left, c) && e.ResponseEvent? && CallOf(a, e) == Some(c)
    requires PartOf(plan[c], e)
    requires Leaves(left, left', e) && forall i :: i in plan[c].chunks ==> !Has(left, plan[c].chunks[i])
    requires PersistResponse(a, db, e).Saved?
    ensures CallOk(a, plan, PersistResponse(a, db, e).db, left', c)
  {
    hide Storable;
    hide Has; hide AllThere;
    var fl := plan[c];
    ResponseRecorded(a, db, e);
    ExpectAnswered(a, c, fl, left, left', e);
    hide Expected;
    ResponseLocal(a, db, e);
    hide PersistResponse; hide View;
  }

  lemma {:induction false} ResponseRecorded(a: Adapter, db: Db, e: SpoolEvent)
    requires e.ResponseEvent? && PersistResponse(a, db, e).Saved?
    ensures var c := a.callId(e.provider, e.flow); c in db.calls && c in PersistResponse(a, db, e).db.calls
  {
    hide AmendRequestBlocks; hide ReplaceBlocks; hide ReplaceRows; hide Bump; hide Merge; hide ChunkRows;
    hide RespondedRow; hide OfDirection;
  }

  // ----- one file of a batch -----

  lemma {:induction false} SameTables(a: Adapter, plan: Plan, db: Db, db': Db, left: seq<File>, left': seq<File>)
    requires Inv(a, plan, db, left) && Bare(db') == Bare(db)
    requires Belong(a, plan, left') && InOrder(a, plan, left')
    requires forall e :: CallOf(a, e).Some? ==> (Has(left', e) <==> Has(left, e))
    ensures Inv(a, plan, db', left')
  {
    hide Storable; hide Answerable;
    hide Belong; hide InOrder; hide CallOk; hide Has;
    forall c ensures CallOk(a, plan, db', left', c) {
      assert CallOk(a, plan, db, left, c);
      assert View(db', c) == View(db, c);
      OtherCall(a, plan, db, db', left, left', c);
    }
  }

  lemma {:induction false} NeutralEvent(a: Adapter, db: Db, e: SpoolEvent)
    requires CallOf(a, e).None?
    ensures Persist(a, db, e).Saved? && Bare(Persist(a, db, e).db) == Bare(db)
  {
    hide Bump;
    assert e.DroppedEvent? || e.ErrorEvent?;
    hide CallOf;
  }

  lemma {:induction false} NeutralKeepsTables(a: Adapter, db: Db, f: File)
    requires Neutral(a, f)
    ensures Bare(IngestFile(a, db, f.event).1) == Bare(db)
  {
    if f.event.Some? { NeutralEvent(a, db, f.event.value); }
    hide Persist; hide Bump;
  }

  lemma {:induction false} Follows(a: Adapter, plan: Plan, files: seq<File>, i: nat, j: nat)
    requires InOrder(a, plan, files) && i < |files| && j < |files|
    ensures i < j ==> MayFollow(a, plan, files[i], files[j])
  {
    hide MayFollow;
  }

  /** A chunk that is deferred stands behind its request. */
  lemma {:induction false} DeferredChunkWaits(a: Adapter, plan: Plan, db: Db, pre: seq<File>, f: File, post: seq<File>)
    requires Inv(a, plan, db, pre + [f] + post) && Planned(a, plan, f) && f.event.value.ChunkEvent?
    requires Stays(IngestFile(a, db, f.event).0)
    ensures Has(pre, plan[CallOf(a, f.event.value).value].request)
  {
    hide Storable; hide Answerable;
    hide View; hide Bump; hide PersistChunk; hide Expected; hide AllThere;
    var all, e, c := pre + [f] + post, f.event.value, CallOf(a, f.event.value).value;
    assert CallOk(a, plan, db, all, c);
    assert c !in db.calls;
    var q := plan[c].request;
    var i :| 0 <= i < |all| && all[i].event == Some(q);
    assert all[|pre|] == f;
    Follows(a, plan, all, |pre|, i);
    assert i < |pre| && pre[i] == all[i];
  }

  lemma {:induction false} FileStays(a: Adapter, plan: Plan, db: Db, pre: seq<File>, f: File, post: seq<File>)
    requires Inv(a, plan, db, pre + [f] + post) && ChunksWait(a, plan, pre)
    requires Stays(IngestFile(a, db, f.event).0)
    ensures Inv(a, plan, IngestFile(a, db, f.event).1, pre + [f] + post) && ChunksWait(a, plan, pre + [f])
  {
    StayingChangesNoTable(a, db, f.event);
    if Planned(a, plan, f) && f.event.value.ChunkEvent? { DeferredChunkWaits(a, plan, db, pre, f, post); }
    hide IngestFile; hide Planned;
    SameTables(a, plan, db, IngestFile(a, db, f.event).1, pre + [f] + post, pre + [f] + post);
    hide Inv;
    WaitMore(a, plan, pre, f);
  }

  lemma {:induction false} WaitMore(a: Adapter, plan: Plan, pre: seq<File>, f: File)
    requires ChunksWait(a, plan, pre)
    requires Planned(a, plan, f) && f.event.value.ChunkEvent? ==> Has(pre, plan[CallOf(a, f.event.value).value].request)
    ensures ChunksWait(a, plan, pre + [f])
  {
    var kept := pre + [f];
    forall i | 0 <= i < |kept| && Planned(a, plan, kept[i]) && kept[i].event.value.ChunkEvent?
      ensures Has(kept, plan[CallOf(a, kept[i].event.value).value].request)
    {
      var q := plan[CallOf(a, kept[i].event.value).value].request;
      assert Has(pre, q);
      HasPrefix(pre, [f], q);
    }
  }

  /** A chunk left when its response is attempted still waits for its request. */
  lemma {:induction false} ChunkLeftWaits(a: Adapter, plan: Plan, pre: seq<File>, f: File, post: seq<File>, c: CallId,
                                          i: nat)
    requires InOrder(a, plan, pre + [f] + post) && ChunksWait(a, plan, pre) && c in plan && FlowOk(a, c, plan[c])
    requires Planned(a, plan, f) && f.event.value.ResponseEvent? && CallOf(a, f.event.value) == Some(c)
    requires i in plan[c].chunks && Has(pre + [f] + post, plan[c].chunks[i])
    ensures Has(pre + [f] + post, plan[c].request)
  {
    var all, fl := pre + [f] + post, plan[c];
    var k :| 0 <= k < |all| && all[k].event == Some(fl.chunks[i]);
    assert all[|pre|] == f;
    Follows(a, plan, all, |pre|, k);
    assert k < |pre| && pre[k] == all[k] && Planned(a, plan, pre[k]);
    HasPrefix(pre, [f] + post, fl.request);
    assert all == pre + ([f] + post);
  }

  /** When a response is ingested, no chunk of its call is left. */
  lemma {:induction false} NoChunkLeft(a: Adapter, plan: Plan, db: Db, pre: seq<File>, f: File, post: seq<File>,
                                       c: CallId)
    requires Inv(a, plan, db, pre + [f] + post) && ChunksWait(a, plan, pre) && c in plan && c in db.calls
    requires Planned(a, plan, f) && f.event.value.ResponseEvent? && CallOf(a, f.event.value) == Some(c)
    ensures forall i :: i in plan[c].chunks ==> !Has(pre + [f] + post, plan[c].chunks[i])
  {
    hide Storable; hide Answerable;
    hide View; hide Expected; hide AllThere; hide Has; hide ChunksWait;
    var all, fl := pre + [f] + post, plan[c];
    assert CallOk(a, plan, db, all, c);
    forall i | i in fl.chunks ensures Has(all, fl.chunks[i]) ==> Has(all, fl.request) {
      ChunkMeansRequest(a, plan, pre, f, post, c, i);
    }
  }

  lemma {:induction false} ChunkMeansRequest(a: Adapter, plan: Plan, pre: seq<File>, f: File, post: seq<File>,
                                             c: CallId, i: nat)
    requires InOrder(a, plan, pre + [f] + post) && ChunksWait(a, plan, pre) && c in plan && FlowOk(a, c, plan[c])
    requires Planned(a, plan, f) && f.event.value.ResponseEvent? && CallOf(a, f.event.value) == Some(c)
    requires i in plan[c].chunks
    ensures Has(pre + [f] + post, plan[c].chunks[i]) ==> Has(pre + [f] + post, plan[c].request)
  {
    hide InOrder; hide ChunksWait; hide FlowOk; hide Planned; hide Has;
    if Has(pre + [f] + post, plan[c].chunks[i]) { ChunkLeftWaits(a, plan, pre, f, post, c, i); }
  }

  lemma {:induction false} PlannedStep(a: Adapter, plan: Plan, db: Db, pre: seq<File>, f: File, post: seq<File>,
                                       db': Db)
    requires Inv(a, plan, db, pre + [f] + post) && ChunksWait(a, plan, pre) && Planned(a, plan, f)
    requires Leaves(pre + [f] + post, pre + post, f.event.value) && Persist(a, db, f.event.value) == Saved(db')
    ensures CallOk(a, plan, db', pre + post, CallOf(a, f.event.value).value)
    ensures forall d :: Some(d) != CallOf(a, f.event.value) ==> View(db', d) == View(db, d)
  {
    hide Storable; hide Answerable;
    hide View; hide Has; hide PersistRequest; hide PersistResponse; hide PersistChunk; hide Leaves;
    var all, e, c := pre + [f] + post, f.event.value, CallOf(a, f.event.value).value;
    assert CallOk(a, plan, db, all, c);
    match e {
      case RequestEvent(_, _, _, _, _) =>
        RequestLocal(a, db, e);
        RequestStep(a, plan, db, all, pre + post, c);
      case ChunkEvent(_, _, _, _) =>
        ChunkLocal(a, db, e);
        ChunkStep(a, plan, db, all, pre + post, c, e);
      case ResponseEvent(_, _, _, _, _, _) =>
        ResponseLocal(a, db, e);
        ResponseRecorded(a, db, e);
        NoChunkLeft(a, plan, db, pre, f, post, c);
        ResponseStep(a, plan, db, all, pre + post, c, e);
    }
  }

  lemma {:induction false} FileLeaves(a: Adapter, plan: Plan, db: Db, pre: seq<File>, f: File, post: seq<File>)
    requires Inv(a, plan, db, pre + [f] + post) && ChunksWait(a, plan, pre)
    requires !Stays(IngestFile(a, db, f.event).0)
    ensures Inv(a, plan, IngestFile(a, db, f.event).1, pre + post)
  {
    hide Storable; hide Answerable;
    var db' := IngestFile(a, db, f.event).1;
    var left, left' := pre + [f] + post, pre + post;
    RemoveOne(a, plan, pre, f, post);
    assert Planned(a, plan, f) || Neutral(a, f) by { assert left[|pre|] == f; }
    if Neutral(a, f) {
      NeutralKeepsTables(a, db, f);
      hide Has; hide IngestFile; hide Inv;
      SameTables(a, plan, db, db', left, left');
    } else {
      var e := f.event.value;
      assert Persist(a, db, e) == Saved(db') by { hide Persist; }
      hide Persist; hide Has; hide CallOk;
      PlannedStep(a, plan, db, pre, f, post, db');
      forall d ensures CallOk(a, plan, db', left', d) {
        assert CallOk(a, plan, db, left, d);
        if Some(d) != CallOf(a, e) { OtherCall(a, plan, db, db', left, left', d); }
      }
    }
  }

  // ----- batches and arrivals -----

  lemma {:induction false} AttemptInv(a: Adapter, plan: Plan, db: Db, files: seq<File>, rest: seq<File>)
    requires Inv(a, plan, db, files + rest)
    ensures var r := Attempt(a, db, files); Inv(a, plan, r.db, r.kept + rest) && ChunksWait(a, plan, r.kept)
    decreases |files|
  {
    hide Inv; hide IngestFile;
    if files != [] {
      hide ChunksWait;
      var n := |files| - 1;
      var f := files[n];
      assert files + rest == files[..n] + ([f] + rest);
      AttemptInv(a, plan, db, files[..n], [f] + rest);
      var before := Attempt(a, db, files[..n]);
      assert before.kept + [f] + rest == before.kept + ([f] + rest);
      if Stays(IngestFile(a, before.db, f.event).0) {
        FileStays(a, plan, before.db, before.kept, f, rest);
      } else {
        FileLeaves(a, plan, before.db, before.kept, f, rest);
        assert before.kept + [] == before.kept;
      }
    }
  }

  /** New files come last; then a batch runs. */
  datatype Round = Round(arrivals: seq<File>, limit: nat)

  ghost function Drain(a: Adapter, s: Spooled, rounds: seq<Round>): Spooled
    decreases |rounds|
  {
    if rounds == [] then s
    else Drain(a, Batch(a, s.(spool := s.spool + rounds[0].arrivals), rounds[0].limit), rounds[1..])
  }

  lemma {:induction false} DrainIgnoresCounters(a: Adapter, s: Spooled, t: Spooled, rounds: seq<Round>)
    requires Bare(s.db) == Bare(t.db) && s.spool == t.spool
    ensures var s', t' := Drain(a, s, rounds), Drain(a, t, rounds); Bare(s'.db) == Bare(t'.db) && s'.spool == t'.spool
    decreases |rounds|
  {
    hide Batch; hide Bare;
    if rounds != [] {
      var s1, t1 := s.(spool := s.spool + rounds[0].arrivals), t.(spool := t.spool + rounds[0].arrivals);
      BatchIgnoresCounters(a, s1, t1, rounds[0].limit);
      DrainIgnoresCounters(a, Batch(a, s1, rounds[0].limit), Batch(a, t1, rounds[0].limit), rounds[1..]);
    }
  }

  function Future(rounds: seq<Round>): seq<File>
    decreases |rounds|
  {
    if rounds == [] then [] else rounds[0].arrivals + Future(rounds[1..])
  }

  lemma {:induction false} BatchInv(a: Adapter, plan: Plan, s: Spooled, limit: nat, future: seq<File>)
    requires Inv(a, plan, s.db, s.spool + future)
    ensures var s' := Batch(a, s, limit); Inv(a, plan, s'.db, s'.spool + future)
  {
    hide Inv; hide Attempt;
    var n := SpyBatches.Taken(s.spool, limit);
    assert s.spool + future == s.spool[..n] + (s.spool[n..] + future);
    AttemptInv(a, plan, s.db, s.spool[..n], s.spool[n..] + future);
    var kept := Attempt(a, s.db, s.spool[..n]).kept;
    assert kept + (s.spool[n..] + future) == (kept + s.spool[n..]) + future;
  }

  /** At any time the tables are determined by the files that are still to be ingested. */
  lemma {:induction false} DrainInv(a: Adapter, plan: Plan, s: Spooled, rounds: seq<Round>)
    requires Inv(a, plan, s.db, s.spool + Future(rounds))
    ensures var s' := Drain(a, s, rounds); Inv(a, plan, s'.db, s'.spool)
    decreases |rounds|
  {
    hide Inv; hide Batch;
    if rounds == [] {
      assert s.spool + [] == s.spool;
    } else {
      var s1, later := s.(spool := s.spool + rounds[0].arrivals), Future(rounds[1..]);
      assert s.spool + Future(rounds) == s1.spool + later;
      BatchInv(a, plan, s1, rounds[0].limit, later);
      DrainInv(a, plan, Batch(a, s1, rounds[0].limit), rounds[1..]);
    }
  }

  lemma {:induction false} LawfulStart(a: Adapter, plan: Plan, files: seq<File>)
    requires Lawful(a, plan, files)
    ensures Inv(a, plan, EMPTY, files)
  {
    hide Belong; hide InOrder; hide Has;
    forall c ensures CallOk(a, plan, EMPTY, files, c) {
      EmptyView(c);
      hide View;
      if c in plan { assert FlowOk(a, c, plan[c]) && AllThere(plan[c], files); }
    }
  }

  lemma {:induction false} EmptyView(c: CallId)
    ensures View(EMPTY, c) == EMPTY
  {}

  /** What the tables hold once everything has been ingested. */
  ghost predicate EachAlone(a: Adapter, plan: Plan, db: Db) {
    forall c ::
      if c in plan then FlowOk(a, c, plan[c]) && View(db, c) == Alone(a, c, plan[c]) else View(db, c) == EMPTY
  }

  /** Drained from an empty database, every call has the rows its own flow gives it alone. */
  lemma {:induction false} DrainGivesEachFlowAlone(a: Adapter, plan: Plan, spool: seq<File>, rounds: seq<Round>)
    requires Lawful(a, plan, spool + Future(rounds))
    requires Drain(a, Spooled(EMPTY, spool), rounds).spool == []
    ensures EachAlone(a, plan, Drain(a, Spooled(EMPTY, spool), rounds).db)
  {
    hide Storable; hide Answerable;
    hide Drain; hide Lawful;
    LawfulStart(a, plan, spool + Future(rounds));
    DrainInv(a, plan, Spooled(EMPTY, spool), rounds);
    var db := Drain(a, Spooled(EMPTY, spool), rounds).db;
    hide View; hide Asked; hide Answered; hide Chunked;
    forall c | c in plan ensures FlowOk(a, c, plan[c]) && View(db, c) == Alone(a, c, plan[c]) {
      assert CallOk(a, plan, db, [], c);
      assert Taken(plan[c], []) == plan[c].chunks;
    }
    forall c | c !in plan ensures View(db, c) == EMPTY { assert CallOk(a, plan, db, [], c); }
  }

  /** Two orders, arrival patterns and choices of batch limits that both empty the spool leave the same
      tables, even if requests share flow ids. */
  lemma {:induction false} EmptiedDrainsAgree(a: Adapter, plan: Plan, spool1: seq<File>, rounds1: seq<Round>,
                                              spool2: seq<File>, rounds2: seq<Round>)
    requires Lawful(a, plan, spool1 + Future(rounds1)) && Lawful(a, plan, spool2 + Future(rounds2))
    requires Drain(a, Spooled(EMPTY, spool1), rounds1).spool == []
    requires Drain(a, Spooled(EMPTY, spool2), rounds2).spool == []
    ensures Bare(Drain(a, Spooled(EMPTY, spool1), rounds1).db) == Bare(Drain(a, Spooled(EMPTY, spool2), rounds2).db)
  {
    DrainGivesEachFlowAlone(a, plan, spool1, rounds1);
    DrainGivesEachFlowAlone(a, plan, spool2, rounds2);
    hide Drain; hide Lawful; hide View; hide Alone; hide FlowOk;
    ViewsDetermine(Drain(a, Spooled(EMPTY, spool1), rounds1).db, Drain(a, Spooled(EMPTY, spool2), rounds2).db);
  }
}
