/** The spy database as tables, and what each kind of spool event does to them. */
module SpyTables {
  import opened Bytes
  import opened Ordering

  /** Call ids keep to the ASCII alphabet of `idPart`, so the database sorts them as JavaScript would. */
  type CallId = Text

  datatype Direction = Request | Response

  datatype Status = Pending | Complete | Errored

  datatype CallRow = CallRow(
    provider: string, operation: string, modelId: string, status: Status, startedAt: real, completedAt: Option<real>,
    statusCode: Option<nat>, requestFlow: string, responseFlow: Option<string>,
    requestHash: Option<string>, responseHash: Option<string>)

  /** A block's identifier is built from its call, direction and ordinal. */
  datatype BlockKey = BlockKey(call: CallId, dir: Direction, ordinal: nat)

  datatype Block = Block(source: string, text: Option<string>, rest: string)

  datatype ChunkRow = ChunkRow(bytes: seq<byte>, encoding: Option<string>, http: string)

  /** The names in the health_counter table. */
  datatype Counter =
    | SpoolRequestEvents | SpoolResponseEvents | SpoolStreamChunkEvents | SpoolDroppedEvents | SpoolErrorEvents
    | SpoolMalformedEvents | SpoolIngestErrors | CapturesDropped | RetentionDeletedCalls

  type Side = (CallId, Direction)
  type ChunkKey = (CallId, nat)

  /** The tables. `fts` lists the index entries of each block id; usage, stream and raw rows are
      kept per owner, in insertion order, and an owner without rows is absent. */
  datatype Db = Db(
    calls: map<CallId, CallRow>,
    blocks: map<BlockKey, Block>,
    fts: map<BlockKey, seq<string>>,
    http: map<Side, string>,
    usage: map<CallId, seq<string>>,
    stream: map<CallId, seq<string>>,
    raw: map<Side, seq<string>>,
    chunks: map<ChunkKey, ChunkRow>,
    counters: map<Counter, int>)

  const EMPTY: Db := Db(map[], map[], map[], map[], map[], map[], map[], map[], map[])

  // ----- spool events and their normal forms -----

  datatype Body = Body(text: Option<string>, bytes: Option<seq<byte>>, encoding: Option<string>)

  datatype SpoolEvent =
    | RequestEvent(provider: string, flow: string, ts: real, http: string, body: Body)
    | ResponseEvent(provider: string, flow: string, ts: real, http: string, body: Body, statusCode: nat)
    | ChunkEvent(provider: string, flow: string, index: nat, row: ChunkRow)
    | DroppedEvent(count: nat)
    | ErrorEvent(errorProvider: Option<string>, errorFlow: Option<string>, ts: real)

  datatype NewBlock = NewBlock(dir: Direction, ordinal: nat, block: Block)

  datatype NormalizedRequest = NormalizedRequest(
    provider: string, operation: string, modelId: string, requestHash: Option<string>,
    blocks: seq<NewBlock>, raw: seq<string>)

  datatype NormalizedResponse = NormalizedResponse(
    modelId: string, responseHash: Option<string>,
    blocks: seq<NewBlock>, usage: seq<string>, stream: seq<string>, raw: seq<string>)

  /** The provider adapters; None is an exception. */
  datatype Adapter = Adapter(
    callId: (string, string) -> CallId,
    request: SpoolEvent -> Option<NormalizedRequest>,
    response: SpoolEvent -> Option<NormalizedResponse>)

  function CallOf(a: Adapter, e: SpoolEvent): Option<CallId> {
    match e
    case RequestEvent(p, f, _, _, _) => Some(a.callId(p, f))
    case ResponseEvent(p, f, _, _, _, _) => Some(a.callId(p, f))
    case ChunkEvent(p, f, _, _) => Some(a.callId(p, f))
    case DroppedEvent(_) => None
    case ErrorEvent(p, f, _) => if p.Some? && f.Some? then Some(a.callId(p.value, f.value)) else None
  }

  // ----- statements -----

  function Bump(counters: map<Counter, int>, name: Counter, amount: int): map<Counter, int> {
    counters[name := (if name in counters then counters[name] else 0) + amount]
  }

  /** A table keyed by owner, with the owner's rows replaced. */
  function ReplaceRows<K, V>(table: map<K, seq<V>>, owner: K, rows: seq<V>): map<K, seq<V>> {
    if rows == [] then table - {owner} else table[owner := rows]
  }

  /** INSERT ... ON CONFLICT(id) DO UPDATE; the unique index on request_flow_id may refuse it. */
  function UpsertPending(calls: map<CallId, CallRow>, id: CallId, n: NormalizedRequest, startedAt: real, flow: string)
    : Option<map<CallId, CallRow>>
  {
    if exists other :: other in calls && other != id && calls[other].requestFlow == flow then None
    else if id in calls then
      Some(calls[id := calls[id].(provider := n.provider, operation := n.operation, modelId := n.modelId,
                                  startedAt := startedAt, requestFlow := flow, requestHash := n.requestHash)])
    else
      Some(calls[id := CallRow(n.provider, n.operation, n.modelId, Pending, startedAt, None, None, flow, None,
                               n.requestHash, None)])
  }

  /** A model id that only names the provider gives way to the one the response carries. */
  function BetterModel(recorded: string, reported: string): string {
    if recorded == "cursor" || recorded == "unknown" then reported else recorded
  }

  function RespondedRow(row: CallRow, n: NormalizedResponse, e: SpoolEvent): CallRow
    requires e.ResponseEvent?
  {
    row.(status := if e.statusCode >= 400 then Errored else Complete,
         modelId := BetterModel(row.modelId, n.modelId),
         completedAt := Some(e.ts), statusCode := Some(e.statusCode),
         responseFlow := Some(e.flow), responseHash := n.responseHash)
  }

  function BlocksOf(blocks: map<BlockKey, Block>, call: CallId, dir: Direction): set<BlockKey> {
    set k | k in blocks && k.call == call && k.dir == dir
  }

  /** Block rows and their index entries. */
  datatype Indexed = Indexed(blocks: map<BlockKey, Block>, fts: map<BlockKey, seq<string>>)

  /** DELETE with the delete trigger. */
  function DeleteBlocks(t: Indexed, keys: set<BlockKey>): Indexed {
    Indexed(t.blocks - keys, t.fts - keys)
  }

  /** INSERT with the primary key and the insert trigger. */
  function InsertBlock(t: Indexed, k: BlockKey, b: Block): Option<Indexed> {
    if k in t.blocks then None
    else Some(Indexed(t.blocks[k := b],
      if b.text.None? then t.fts else t.fts[k := (if k in t.fts then t.fts[k] else []) + [b.text.value]]))
  }

  function InsertBlocks(t: Indexed, call: CallId, dir: Direction, bs: seq<NewBlock>): Option<Indexed>
    decreases |bs|
  {
    if bs == [] then Some(t)
    else match InsertBlock(t, BlockKey(call, dir, bs[0].ordinal), bs[0].block)
      case None => None
      case Some(t') => InsertBlocks(t', call, dir, bs[1..])
  }

  function ReplaceBlocks(t: Indexed, call: CallId, dir: Direction, bs: seq<NewBlock>): Option<Indexed> {
    InsertBlocks(DeleteBlocks(t, BlocksOf(t.blocks, call, dir)), call, dir, bs)
  }

  // ----- requests -----

  function PersistRequest(a: Adapter, db: Db, e: SpoolEvent): Option<Db>
    requires e.RequestEvent?
  {
    var id := a.callId(e.provider, e.flow);
    match a.request(e)
    case None => None
    case Some(n) =>
      match UpsertPending(db.calls, id, n, e.ts, e.flow)
      case None => None
      case Some(calls) =>
        match ReplaceBlocks(Indexed(db.blocks, db.fts), id, Request, n.blocks)
        case None => None
        case Some(t) =>
          Some(db.(calls := calls, http := db.http[(id, Request) := e.http], blocks := t.blocks, fts := t.fts,
                   raw := ReplaceRows(db.raw, (id, Request), n.raw),
                   counters := Bump(db.counters, SpoolRequestEvents, 1)))
  }

  // ----- chunks -----

  /** The captured chunks of a call with an index below `n`, by index. */
  function ChunksBelow(chunks: map<ChunkKey, ChunkRow>, call: CallId, n: nat): seq<ChunkRow> {
    if n == 0 then []
    else ChunksBelow(chunks, call, n - 1) + (if (call, n - 1) in chunks then [chunks[(call, n - 1)]] else [])
  }

  predicate Bounds(ns: set<nat>, n: nat) {
    forall i :: i in ns ==> i < n
  }

  /** A bound above every number of a finite set. */
  ghost function Bound(ns: set<nat>): (n: nat)
    ensures Bounds(ns, n)
  {
    BoundExists(ns);
    var n: nat :| Bounds(ns, n);
    n
  }

  lemma {:induction false} BoundExists(ns: set<nat>)
    ensures exists n: nat :: Bounds(ns, n)
    decreases |ns|
  {
    if ns == {} {
      assert Bounds(ns, 0);
    } else {
      var i :| i in ns;
      BoundExists(ns - {i});
      var n: nat :| Bounds(ns - {i}, n);
      assert forall x :: x in ns ==> x == i || x in ns - {i};
      assert Bounds(ns, if i < n then n else i + 1);
    }
  }

  /** SELECT ... ORDER BY chunk_index. */
  ghost function ChunkRows(chunks: map<ChunkKey, ChunkRow>, call: CallId): seq<ChunkRow> {
    ChunksBelow(chunks, call, Bound(set k | k in chunks :: k.1))
  }

  /** Indexes without a chunk change nothing, so any bound gives the same rows. */
  lemma {:induction false} ChunksGap(chunks: map<ChunkKey, ChunkRow>, call: CallId, m: nat, n: nat)
    requires m <= n && forall i: nat :: m <= i < n ==> (call, i) !in chunks
    ensures ChunksBelow(chunks, call, n) == ChunksBelow(chunks, call, m)
  {
    if m < n {
      ChunksGap(chunks, call, m, n - 1);
      assert (call, n - 1) !in chunks;
    }
  }

  lemma {:induction false} ChunkRowsBelow(chunks: map<ChunkKey, ChunkRow>, call: CallId, n: nat)
    requires forall i: nat :: (call, i) in chunks ==> i < n
    ensures ChunkRows(chunks, call) == ChunksBelow(chunks, call, n)
  {
    var indexes := set k | k in chunks :: k.1;
    var end := Bound(indexes);
    forall i: nat | (call, i) in chunks ensures i < end { assert (call, i).1 in indexes; }
    if n <= end { ChunksGap(chunks, call, n, end); } else { ChunksGap(chunks, call, end, n); }
  }

  function BytesOf(rows: seq<ChunkRow>): (r: seq<seq<byte>>)
    ensures |r| == |rows| && forall i :: 0 <= i < |rows| ==> r[i] == rows[i].bytes
  {
    seq(|rows|, i requires 0 <= i < |rows| => rows[i].bytes)
  }

  /** The encoding all chunks agree on, if they all name one. */
  function CommonEncoding(rows: seq<ChunkRow>): Option<string>
    requires rows != []
  {
    if forall i :: 0 <= i < |rows| ==> rows[i].encoding.Some? && rows[i].encoding == rows[0].encoding
    then rows[0].encoding else None
  }

  /** `responseEventWithCapturedStreamChunks`: captured chunks, if they hold anything, are the body. */
  function Merge(e: SpoolEvent, rows: seq<ChunkRow>): SpoolEvent
    requires e.ResponseEvent?
  {
    if rows == [] || Concat(BytesOf(rows)) == [] then e
    else e.(body := Body(None, Some(Concat(BytesOf(rows))), CommonEncoding(rows)))
  }

  function PersistChunk(a: Adapter, db: Db, e: SpoolEvent): Db
    requires e.ChunkEvent?
  {
    db.(chunks := db.chunks[(a.callId(e.provider, e.flow), e.index) := e.row],
        counters := Bump(db.counters, SpoolStreamChunkEvents, 1))
  }

  // ----- responses -----

  function OfDirection(bs: seq<NewBlock>, dir: Direction): (r: seq<NewBlock>)
    ensures forall b :: b in r ==> b in bs && b.dir == dir
  {
    if bs == [] then [] else (if bs[0].dir == dir then [bs[0]] else []) + OfDirection(bs[1..], dir)
  }

  /** `isResponseDerivedRequestBlock`. */
  predicate ResponseDerived(b: Block) {
    b.source == "cursor-response-request-context" || b.source == "cursor-response-context-metadata"
  }

  /** The request rows below ordinal `n` that no earlier response added, by ordinal. */
  function KeptBelow(blocks: map<BlockKey, Block>, call: CallId, n: nat): seq<NewBlock> {
    if n == 0 then []
    else
      var k := BlockKey(call, Request, n - 1);
      KeptBelow(blocks, call, n - 1)
        + (if k in blocks && !ResponseDerived(blocks[k]) then [NewBlock(Request, n - 1, blocks[k])] else [])
  }

  ghost function KeptBlocks(blocks: map<BlockKey, Block>, call: CallId): seq<NewBlock> {
    KeptBelow(blocks, call, Bound(set k | k in blocks :: k.ordinal))
  }

  lemma {:induction false} KeptGap(blocks: map<BlockKey, Block>, call: CallId, m: nat, n: nat)
    requires m <= n && forall i: nat :: m <= i < n ==> BlockKey(call, Request, i) !in blocks
    ensures KeptBelow(blocks, call, n) == KeptBelow(blocks, call, m)
  {
    if m < n {
      KeptGap(blocks, call, m, n - 1);
      assert BlockKey(call, Request, n - 1) !in blocks;
    }
  }

  lemma {:induction false} KeptAll(blocks: map<BlockKey, Block>, call: CallId, n: nat)
    requires forall i: nat :: BlockKey(call, Request, i) in blocks ==> i < n
    ensures KeptBelow(blocks, call, n) == KeptBlocks(blocks, call)
  {
    var ordinals := set k | k in blocks :: k.ordinal;
    var end := Bound(ordinals);
    forall i: nat | BlockKey(call, Request, i) in blocks ensures i < end {
      assert BlockKey(call, Request, i).ordinal in ordinals;
    }
    if n <= end { KeptGap(blocks, call, n, end); } else { KeptGap(blocks, call, end, n); }
  }

  /** A response that derives request blocks rewrites the request side: kept rows, then its own. */
  ghost function AmendRequestBlocks(t: Indexed, call: CallId, bs: seq<NewBlock>): Option<Indexed> {
    if bs == [] then Some(t) else ReplaceBlocks(t, call, Request, KeptBlocks(t.blocks, call) + bs)
  }

  datatype Persisted = Saved(db: Db) | NotYet | Threw

  ghost function PersistResponse(a: Adapter, db: Db, e: SpoolEvent): Persisted
    requires e.ResponseEvent?
  {
    var id := a.callId(e.provider, e.flow);
    if id !in db.calls then NotYet
    else match a.response(Merge(e, ChunkRows(db.chunks, id)))
      case None => Threw
      case Some(n) =>
        match AmendRequestBlocks(Indexed(db.blocks, db.fts), id, OfDirection(n.blocks, Request))
        case None => Threw
        case Some(t1) =>
          match ReplaceBlocks(t1, id, Response, OfDirection(n.blocks, Response))
          case None => Threw
          case Some(t2) =>
            Saved(db.(calls := db.calls[id := RespondedRow(db.calls[id], n, e)],
                      http := db.http[(id, Response) := e.http], blocks := t2.blocks, fts := t2.fts,
                      usage := ReplaceRows(db.usage, id, n.usage), stream := ReplaceRows(db.stream, id, n.stream),
                      raw := ReplaceRows(db.raw, (id, Response), n.raw),
                      counters := Bump(db.counters, SpoolResponseEvents, 1)))
  }

  // ----- the other events, and one spool file -----

  function PersistDropped(db: Db, e: SpoolEvent): Db
    requires e.DroppedEvent?
  {
    db.(counters := Bump(Bump(db.counters, SpoolDroppedEvents, 1), CapturesDropped, e.count))
  }

  function ErroredCalls(calls: map<CallId, CallRow>, id: Option<CallId>, ts: real, flow: Option<string>)
    : map<CallId, CallRow>
  {
    if id.Some? && id.value in calls then
      calls[id.value := calls[id.value].(status := Errored, completedAt := Some(ts), responseFlow := flow)]
    else calls
  }

  function PersistError(a: Adapter, db: Db, e: SpoolEvent): Db
    requires e.ErrorEvent?
  {
    db.(calls := ErroredCalls(db.calls, CallOf(a, e), e.ts, e.errorFlow),
        counters := Bump(db.counters, SpoolErrorEvents, 1))
  }

  ghost function Persist(a: Adapter, db: Db, e: SpoolEvent): Persisted {
    match e
    case RequestEvent(_, _, _, _, _) =>
      (match PersistRequest(a, db, e) case Some(db') => Saved(db') case None => Threw)
    case ResponseEvent(_, _, _, _, _, _) => PersistResponse(a, db, e)
    case ChunkEvent(p, f, _, _) => if a.callId(p, f) in db.calls then Saved(PersistChunk(a, db, e)) else NotYet
    case DroppedEvent(_) => Saved(PersistDropped(db, e))
    case ErrorEvent(_, _, _) => Saved(PersistError(a, db, e))
  }

  datatype Outcome = Ingested | Deferred | Malformed | Failed

  /** What `ingestSpoolFileUnlocked` returns and leaves; a file that does not parse has no event. */
  ghost function IngestFile(a: Adapter, db: Db, event: Option<SpoolEvent>): (Outcome, Db) {
    match event
    case None => (Malformed, db.(counters := Bump(db.counters, SpoolMalformedEvents, 1)))
    case Some(e) =>
      match Persist(a, db, e)
      case Saved(db') => (Ingested, db')
      case NotYet => (Deferred, db)
      case Threw => (Failed, db.(counters := Bump(db.counters, SpoolIngestErrors, 1)))
  }

  /** A file that is not saved changes no table but the counters. */
  lemma {:induction false} IngestResult(a: Adapter, db: Db, event: Option<SpoolEvent>)
    ensures var r := IngestFile(a, db, event);
      if event.Some? && Persist(a, db, event.value).Saved?
      then r == (Ingested, Persist(a, db, event.value).db)
      else r.0 != Ingested && r.1 == db.(counters := r.1.counters)
  {
    hide Persist; hide Bump;
  }

  /** The tables, counters aside. */
  function Bare(db: Db): Db {
    db.(counters := map[])
  }

  // ----- deletion -----

  /** A table whose keys start with a call, without the rows of the calls in `ids`. */
  function OfOthers<K(==), V>(table: map<(CallId, K), V>, ids: set<CallId>): map<(CallId, K), V> {
    map k | k in table && k.0 !in ids :: table[k]
  }

  /** DELETE FROM provider_call for the calls in `ids`: every child row goes with its call. */
  function DeleteCalls(db: Db, ids: set<CallId>): Db {
    var gone := set k | k in db.blocks && k.call in ids;
    db.(calls := db.calls - ids,
        blocks := db.blocks - gone, fts := db.fts - gone,
        http := OfOthers(db.http, ids),
        usage := db.usage - ids, stream := db.stream - ids,
        raw := OfOthers(db.raw, ids),
        chunks := OfOthers(db.chunks, ids))
  }

  /** The tables of `clearData`: all calls and counters go. */
  function Cleared(db: Db): Db {
    DeleteCalls(db, db.calls.Keys).(counters := map[])
  }
}
