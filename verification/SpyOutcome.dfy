/** What the tables say of a call in the end, in terms of what its adapter said of its events. */
module SpyOutcome {
  import opened Bytes
  import opened SpyTables
  import opened SpyInvariants
  import opened SpyViews
  import opened SpyDrain
  import opened SpyReplay
  import opened SpyEvents
  import SpyChunks

  /** The response as it is normalized: with the captured chunks of the flow, if there are any. */
  ghost function Seen(c: CallId, fl: Flow): SpoolEvent
    requires fl.response.Some? && fl.response.value.ResponseEvent?
    requires forall i :: i in fl.chunks ==> fl.chunks[i].ChunkEvent?
  {
    Merge(fl.response.value, ChunkRows(Chunked(EMPTY, c, fl.chunks).chunks, c))
  }

  function AskedRow(n: NormalizedRequest, q: SpoolEvent): CallRow
    requires q.RequestEvent?
  {
    CallRow(n.provider, n.operation, n.modelId, Pending, q.ts, None, None, q.flow, None, n.requestHash, None)
  }

  lemma {:induction false} AskedIs(a: Adapter, c: CallId, q: SpoolEvent)
    requires q.RequestEvent? && CallOf(a, q) == Some(c) && PersistRequest(a, EMPTY, q).Some?
    ensures a.request(q).Some?
    ensures var n, db := a.request(q).value, Asked(a, q);
      && db.calls == map[c := AskedRow(n, q)] && db.http == map[(c, Request) := q.http]
      && db.usage == map[] && db.stream == map[] && db.chunks == map[]
      && db.raw == (if n.raw == [] then map[] else map[(c, Request) := n.raw])
      && SideIs(Indexed(db.blocks, db.fts), c, Request, n.blocks) && IndexAgrees(Indexed(db.blocks, db.fts))
  {
    hide ReplaceBlocks; hide ReplaceRows; hide Bump; hide IndexAgrees; hide SideIs;
    var n := a.request(q).value;
    FirstRows(map[], (c, Request), n.raw);
    assert IndexAgrees(Indexed(map[], map[])) by { EmptyAgrees(); }
    ReplaceIs(Indexed(map[], map[]), c, Request, n.blocks);
    ReplaceBlocksKeep(Indexed(map[], map[]), c, Request, n.blocks);
  }

  lemma {:induction false} EmptyAgrees()
    ensures IndexAgrees(Indexed(map[], map[]))
  {}

  /** A call without a response is pending, with the blocks of its request and its chunks so far. */
  lemma {:induction false} OpenFlowOutcome(a: Adapter, c: CallId, fl: Flow)
    requires FlowOk(a, c, fl) && Storable(a, fl.request) && Answerable(a, c, fl) && fl.response.None?
    ensures var n, db := a.request(fl.request).value, Alone(a, c, fl);
      && db.calls == map[c := AskedRow(n, fl.request)]
      && SideIs(Indexed(db.blocks, db.fts), c, Request, n.blocks)
      && db.chunks == (map i | i in fl.chunks :: (c, i) := fl.chunks[i].row)
      && db.http == map[(c, Request) := fl.request.http] && db.usage == map[] && db.stream == map[]
      && db.raw == if n.raw == [] then map[] else map[(c, Request) := n.raw]
  {
    hide PersistRequest; hide SideIs; hide Asked;
    AskedIs(a, c, fl.request);
  }

  /** An answered call: who and when from the request, what came of it from the response, the model
      from whichever names it; its response blocks, usage, stream and raw rows are the response's,
      and its request blocks those of the request, amended by those the response adds. */
  lemma {:induction false} AnsweredFlowOutcome(a: Adapter, c: CallId, fl: Flow)
    requires FlowOk(a, c, fl) && Storable(a, fl.request) && Answerable(a, c, fl) && fl.response.Some?
    ensures a.request(fl.request).Some? && a.response(Seen(c, fl)).Some?
    ensures var n, r, p := a.request(fl.request).value, a.response(Seen(c, fl)).value, fl.response.value;
      var db := Alone(a, c, fl);
      var t := Indexed(db.blocks, db.fts);
      && db.calls == map[c := CallRow(
           n.provider, n.operation, if n.modelId == "cursor" || n.modelId == "unknown" then r.modelId else n.modelId,
           if p.statusCode >= 400 then Errored else Complete, fl.request.ts, Some(p.ts), Some(p.statusCode),
           fl.request.flow, Some(p.flow), n.requestHash, r.responseHash)]
      && db.http == map[(c, Request) := fl.request.http, (c, Response) := p.http]
      && db.usage == (if r.usage == [] then map[] else map[c := r.usage])
      && db.stream == (if r.stream == [] then map[] else map[c := r.stream])
      && RowsAre(db.raw, (c, Request), n.raw) && RowsAre(db.raw, (c, Response), r.raw)
      && AnswerBlocks(db.blocks, c, r.blocks) && Amended(Asked(a, fl.request).blocks, db.blocks, c, r.blocks)
      && IndexAgrees(t)
      && db.chunks == map i | i in fl.chunks :: (c, i) := fl.chunks[i].row
  {
    hide Asked; hide Alone; hide Answered; hide Chunked; hide Seen; hide SideIs; hide IndexAgrees; hide Merge;
    hide ChunkRows; hide OfDirection; hide RespondedRow; hide AskedRow; hide AmendRequestBlocks; hide ReplaceBlocks;
    hide ReplaceRows; hide PersistRequest; hide PersistResponse; hide CallOf; hide Storable; hide Answerable;
    hide RowsAre; hide AnswerBlocks; hide Amended;
    PartIs(a, c, fl);
    AskedIs(a, c, fl.request);
    var asked := Asked(a, fl.request);
    var part, e := Chunked(asked, c, fl.chunks), fl.response.value;
    AnsweredIs(a, part, e, c);
    var r := a.response(Seen(c, fl)).value;
    RowIs(a.request(fl.request).value, r, fl.request, e);
    FirstRows(asked.usage, c, r.usage);
    FirstRows(asked.stream, c, r.stream);
    OneKey(c, asked.calls[c], RespondedRow(asked.calls[c], r, e), c);
    OneKey((c, Request), fl.request.http, e.http, (c, Response));
    RawOutcome(asked.raw, c, a.request(fl.request).value.raw, r.raw);
    BlocksOutcome(Indexed(part.blocks, part.fts), c, r.blocks);
  }

  lemma {:induction false} PartIs(a: Adapter, c: CallId, fl: Flow)
    requires FlowOk(a, c, fl) && Storable(a, fl.request) && Answerable(a, c, fl) && fl.response.Some?
    ensures var asked, e := Asked(a, fl.request), fl.response.value;
      var part := Chunked(asked, c, fl.chunks);
      && PersistRequest(a, EMPTY, fl.request).Some?
      && PersistResponse(a, part, e).Saved? && Alone(a, c, fl) == Answered(a, part, e)
      && part == asked.(chunks := part.chunks) && part.chunks == (map i | i in fl.chunks :: (c, i) := fl.chunks[i].row)
      && Merge(e, ChunkRows(part.chunks, c)) == Seen(c, fl) && CallOf(a, e) == Some(c)
  {
    hide PersistRequest; hide PersistResponse; hide Asked; hide Answered; hide Merge; hide ChunkRows;
  }

  /** The tables after a response, one by one. */
  lemma {:induction false} AnsweredIs(a: Adapter, db: Db, e: SpoolEvent, c: CallId)
    requires e.ResponseEvent? && CallOf(a, e) == Some(c) && PersistResponse(a, db, e).Saved?
    ensures c in db.calls && a.response(Merge(e, ChunkRows(db.chunks, c))).Some?
    ensures var r, db' := a.response(Merge(e, ChunkRows(db.chunks, c))).value, Answered(a, db, e);
      var t := AmendRequestBlocks(Indexed(db.blocks, db.fts), c, OfDirection(r.blocks, Request));
      && db'.calls == db.calls[c := RespondedRow(db.calls[c], r, e)] && db'.http == db.http[(c, Response) := e.http]
      && db'.usage == ReplaceRows(db.usage, c, r.usage) && db'.stream == ReplaceRows(db.stream, c, r.stream)
      && db'.raw == ReplaceRows(db.raw, (c, Response), r.raw) && db'.chunks == db.chunks
      && t.Some?
      && ReplaceBlocks(t.value, c, Response, OfDirection(r.blocks, Response)) == Some(Indexed(db'.blocks, db'.fts))
  {
    hide AmendRequestBlocks; hide ReplaceBlocks; hide ReplaceRows; hide Bump; hide Merge; hide ChunkRows;
    hide OfDirection;
    hide RespondedRow;
  }

  lemma {:induction false} RowIs(n: NormalizedRequest, r: NormalizedResponse, q: SpoolEvent, p: SpoolEvent)
    requires q.RequestEvent? && p.ResponseEvent?
    ensures RespondedRow(AskedRow(n, q), r, p) == CallRow(
      n.provider, n.operation, if n.modelId == "cursor" || n.modelId == "unknown" then r.modelId else n.modelId,
      if p.statusCode >= 400 then Errored else Complete, q.ts, Some(p.ts), Some(p.statusCode),
      q.flow, Some(p.flow), n.requestHash, r.responseHash)
  {}

  lemma {:induction false} FirstRows<K, V>(table: map<K, seq<V>>, k: K, rows: seq<V>)
    requires table == map[]
    ensures ReplaceRows(table, k, rows) == if rows == [] then map[] else map[k := rows]
  {}

  lemma {:induction false} OneKey<K, V>(k: K, x: V, y: V, other: K)
    ensures map[k := x][k := y] == map[k := y]
    ensures map[k := x][other := y] == map[k := x, other := y]
  {}

  lemma {:induction false} RawOutcome(raw: map<Side, seq<string>>, c: CallId, asked: seq<string>, said: seq<string>)
    requires RowsAre(raw, (c, Request), asked)
    ensures var raw' := ReplaceRows(raw, (c, Response), said);
      RowsAre(raw', (c, Request), asked) && RowsAre(raw', (c, Response), said)
  {}

  lemma {:induction false} BlocksOutcome(t: Indexed, c: CallId, bs: seq<NewBlock>)
    requires IndexAgrees(t) && AmendRequestBlocks(t, c, OfDirection(bs, Request)).Some?
    requires ReplaceBlocks(AmendRequestBlocks(t, c, OfDirection(bs, Request)).value, c, Response,
                           OfDirection(bs, Response)).Some?
    ensures var t' := ReplaceBlocks(AmendRequestBlocks(t, c, OfDirection(bs, Request)).value, c, Response,
                                    OfDirection(bs, Response)).value;
      && AnswerBlocks(t'.blocks, c, bs) && Amended(t.blocks, t'.blocks, c, bs) && IndexAgrees(t')
  {
    hide ReplaceBlocks; hide KeptBlocks; hide IndexAgrees; hide Amended; hide AnswerBlocks; hide OfDirection;
    var own := OfDirection(bs, Request);
    if own != [] { ReplaceBlocksKeep(t, c, Request, KeptBlocks(t.blocks, c) + own); }
    ReplaceBlocksKeep(AmendRequestBlocks(t, c, own).value, c, Response, OfDirection(bs, Response));
    BothSides(t, c, bs);
  }

  /** The chunk events of a flow carry the non-empty pieces of a stream, each under its index. */
  ghost predicate CarriesStream(fl: Flow, pieces: seq<seq<byte>>) {
    var sent := SpyChunks.NonEmpty(pieces);
    && (forall i :: i in fl.chunks <==> i < |sent|)
    && forall i :: i in fl.chunks ==>
         fl.chunks[i].ChunkEvent? && fl.chunks[i].row.bytes == sent[i] && fl.chunks[i].row.encoding.None?
  }

  /** With its stream captured, the response is normalized from the stream, however it was cut. */
  lemma {:induction false} StreamIsSeen(c: CallId, fl: Flow, pieces: seq<seq<byte>>)
    requires CarriesStream(fl, pieces) && Concat(pieces) != []
    requires fl.response.Some? && fl.response.value.ResponseEvent?
    ensures Seen(c, fl) == fl.response.value.(body := Body(None, Some(Concat(pieces)), None))
  {
    hide ChunkRows; hide SpyChunks.NonEmpty; hide Concat; hide Merge; hide SpyChunks.Arrived;
    var sent, chunks := SpyChunks.NonEmpty(pieces), Chunked(EMPTY, c, fl.chunks).chunks;
    var got := fl.chunks.Keys;
    assert SpyChunks.Holds(chunks, c, sent, got);
    SpyChunks.RowsOfCall(chunks, c, sent, got);
    SpyChunks.NonEmptyBytes(pieces);
    SpyChunks.ArrivedBytes(sent, got, |sent|);
    assert sent[..|sent|] == sent;
    SpyChunks.MergedBody(fl.response.value, ChunkRows(chunks, c));
  }
}
