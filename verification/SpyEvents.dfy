/** What one spool file does to the tables, row by row: when it is stored, deferred or refused, what
    each column says then, and that nothing else moves. */
module SpyEvents {
  import opened Bytes
  import opened SpyTables
  import opened SpyBatches
  import opened SpyReplay

  // ----- rows -----

  /** Only the row of `k` may differ. */
  ghost predicate OnlyAt<K(!new), V(!new)>(t: map<K, V>, t': map<K, V>, k: K) {
    forall x :: x != k ==> (x in t' <==> x in t) && (x in t ==> t'[x] == t[x])
  }

  predicate SetTo<K, V(==)>(t: map<K, V>, k: K, v: V) {
    k in t && t[k] == v
  }

  /** One counter grows. */
  ghost predicate CountsOne(db: Db, db': Db, name: Counter, amount: int) {
    forall n :: CounterOf(db', n) == CounterOf(db, n) + (if n == name then amount else 0)
  }

  /** No two of the blocks of one direction share an ordinal. */
  predicate DistinctOn(bs: seq<NewBlock>, dir: Direction) {
    forall i, j :: 0 <= i < j < |bs| && bs[i].dir == dir && bs[j].dir == dir ==> bs[i].ordinal != bs[j].ordinal
  }

  predicate OnSide(k: BlockKey, c: CallId, dir: Direction) {
    k.call == c && k.dir == dir
  }

  /** The blocks of a direction among `bs` are stored. */
  ghost predicate StoredOn(blocks: map<BlockKey, Block>, c: CallId, bs: seq<NewBlock>, dir: Direction) {
    forall b :: b in bs && b.dir == dir ==> SetTo(blocks, BlockKey(c, dir, b.ordinal), b.block)
  }

  predicate Among(k: BlockKey, bs: seq<NewBlock>, dir: Direction) {
    exists i :: 0 <= i < |bs| && bs[i].dir == dir && bs[i].ordinal == k.ordinal
  }

  // ----- a request -----

  /** No other call has this request flow. */
  ghost predicate FlowIsFree(calls: map<CallId, CallRow>, c: CallId, flow: string) {
    forall d :: d in calls && d != c ==> calls[d].requestFlow != flow
  }

  ghost predicate RequestFits(a: Adapter, db: Db, e: SpoolEvent)
    requires e.RequestEvent?
  {
    && a.request(e).Some? && FlowIsFree(db.calls, a.callId(e.provider, e.flow), e.flow)
    && forall i, j :: 0 <= i < j < |a.request(e).value.blocks| ==>
         a.request(e).value.blocks[i].ordinal != a.request(e).value.blocks[j].ordinal
  }

  /** A request is stored exactly when it normalizes, its flow belongs to no other call and its blocks have
      distinct ordinals. Then its columns are set, those of an answer are kept or empty, its side holds
      its blocks, and all other rows are as before. */
  lemma {:induction false} RequestIsStored(a: Adapter, db: Db, e: SpoolEvent)
    requires e.RequestEvent?
    ensures PersistRequest(a, db, e).Some? <==> RequestFits(a, db, e)
    ensures PersistRequest(a, db, e).Some? ==>
      var c, n, db' := a.callId(e.provider, e.flow), a.request(e).value, PersistRequest(a, db, e).value;
      && OnlyAt(db.calls, db'.calls, c) && c in db'.calls && RequestColumns(db'.calls[c], n, e)
      && (if c in db.calls then SameAnswer(db.calls[c], db'.calls[c]) else NoAnswer(db'.calls[c]))
      && OnlyAt(db.http, db'.http, (c, Request)) && SetTo(db'.http, (c, Request), e.http)
      && OnlyAt(db.raw, db'.raw, (c, Request)) && RowsAre(db'.raw, (c, Request), n.raw)
      && (forall k :: !OnSide(k, c, Request) ==> (k in db'.blocks <==> k in db.blocks))
      && (forall k :: !OnSide(k, c, Request) && k in db.blocks ==> db'.blocks[k] == db.blocks[k])
      && SideIs(Indexed(db'.blocks, db'.fts), c, Request, n.blocks)
      && db'.usage == db.usage && db'.stream == db.stream && db'.chunks == db.chunks
      && CountsOne(db, db', SpoolRequestEvents, 1)
  {
    hide ReplaceBlocks; hide CounterOf; hide UpsertPending; hide ReplaceRows; hide Bump; hide SideIs; hide RowsAre;
    hide RequestColumns; hide SameAnswer; hide NoAnswer; hide FlowIsFree;
    var c := a.callId(e.provider, e.flow);
    if a.request(e).Some? {
      var n := a.request(e).value;
      UpsertIs(db.calls, c, n, e);
      ReplaceIs(Indexed(db.blocks, db.fts), c, Request, n.blocks);
      RowsReplaced(db.raw, (c, Request), n.raw);
      RowSet(db.http, (c, Request), e.http);
      if PersistRequest(a, db, e).Some? { BumpCounts(db, PersistRequest(a, db, e).value, SpoolRequestEvents, 1); }
    }
    hide OnlyAt;
  }

  lemma {:induction false} UpsertIs(calls: map<CallId, CallRow>, c: CallId, n: NormalizedRequest, e: SpoolEvent)
    requires e.RequestEvent?
    ensures var r := UpsertPending(calls, c, n, e.ts, e.flow);
      && (r.Some? <==> FlowIsFree(calls, c, e.flow))
      && (r.Some? ==>
            && OnlyAt(calls, r.value, c) && c in r.value && RequestColumns(r.value[c], n, e)
            && (if c in calls then SameAnswer(calls[c], r.value[c]) else NoAnswer(r.value[c])))
  {}

  lemma {:induction false} RowsReplaced<K(!new), V(!new)>(t: map<K, seq<V>>, k: K, rows: seq<V>)
    ensures OnlyAt(t, ReplaceRows(t, k, rows), k) && RowsAre(ReplaceRows(t, k, rows), k, rows)
  {}

  lemma {:induction false} RowSet<K(!new), V(!new)>(t: map<K, V>, k: K, v: V)
    ensures OnlyAt(t, t[k := v], k) && SetTo(t[k := v], k, v)
  {}

  predicate RequestColumns(row: CallRow, n: NormalizedRequest, e: SpoolEvent)
    requires e.RequestEvent?
  {
    && row.provider == n.provider && row.operation == n.operation && row.modelId == n.modelId
    && row.requestHash == n.requestHash && row.startedAt == e.ts && row.requestFlow == e.flow
  }

  predicate SameAnswer(row: CallRow, row': CallRow) {
    && row'.status == row.status && row'.completedAt == row.completedAt && row'.statusCode == row.statusCode
    && row'.responseFlow == row.responseFlow && row'.responseHash == row.responseHash
  }

  predicate NoAnswer(row: CallRow) {
    && row.status == Pending && row.completedAt.None? && row.statusCode.None?
    && row.responseFlow.None? && row.responseHash.None?
  }

  // ----- a response -----

  /** A request block that no response added. */
  predicate Original(b: Block) {
    b.source != "cursor-response-request-context" && b.source != "cursor-response-context-metadata"
  }

  predicate Adds(bs: seq<NewBlock>) {
    exists i :: 0 <= i < |bs| && bs[i].dir == Request
  }

  /** No block of `bs` takes the place of an original one. */
  ghost predicate MeetsNone(blocks: map<BlockKey, Block>, c: CallId, bs: seq<NewBlock>) {
    forall k :: k in blocks && OnSide(k, c, Request) && Original(blocks[k]) ==> !Among(k, bs, Request)
  }

  ghost predicate ResponseFits(a: Adapter, db: Db, e: SpoolEvent)
    requires e.ResponseEvent?
  {
    && SaidNow(a, db, e).Some?
    && var c, bs := a.callId(e.provider, e.flow), SaidNow(a, db, e).value.blocks;
       DistinctOn(bs, Response) && (Adds(bs) ==> DistinctOn(bs, Request) && MeetsNone(db.blocks, c, bs))
  }

  /** The request side afterwards: the original blocks and those the response adds, if it adds any. */
  ghost predicate Amended(blocks: map<BlockKey, Block>, blocks': map<BlockKey, Block>, c: CallId, bs: seq<NewBlock>) {
    if !Adds(bs) then
      forall k :: OnSide(k, c, Request) ==> (k in blocks' <==> k in blocks) && (k in blocks ==> blocks'[k] == blocks[k])
    else
      && StoredOn(blocks', c, bs, Request)
      && (forall k :: k in blocks && OnSide(k, c, Request) && Original(blocks[k]) ==> SetTo(blocks', k, blocks[k]))
      && forall k :: k in blocks' && OnSide(k, c, Request) ==>
           (k in blocks && Original(blocks[k])) || Among(k, bs, Request)
  }

  /** The response side holds exactly its blocks. */
  ghost predicate AnswerBlocks(blocks': map<BlockKey, Block>, c: CallId, bs: seq<NewBlock>) {
    StoredOn(blocks', c, bs, Response)
    && forall k :: k in blocks' && OnSide(k, c, Response) ==> Among(k, bs, Response)
  }

  ghost predicate OtherCallsKeepBlocks(blocks: map<BlockKey, Block>, blocks': map<BlockKey, Block>, c: CallId) {
    forall k: BlockKey :: k.call != c ==> (k in blocks' <==> k in blocks) && (k in blocks ==> blocks'[k] == blocks[k])
  }

  /** What `own` and `response`, the blocks of the two directions, have to do with `bs`. */
  lemma {:induction false} DirectionIs(bs: seq<NewBlock>, dir: Direction)
    ensures var r := OfDirection(bs, dir);
      && (forall b :: b in r <==> b in bs && b.dir == dir)
      && (Distinct(r) <==> DistinctOn(bs, dir))
  {
    if bs != [] {
      var rest, r := OfDirection(bs[1..], dir), OfDirection(bs, dir);
      DirectionIs(bs[1..], dir);
      assert forall i :: 0 < i < |bs| ==> bs[i] == bs[1..][i - 1];
      if bs[0].dir == dir {
        assert r == [bs[0]] + rest;
        DistinctHead(bs[0], rest);
        DistinctOnHead(bs, dir);
      } else {
        assert r == rest;
        DistinctOnTail(bs, dir);
      }
    }
  }

  lemma {:induction false} DistinctHead(b: NewBlock, rest: seq<NewBlock>)
    ensures Distinct([b] + rest) <==> Distinct(rest) && forall x :: x in rest ==> x.ordinal != b.ordinal
  {
    var r := [b] + rest;
    assert forall i :: 0 <= i < |rest| ==> r[i + 1] == rest[i];
    if Distinct(r) {
      forall x | x in rest ensures x.ordinal != b.ordinal {
        var i :| 0 <= i < |rest| && rest[i] == x;
        assert r[0].ordinal != r[i + 1].ordinal;
      }
      forall i, j | 0 <= i < j < |rest| ensures rest[i].ordinal != rest[j].ordinal {
        assert r[i + 1].ordinal != r[j + 1].ordinal;
      }
    }
  }

  lemma {:induction false} DistinctOnHead(bs: seq<NewBlock>, dir: Direction)
    requires bs != [] && bs[0].dir == dir
    ensures DistinctOn(bs, dir)
      <==> DistinctOn(bs[1..], dir) && forall x :: x in bs[1..] && x.dir == dir ==> x.ordinal != bs[0].ordinal
  {
    var rest := bs[1..];
    assert forall i :: 0 < i < |bs| ==> bs[i] == rest[i - 1];
    if DistinctOn(bs, dir) {
      forall x | x in rest && x.dir == dir ensures x.ordinal != bs[0].ordinal {
        var i :| 0 <= i < |rest| && rest[i] == x;
        assert bs[i + 1] == x;
      }
      DistinctOnTail(bs, dir);
    } else {
      var i, j :| 0 <= i < j < |bs| && bs[i].dir == dir && bs[j].dir == dir && bs[i].ordinal == bs[j].ordinal;
      assert bs[j] in rest;
      if i > 0 { assert rest[i - 1].ordinal == rest[j - 1].ordinal; }
    }
  }

  lemma {:induction false} DistinctOnTail(bs: seq<NewBlock>, dir: Direction)
    requires bs != []
    ensures DistinctOn(bs, dir) ==> DistinctOn(bs[1..], dir)
    ensures bs[0].dir != dir && DistinctOn(bs[1..], dir) ==> DistinctOn(bs, dir)
  {
    var rest := bs[1..];
    assert forall i :: 0 < i < |bs| ==> bs[i] == rest[i - 1];
    if DistinctOn(bs, dir) {
      forall i, j | 0 <= i < j < |rest| && rest[i].dir == dir && rest[j].dir == dir
        ensures rest[i].ordinal != rest[j].ordinal
      {
        assert bs[i + 1].ordinal != bs[j + 1].ordinal;
      }
    }
  }

  lemma {:induction false} DistinctJoined(xs: seq<NewBlock>, ys: seq<NewBlock>)
    requires Distinct(xs)
    ensures Distinct(xs + ys) <==> Distinct(ys) && forall x, y :: x in xs && y in ys ==> x.ordinal != y.ordinal
  {
    var r := xs + ys;
    assert forall i :: 0 <= i < |ys| ==> r[|xs| + i] == ys[i];
    if Distinct(r) {
      forall x, y | x in xs && y in ys ensures x.ordinal != y.ordinal {
        var i :| 0 <= i < |xs| && xs[i] == x;
        var j :| 0 <= j < |ys| && ys[j] == y;
        assert r[i].ordinal != r[|xs| + j].ordinal;
      }
      forall i, j | 0 <= i < j < |ys| ensures ys[i].ordinal != ys[j].ordinal {
        assert r[|xs| + i].ordinal != r[|xs| + j].ordinal;
      }
    }
  }

  lemma {:induction false} AmongIs(bs: seq<NewBlock>, dir: Direction, own: seq<NewBlock>)
    requires forall b :: b in own <==> b in bs && b.dir == dir
    ensures forall k :: Among(k, bs, dir) <==> exists b :: b in own && b.ordinal == k.ordinal
  {
    forall k ensures Among(k, bs, dir) <==> exists b :: b in own && b.ordinal == k.ordinal {
      if Among(k, bs, dir) {
        var i :| 0 <= i < |bs| && bs[i].dir == dir && bs[i].ordinal == k.ordinal;
        assert bs[i] in own;
      }
      if b :| b in own && b.ordinal == k.ordinal {
        var i :| 0 <= i < |bs| && bs[i] == b;
      }
    }
  }

  /** The recorded blocks that stay, and those a response adds, have distinct ordinals. */
  lemma {:induction false} KeptAndOwn(blocks: map<BlockKey, Block>, c: CallId, bs: seq<NewBlock>, own: seq<NewBlock>)
    requires own == OfDirection(bs, Request)
    ensures Distinct(KeptBlocks(blocks, c) + own) <==> DistinctOn(bs, Request) && MeetsNone(blocks, c, bs)
  {
    hide KeptBlocks; hide OfDirection; hide Distinct; hide DistinctOn; hide Among;
    var kept := KeptBlocks(blocks, c);
    DirectionIs(bs, Request);
    AmongIs(bs, Request, own);
    KeptDistinct(blocks, c);
    KeptBlocksIs(blocks, c);
    DistinctJoined(kept, own);
    if MeetsNone(blocks, c, bs) {
      forall x, y | x in kept && y in own ensures x.ordinal != y.ordinal {
        assert !Among(BlockKey(c, Request, x.ordinal), bs, Request);
      }
    }
    if forall x, y :: x in kept && y in own ==> x.ordinal != y.ordinal {
      forall k | k in blocks && OnSide(k, c, Request) && Original(blocks[k]) ensures !Among(k, bs, Request) {
        assert Keeps(blocks, c, k.ordinal);
        assert NewBlock(Request, k.ordinal, blocks[k]) in kept;
      }
    }
  }

  /** The request side. */
  lemma {:induction false} AmendedIs(t: Indexed, c: CallId, bs: seq<NewBlock>)
    ensures var r := AmendRequestBlocks(t, c, OfDirection(bs, Request));
      && (r.Some? <==> (Adds(bs) ==> DistinctOn(bs, Request) && MeetsNone(t.blocks, c, bs)))
      && (r.Some? ==>
            && Amended(t.blocks, r.value.blocks, c, bs) && OtherCallsKeepBlocks(t.blocks, r.value.blocks, c)
            && forall k :: OnSide(k, c, Response) ==>
                 (k in r.value.blocks <==> k in t.blocks) && (k in t.blocks ==> r.value.blocks[k] == t.blocks[k]))
  {
    var own := OfDirection(bs, Request);
    DirectionIs(bs, Request);
    hide ReplaceBlocks; hide KeptBlocks; hide OfDirection; hide Distinct; hide DistinctOn; hide MeetsNone;
    if own == [] {
      assert !Adds(bs);
    } else {
      assert own[0] in own;
      KeptAndOwn(t.blocks, c, bs, own);
      ReplaceIs(t, c, Request, KeptBlocks(t.blocks, c) + own);
      var r := AmendRequestBlocks(t, c, own);
      if r.Some? { AmendedSide(t, r.value, c, bs, own); }
    }
  }

  lemma {:induction false} AmendedSide(t: Indexed, t': Indexed, c: CallId, bs: seq<NewBlock>, own: seq<NewBlock>)
    requires own != [] && forall b :: b in own <==> b in bs && b.dir == Request
    requires Replaced(t, t', c, Request, KeptBlocks(t.blocks, c) + own)
    ensures Adds(bs) && Amended(t.blocks, t'.blocks, c, bs)
  {
    hide KeptBlocks; hide Among;
    var all := KeptBlocks(t.blocks, c) + own;
    KeptBlocksIs(t.blocks, c);
    AmongIs(bs, Request, own);
    SideHas(t', c, Request, all);
    hide SideIs;
    assert own[0] in bs;
    forall k | k in t.blocks && OnSide(k, c, Request) && Original(t.blocks[k])
      ensures SetTo(t'.blocks, k, t.blocks[k])
    {
      assert Keeps(t.blocks, c, k.ordinal);
      assert NewBlock(Request, k.ordinal, t.blocks[k]) in all;
    }
    forall k | k in t'.blocks && OnSide(k, c, Request)
      ensures (k in t.blocks && Original(t.blocks[k])) || Among(k, bs, Request)
    {
      var b :| b in all && b.ordinal == k.ordinal;
      if b in KeptBlocks(t.blocks, c) { assert Keeps(t.blocks, c, b.ordinal); }
    }
  }

  /** A side, by its blocks rather than their places. */
  lemma {:induction false} SideHas(t: Indexed, c: CallId, dir: Direction, bs: seq<NewBlock>)
    requires SideIs(t, c, dir, bs)
    ensures forall b :: b in bs ==> SetTo(t.blocks, BlockKey(c, dir, b.ordinal), b.block)
    ensures forall k :: k in t.blocks && OnSide(k, c, dir) ==> exists b :: b in bs && b.ordinal == k.ordinal
  {
    forall b | b in bs ensures SetTo(t.blocks, BlockKey(c, dir, b.ordinal), b.block) {
      var i :| 0 <= i < |bs| && bs[i] == b;
    }
    forall k | k in t.blocks && OnSide(k, c, dir) ensures exists b :: b in bs && b.ordinal == k.ordinal {
      var i :| 0 <= i < |bs| && bs[i].ordinal == k.ordinal;
      assert bs[i] in bs;
    }
  }

  /** Both sides, one statement after the other. */
  lemma {:induction false} BothSides(t: Indexed, c: CallId, bs: seq<NewBlock>)
    ensures var r := AmendRequestBlocks(t, c, OfDirection(bs, Request));
      var r' := if r.None? then None else ReplaceBlocks(r.value, c, Response, OfDirection(bs, Response));
      && (r'.Some? <==>
            DistinctOn(bs, Response) && (Adds(bs) ==> DistinctOn(bs, Request) && MeetsNone(t.blocks, c, bs)))
      && (r'.Some? ==>
            && Amended(t.blocks, r'.value.blocks, c, bs) && AnswerBlocks(r'.value.blocks, c, bs)
            && OtherCallsKeepBlocks(t.blocks, r'.value.blocks, c))
  {
    hide ReplaceBlocks; hide OfDirection; hide Distinct; hide DistinctOn; hide MeetsNone; hide AmendRequestBlocks;
    hide Adds; hide Among;
    AmendedIs(t, c, bs);
    DirectionIs(bs, Response);
    var r, response := AmendRequestBlocks(t, c, OfDirection(bs, Request)), OfDirection(bs, Response);
    if r.Some? {
      ReplaceIs(r.value, c, Response, response);
      var r' := ReplaceBlocks(r.value, c, Response, response);
      if r'.Some? {
        AmongIs(bs, Response, response);
        SideOf(r.value, r'.value, c, Response, response);
        SideHas(r'.value, c, Response, response);
        OtherSides(r.value, r'.value, c, response);
        hide Replaced; hide SideIs;
        AmendedSurvives(t.blocks, r.value.blocks, r'.value.blocks, c, bs);
      }
    }
  }

  lemma {:induction false} OtherSides(t: Indexed, t': Indexed, c: CallId, bs: seq<NewBlock>)
    requires Replaced(t, t', c, Response, bs)
    ensures OtherCallsKeepBlocks(t.blocks, t'.blocks, c)
    ensures forall k :: OnSide(k, c, Request) ==>
      (k in t'.blocks <==> k in t.blocks) && (k in t.blocks ==> t'.blocks[k] == t.blocks[k])
  {}

  lemma {:induction false} AmendedSurvives(blocks: map<BlockKey, Block>, blocks1: map<BlockKey, Block>,
                                           blocks2: map<BlockKey, Block>, c: CallId, bs: seq<NewBlock>)
    requires Amended(blocks, blocks1, c, bs)
    requires forall k :: OnSide(k, c, Request) ==>
      (k in blocks2 <==> k in blocks1) && (k in blocks1 ==> blocks2[k] == blocks1[k])
    ensures Amended(blocks, blocks2, c, bs)
  {
    hide Original; hide Among; hide Adds;
    if Adds(bs) {
      forall b | b in bs && b.dir == Request ensures SetTo(blocks2, BlockKey(c, Request, b.ordinal), b.block) {
        assert SetTo(blocks1, BlockKey(c, Request, b.ordinal), b.block);
        assert OnSide(BlockKey(c, Request, b.ordinal), c, Request);
      }
    }
  }

  /** A response is deferred exactly when its call is not recorded, and stored exactly when it is, the
      response normalizes and its blocks find a place. Then the answer's columns are set, its side holds
      its blocks, the request side is amended, and all other rows are as before. */
  lemma {:induction false} ResponseIsStored(a: Adapter, db: Db, e: SpoolEvent)
    requires e.ResponseEvent?
    ensures var c, r := a.callId(e.provider, e.flow), PersistResponse(a, db, e);
      && (r.NotYet? <==> c !in db.calls)
      && (r.Saved? <==> c in db.calls && ResponseFits(a, db, e))
    ensures PersistResponse(a, db, e).Saved? ==>
      var c, n, db' := a.callId(e.provider, e.flow), SaidNow(a, db, e).value, PersistResponse(a, db, e).db;
      && OnlyAt(db.calls, db'.calls, c) && c in db.calls && c in db'.calls
      && RowSays(db'.calls[c], n, e) && SameRequest(db.calls[c], db'.calls[c])
      && db'.calls[c].modelId == Model(db.calls[c].modelId, n.modelId)
      && OnlyAt(db.http, db'.http, (c, Response)) && SetTo(db'.http, (c, Response), e.http)
      && OnlyAt(db.usage, db'.usage, c) && RowsAre(db'.usage, c, n.usage)
      && OnlyAt(db.stream, db'.stream, c) && RowsAre(db'.stream, c, n.stream)
      && OnlyAt(db.raw, db'.raw, (c, Response)) && RowsAre(db'.raw, (c, Response), n.raw)
      && Amended(db.blocks, db'.blocks, c, n.blocks) && AnswerBlocks(db'.blocks, c, n.blocks)
      && OtherCallsKeepBlocks(db.blocks, db'.blocks, c)
      && db'.chunks == db.chunks && CountsOne(db, db', SpoolResponseEvents, 1)
  {
    hide ReplaceBlocks; hide OfDirection; hide DistinctOn; hide MeetsNone; hide AmendRequestBlocks; hide Adds;
    hide Amended; hide AnswerBlocks; hide OtherCallsKeepBlocks; hide Bump; hide CounterOf; hide Merge; hide ChunkRows;
    hide RespondedRow; hide RowSays; hide SameRequest; hide ReplaceRows; hide RowsAre;
    var c := a.callId(e.provider, e.flow);
    if c in db.calls && SaidNow(a, db, e).Some? {
      var n := SaidNow(a, db, e).value;
      BothSides(Indexed(db.blocks, db.fts), c, n.blocks);
      RowResponded(db.calls[c], n, e);
      RowSet(db.calls, c, RespondedRow(db.calls[c], n, e));
      RowSet(db.http, (c, Response), e.http);
      RowsReplaced(db.usage, c, n.usage);
      RowsReplaced(db.stream, c, n.stream);
      RowsReplaced(db.raw, (c, Response), n.raw);
      if PersistResponse(a, db, e).Saved? { BumpCounts(db, PersistResponse(a, db, e).db, SpoolResponseEvents, 1); }
    }
    hide OnlyAt;
  }

  predicate SameRequest(row: CallRow, row': CallRow) {
    && row'.provider == row.provider && row'.operation == row.operation && row'.startedAt == row.startedAt
    && row'.requestFlow == row.requestFlow && row'.requestHash == row.requestHash
  }

  /** A recorded model id stays, unless it only names the provider. */
  function Model(recorded: string, reported: string): string {
    if recorded in {"cursor", "unknown"} then reported else recorded
  }

  lemma {:induction false} RowResponded(row: CallRow, n: NormalizedResponse, e: SpoolEvent)
    requires e.ResponseEvent?
    ensures var row' := RespondedRow(row, n, e);
      RowSays(row', n, e) && SameRequest(row, row') && row'.modelId == Model(row.modelId, n.modelId)
  {}

  // ----- the other events -----

  /** A chunk of a recorded call is stored under its index; a chunk of another is deferred. */
  lemma {:induction false} ChunkIsStored(a: Adapter, db: Db, e: SpoolEvent)
    requires e.ChunkEvent?
    ensures var c, r := a.callId(e.provider, e.flow), Persist(a, db, e);
      && (if c in db.calls then r.Saved? else r.NotYet?)
      && (c in db.calls ==>
            && OnlyAt(db.chunks, r.db.chunks, (c, e.index)) && SetTo(r.db.chunks, (c, e.index), e.row)
            && Bare(r.db) == Bare(db.(chunks := r.db.chunks)) && CountsOne(db, r.db, SpoolStreamChunkEvents, 1))
  {
    hide CounterOf; hide Bump;
    if a.callId(e.provider, e.flow) in db.calls { BumpCounts(db, Persist(a, db, e).db, SpoolStreamChunkEvents, 1); }
  }

  /** A drop marker moves its count into the database and touches no table. */
  lemma {:induction false} DropIsStored(a: Adapter, db: Db, e: SpoolEvent)
    requires e.DroppedEvent?
    ensures var r := Persist(a, db, e);
      && r.Saved? && Bare(r.db) == Bare(db)
      && forall n :: CounterOf(r.db, n) == CounterOf(db, n)
           + (if n == SpoolDroppedEvents then 1 else if n == CapturesDropped then e.count else 0)
  {}

  /** An error event ends its call as an error, if that is recorded, and nothing else. */
  lemma {:induction false} ErrorIsStored(a: Adapter, db: Db, e: SpoolEvent)
    requires e.ErrorEvent?
    ensures var r, db' := Persist(a, db, e), Persist(a, db, e).db;
      && r.Saved? && CountsOne(db, db', SpoolErrorEvents, 1) && Bare(db') == Bare(db.(calls := db'.calls))
      && (if e.errorProvider.Some? && e.errorFlow.Some?
             && a.callId(e.errorProvider.value, e.errorFlow.value) in db.calls
          then
            var c := a.callId(e.errorProvider.value, e.errorFlow.value);
            && OnlyAt(db.calls, db'.calls, c) && c in db'.calls && SameRequest(db.calls[c], db'.calls[c])
            && db'.calls[c].status == Errored && db'.calls[c].completedAt == Some(e.ts)
            && db'.calls[c].responseFlow == e.errorFlow
            && db'.calls[c].modelId == db.calls[c].modelId && db'.calls[c].statusCode == db.calls[c].statusCode
            && db'.calls[c].responseHash == db.calls[c].responseHash
          else db'.calls == db.calls)
  {
    hide CounterOf; hide Bump;
    BumpCounts(db, Persist(a, db, e).db, SpoolErrorEvents, 1);
  }

  // ----- one spool file -----

  /** The call an event waits for is not recorded yet. */
  predicate Early(a: Adapter, db: Db, e: SpoolEvent) {
    || (e.ResponseEvent? && a.callId(e.provider, e.flow) !in db.calls)
    || (e.ChunkEvent? && a.callId(e.provider, e.flow) !in db.calls)
  }

  ghost predicate Impossible(a: Adapter, db: Db, e: SpoolEvent) {
    || (e.RequestEvent? && !RequestFits(a, db, e))
    || (e.ResponseEvent? && a.callId(e.provider, e.flow) in db.calls && !ResponseFits(a, db, e))
  }

  /** What becomes of a file, whatever it holds: which of the four outcomes, and that one which is not
      ingested changes no table and counts only itself. */
  lemma {:induction false} OutcomeIs(a: Adapter, db: Db, event: Option<SpoolEvent>)
    ensures var (o, db') := IngestFile(a, db, event);
      && (o == Malformed <==> event.None?)
      && (o == Deferred <==> event.Some? && Early(a, db, event.value))
      && (o == Failed <==> event.Some? && Impossible(a, db, event.value))
      && (o != Ingested ==> Bare(db') == Bare(db))
      && (o == Malformed ==> CountsOne(db, db', SpoolMalformedEvents, 1))
      && (o == Failed ==> CountsOne(db, db', SpoolIngestErrors, 1))
      && (o == Deferred ==> db' == db)
      && (o == Ingested ==> Persist(a, db, event.value) == Saved(db'))
  {
    hide PersistRequest; hide PersistResponse; hide PersistChunk; hide PersistDropped; hide PersistError;
    hide RequestFits; hide ResponseFits; hide Bump; hide CounterOf;
    var db' := IngestFile(a, db, event).1;
    match event {
      case None => BumpCounts(db, db', SpoolMalformedEvents, 1);
      case Some(e) =>
        if IngestFile(a, db, event).0 == Failed { BumpCounts(db, db', SpoolIngestErrors, 1); }
        if e.RequestEvent? { RequestFate(a, db, e); }
        if e.ResponseEvent? { ResponseFate(a, db, e); }
    }
  }

  lemma {:induction false} RequestFate(a: Adapter, db: Db, e: SpoolEvent)
    requires e.RequestEvent?
    ensures PersistRequest(a, db, e).Some? <==> RequestFits(a, db, e)
  {
    RequestIsStored(a, db, e);
  }

  lemma {:induction false} ResponseFate(a: Adapter, db: Db, e: SpoolEvent)
    requires e.ResponseEvent?
    ensures PersistResponse(a, db, e).NotYet? <==> a.callId(e.provider, e.flow) !in db.calls
    ensures PersistResponse(a, db, e).Saved? <==>
      a.callId(e.provider, e.flow) in db.calls && ResponseFits(a, db, e)
  {
    ResponseIsStored(a, db, e);
  }

  // ----- deletion -----

  /** A table without the rows of some calls, each row named by its key's call. */
  ghost predicate Without<K(!new), V(!new)>(t: map<K, V>, t': map<K, V>, call: K -> CallId, ids: set<CallId>) {
    forall k :: (k in t' <==> k in t && call(k) !in ids) && (k in t' ==> t'[k] == t[k])
  }

  /** Deleting calls takes their rows in every table, and no other row. */
  lemma {:induction false} DeletionIsExact(db: Db, ids: set<CallId>)
    requires forall k :: k in db.fts ==> k in db.blocks
    ensures var db' := DeleteCalls(db, ids);
      && Without(db.calls, db'.calls, (c: CallId) => c, ids) && Without(db.usage, db'.usage, (c: CallId) => c, ids)
      && Without(db.stream, db'.stream, (c: CallId) => c, ids)
      && Without(db.blocks, db'.blocks, (k: BlockKey) => k.call, ids)
      && Without(db.fts, db'.fts, (k: BlockKey) => k.call, ids)
      && Without(db.http, db'.http, (k: Side) => k.0, ids) && Without(db.raw, db'.raw, (k: Side) => k.0, ids)
      && Without(db.chunks, db'.chunks, (k: ChunkKey) => k.0, ids) && db'.counters == db.counters
  {}
}
