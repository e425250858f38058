/** Calls do not interfere: an event changes the rows of its own call only, and as it would change
    them if no other call were recorded. */
module SpyViews {
  import opened Bytes
  import opened SpyTables

  function OwnBlocks<V>(table: map<BlockKey, V>, c: CallId): map<BlockKey, V> {
    map k | k in table && k.call == c :: table[k]
  }

  function OwnRows<K(==), V>(table: map<(CallId, K), V>, c: CallId): map<(CallId, K), V> {
    map k | k in table && k.0 == c :: table[k]
  }

  function Own<V>(table: map<CallId, V>, c: CallId): map<CallId, V> {
    map k | k in table && k == c :: table[k]
  }

  function OwnIndexed(t: Indexed, c: CallId): Indexed {
    Indexed(OwnBlocks(t.blocks, c), OwnBlocks(t.fts, c))
  }

  /** The rows of one call. */
  function View(db: Db, c: CallId): Db {
    Db(Own(db.calls, c), OwnBlocks(db.blocks, c), OwnBlocks(db.fts, c), OwnRows(db.http, c), Own(db.usage, c),
       Own(db.stream, c), OwnRows(db.raw, c), OwnRows(db.chunks, c), map[])
  }

  /** The tables are nothing but the rows of the calls. */
  lemma {:induction false} ViewsDetermine(x: Db, y: Db)
    requires forall c :: View(x, c) == View(y, c)
    ensures Bare(x) == Bare(y)
  {
    forall c ensures SameView(x, y, c) { assert View(x, c) == View(y, c); }
    assert x.calls == y.calls by {
      forall c ensures Own(x.calls, c) == Own(y.calls, c) { assert SameView(x, y, c); }
      OwnDetermines(x.calls, y.calls);
    }
    assert x.usage == y.usage by {
      forall c ensures Own(x.usage, c) == Own(y.usage, c) { assert SameView(x, y, c); }
      OwnDetermines(x.usage, y.usage);
    }
    assert x.stream == y.stream by {
      forall c ensures Own(x.stream, c) == Own(y.stream, c) { assert SameView(x, y, c); }
      OwnDetermines(x.stream, y.stream);
    }
    assert x.blocks == y.blocks by {
      forall c ensures OwnBlocks(x.blocks, c) == OwnBlocks(y.blocks, c) { assert SameView(x, y, c); }
      BlocksDetermine(x.blocks, y.blocks);
    }
    assert x.fts == y.fts by {
      forall c ensures OwnBlocks(x.fts, c) == OwnBlocks(y.fts, c) { assert SameView(x, y, c); }
      BlocksDetermine(x.fts, y.fts);
    }
    assert x.http == y.http by {
      forall c ensures OwnRows(x.http, c) == OwnRows(y.http, c) { assert SameView(x, y, c); }
      RowsDetermine(x.http, y.http);
    }
    assert x.raw == y.raw by {
      forall c ensures OwnRows(x.raw, c) == OwnRows(y.raw, c) { assert SameView(x, y, c); }
      RowsDetermine(x.raw, y.raw);
    }
    assert x.chunks == y.chunks by {
      forall c ensures OwnRows(x.chunks, c) == OwnRows(y.chunks, c) { assert SameView(x, y, c); }
      RowsDetermine(x.chunks, y.chunks);
    }
  }

  ghost predicate SameView(x: Db, y: Db, c: CallId) {
    && Own(x.calls, c) == Own(y.calls, c) && OwnBlocks(x.blocks, c) == OwnBlocks(y.blocks, c)
    && OwnBlocks(x.fts, c) == OwnBlocks(y.fts, c) && OwnRows(x.http, c) == OwnRows(y.http, c)
    && Own(x.usage, c) == Own(y.usage, c) && Own(x.stream, c) == Own(y.stream, c)
    && OwnRows(x.raw, c) == OwnRows(y.raw, c) && OwnRows(x.chunks, c) == OwnRows(y.chunks, c)
  }

  lemma {:induction false} OwnDetermines<V>(x: map<CallId, V>, y: map<CallId, V>)
    requires forall c :: Own(x, c) == Own(y, c)
    ensures x == y
  {
    forall c ensures c in x <==> c in y { assert c in Own(x, c) <==> c in x; assert c in Own(y, c) <==> c in y; }
    forall c | c in x ensures x[c] == y[c] { assert Own(x, c)[c] == Own(y, c)[c]; }
  }

  lemma {:induction false} BlocksDetermine<V>(x: map<BlockKey, V>, y: map<BlockKey, V>)
    requires forall c :: OwnBlocks(x, c) == OwnBlocks(y, c)
    ensures x == y
  {
    forall k ensures k in x <==> k in y {
      assert k in OwnBlocks(x, k.call) <==> k in x;
      assert k in OwnBlocks(y, k.call) <==> k in y;
    }
    forall k | k in x ensures x[k] == y[k] { assert OwnBlocks(x, k.call)[k] == OwnBlocks(y, k.call)[k]; }
  }

  lemma {:induction false} RowsDetermine<K, V>(x: map<(CallId, K), V>, y: map<(CallId, K), V>)
    requires forall c :: OwnRows(x, c) == OwnRows(y, c)
    ensures x == y
  {
    forall k ensures k in x <==> k in y {
      assert k in OwnRows(x, k.0) <==> k in x;
      assert k in OwnRows(y, k.0) <==> k in y;
    }
    forall k | k in x ensures x[k] == y[k] { assert OwnRows(x, k.0)[k] == OwnRows(y, k.0)[k]; }
  }

  // ----- statements -----

  lemma {:induction false} SetCallLocal(calls: map<CallId, CallRow>, c: CallId, row: CallRow)
    ensures Own(calls[c := row], c) == Own(calls, c)[c := row]
    ensures forall d :: d != c ==> Own(calls[c := row], d) == Own(calls, d)
  {}

  lemma {:induction false} SetBlockLocal<V>(table: map<BlockKey, V>, k: BlockKey, v: V)
    ensures OwnBlocks(table[k := v], k.call) == OwnBlocks(table, k.call)[k := v]
    ensures forall d :: d != k.call ==> OwnBlocks(table[k := v], d) == OwnBlocks(table, d)
    ensures k in table <==> k in OwnBlocks(table, k.call)
    ensures k in table ==> OwnBlocks(table, k.call)[k] == table[k]
  {}

  lemma {:induction false} UpsertLocal(calls: map<CallId, CallRow>, id: CallId, n: NormalizedRequest, ts: real,
                                       flow: string)
    requires UpsertPending(calls, id, n, ts, flow).Some?
    ensures var calls' := UpsertPending(calls, id, n, ts, flow).value;
      && UpsertPending(Own(calls, id), id, n, ts, flow) == Some(Own(calls', id))
      && forall d :: d != id ==> Own(calls', d) == Own(calls, d)
  {
    var calls' := UpsertPending(calls, id, n, ts, flow).value;
    SetCallLocal(calls, id, calls'[id]);
    assert calls' == calls[id := calls'[id]];
    assert id in calls <==> id in Own(calls, id);
    assert forall other :: other in Own(calls, id) ==> other == id;
  }

  lemma {:induction false} InsertOneLocal(t: Indexed, k: BlockKey, b: Block)
    ensures match InsertBlock(t, k, b)
      case None => InsertBlock(OwnIndexed(t, k.call), k, b) == None
      case Some(t') =>
        && InsertBlock(OwnIndexed(t, k.call), k, b) == Some(OwnIndexed(t', k.call))
        && forall d :: d != k.call ==> OwnIndexed(t', d) == OwnIndexed(t, d)
  {
    SetBlockLocal(t.blocks, k, b);
    var entries := (if k in t.fts then t.fts[k] else []) + (if b.text.Some? then [b.text.value] else []);
    SetBlockLocal(t.fts, k, entries);
    hide OwnBlocks;
  }

  lemma {:induction false} InsertLocal(t: Indexed, c: CallId, dir: Direction, bs: seq<NewBlock>)
    ensures match InsertBlocks(t, c, dir, bs)
      case None => InsertBlocks(OwnIndexed(t, c), c, dir, bs) == None
      case Some(t') =>
        && InsertBlocks(OwnIndexed(t, c), c, dir, bs) == Some(OwnIndexed(t', c))
        && forall d :: d != c ==> OwnIndexed(t', d) == OwnIndexed(t, d)
    decreases |bs|
  {
    hide InsertBlock; hide OwnIndexed;
    if bs != [] {
      var k := BlockKey(c, dir, bs[0].ordinal);
      InsertOneLocal(t, k, bs[0].block);
      var t1 := InsertBlock(t, k, bs[0].block);
      if t1.Some? { InsertLocal(t1.value, c, dir, bs[1..]); }
    }
  }

  lemma {:induction false} RemoveLocal<V>(table: map<BlockKey, V>, keys: set<BlockKey>, c: CallId)
    requires forall k :: k in keys ==> k.call == c
    ensures OwnBlocks(table - keys, c) == OwnBlocks(table, c) - keys
    ensures forall d :: d != c ==> OwnBlocks(table - keys, d) == OwnBlocks(table, d)
  {}

  lemma {:induction false} DeleteLocal(t: Indexed, c: CallId, dir: Direction)
    ensures var t', own := DeleteBlocks(t, BlocksOf(t.blocks, c, dir)), OwnIndexed(t, c);
      && DeleteBlocks(own, BlocksOf(own.blocks, c, dir)) == OwnIndexed(t', c)
      && forall d :: d != c ==> OwnIndexed(t', d) == OwnIndexed(t, d)
  {
    var keys := BlocksOf(t.blocks, c, dir);
    assert BlocksOf(OwnIndexed(t, c).blocks, c, dir) == keys;
    RemoveLocal(t.blocks, keys, c);
    RemoveLocal(t.fts, keys, c);
    hide OwnBlocks;
  }

  lemma {:induction false} ReplaceLocal(t: Indexed, c: CallId, dir: Direction, bs: seq<NewBlock>)
    ensures match ReplaceBlocks(t, c, dir, bs)
      case None => ReplaceBlocks(OwnIndexed(t, c), c, dir, bs) == None
      case Some(t') =>
        && ReplaceBlocks(OwnIndexed(t, c), c, dir, bs) == Some(OwnIndexed(t', c))
        && forall d :: d != c ==> OwnIndexed(t', d) == OwnIndexed(t, d)
  {
    hide InsertBlocks; hide OwnIndexed; hide DeleteBlocks; hide BlocksOf;
    DeleteLocal(t, c, dir);
    InsertLocal(DeleteBlocks(t, BlocksOf(t.blocks, c, dir)), c, dir, bs);
  }

  lemma {:induction false} KeptBelowLocal(blocks: map<BlockKey, Block>, c: CallId, n: nat)
    ensures KeptBelow(OwnBlocks(blocks, c), c, n) == KeptBelow(blocks, c, n)
  {
    if n > 0 { KeptBelowLocal(blocks, c, n - 1); }
  }

  lemma {:induction false} KeptLocal(blocks: map<BlockKey, Block>, c: CallId)
    ensures KeptBlocks(OwnBlocks(blocks, c), c) == KeptBlocks(blocks, c)
  {
    var ordinals := set k | k in blocks :: k.ordinal;
    var n := Bound(ordinals);
    forall i: nat | BlockKey(c, Request, i) in blocks ensures i < n {
      assert BlockKey(c, Request, i).ordinal in ordinals;
    }
    KeptAll(blocks, c, n);
    KeptAll(OwnBlocks(blocks, c), c, n);
    KeptBelowLocal(blocks, c, n);
  }

  lemma {:induction false} AmendLocal(t: Indexed, c: CallId, bs: seq<NewBlock>)
    ensures match AmendRequestBlocks(t, c, bs)
      case None => AmendRequestBlocks(OwnIndexed(t, c), c, bs) == None
      case Some(t') =>
        && AmendRequestBlocks(OwnIndexed(t, c), c, bs) == Some(OwnIndexed(t', c))
        && forall d :: d != c ==> OwnIndexed(t', d) == OwnIndexed(t, d)
  {
    hide ReplaceBlocks; hide KeptBlocks;
    KeptLocal(t.blocks, c);
    ReplaceLocal(t, c, Request, KeptBlocks(t.blocks, c) + bs);
    assert OwnIndexed(t, c).blocks == OwnBlocks(t.blocks, c);
    hide OwnIndexed;
  }

  lemma {:induction false} ChunksBelowLocal(chunks: map<ChunkKey, ChunkRow>, c: CallId, n: nat)
    ensures ChunksBelow(OwnRows(chunks, c), c, n) == ChunksBelow(chunks, c, n)
  {
    if n > 0 { ChunksBelowLocal(chunks, c, n - 1); }
  }

  lemma {:induction false} ChunkRowsLocal(chunks: map<ChunkKey, ChunkRow>, c: CallId)
    ensures ChunkRows(OwnRows(chunks, c), c) == ChunkRows(chunks, c)
  {
    var indexes := set k | k in chunks :: k.1;
    var n := Bound(indexes);
    forall i: nat | (c, i) in chunks ensures i < n { assert (c, i).1 in indexes; }
    ChunkRowsBelow(chunks, c, n);
    ChunkRowsBelow(OwnRows(chunks, c), c, n);
    ChunksBelowLocal(chunks, c, n);
  }

  lemma {:induction false} ReplaceRowsLocal<V>(table: map<CallId, seq<V>>, c: CallId, rows: seq<V>)
    ensures Own(ReplaceRows(table, c, rows), c) == ReplaceRows(Own(table, c), c, rows)
    ensures forall d :: d != c ==> Own(ReplaceRows(table, c, rows), d) == Own(table, d)
  {}

  lemma {:induction false} ReplaceSideLocal<V>(table: map<Side, seq<V>>, c: CallId, dir: Direction, rows: seq<V>)
    ensures OwnRows(ReplaceRows(table, (c, dir), rows), c) == ReplaceRows(OwnRows(table, c), (c, dir), rows)
    ensures forall d :: d != c ==> OwnRows(ReplaceRows(table, (c, dir), rows), d) == OwnRows(table, d)
  {}

  lemma {:induction false} SetRowLocal<K, V>(table: map<(CallId, K), V>, c: CallId, k: K, row: V)
    ensures OwnRows(table[(c, k) := row], c) == OwnRows(table, c)[(c, k) := row]
    ensures forall d :: d != c ==> OwnRows(table[(c, k) := row], d) == OwnRows(table, d)
  {}

  // ----- events -----

  lemma {:induction false} RequestLocal(a: Adapter, db: Db, e: SpoolEvent)
    requires e.RequestEvent? && PersistRequest(a, db, e).Some?
    ensures var c, db' := a.callId(e.provider, e.flow), PersistRequest(a, db, e).value;
      && PersistRequest(a, View(db, c), e).Some?
      && View(db', c) == Bare(PersistRequest(a, View(db, c), e).value)
      && forall d :: d != c ==> View(db', d) == View(db, d)
  {
    hide UpsertPending; hide ReplaceBlocks; hide ReplaceRows; hide Bump; hide Own; hide OwnBlocks; hide OwnRows;
    var c, n := a.callId(e.provider, e.flow), a.request(e).value;
    UpsertLocal(db.calls, c, n, e.ts, e.flow);
    ReplaceLocal(Indexed(db.blocks, db.fts), c, Request, n.blocks);
    SetRowLocal(db.http, c, Request, e.http);
    ReplaceSideLocal(db.raw, c, Request, n.raw);
    var db' := PersistRequest(a, db, e).value;
    forall d | d != c ensures View(db', d) == View(db, d) {
      assert OwnIndexed(Indexed(db'.blocks, db'.fts), d) == OwnIndexed(Indexed(db.blocks, db.fts), d);
    }
  }

  lemma {:induction false} ResponseLocal(a: Adapter, db: Db, e: SpoolEvent)
    requires e.ResponseEvent? && PersistResponse(a, db, e).Saved?
    ensures var c, db' := a.callId(e.provider, e.flow), PersistResponse(a, db, e).db;
      && PersistResponse(a, View(db, c), e).Saved?
      && View(db', c) == Bare(PersistResponse(a, View(db, c), e).db)
      && forall d :: d != c ==> View(db', d) == View(db, d)
  {
    hide AmendRequestBlocks; hide ReplaceBlocks; hide ReplaceRows; hide Bump; hide OwnBlocks; hide OwnRows;
    hide Merge; hide ChunkRows; hide RespondedRow; hide OfDirection;
    var c := a.callId(e.provider, e.flow);
    ChunkRowsLocal(db.chunks, c);
    var n := a.response(Merge(e, ChunkRows(db.chunks, c))).value;
    var t := Indexed(db.blocks, db.fts);
    AmendLocal(t, c, OfDirection(n.blocks, Request));
    var amended := AmendRequestBlocks(t, c, OfDirection(n.blocks, Request)).value;
    ReplaceLocal(amended, c, Response, OfDirection(n.blocks, Response));
    SetCallLocal(db.calls, c, RespondedRow(db.calls[c], n, e));
    assert c in Own(db.calls, c) && Own(db.calls, c)[c] == db.calls[c];
    hide Own;
    SetRowLocal(db.http, c, Response, e.http);
    ReplaceRowsLocal(db.usage, c, n.usage);
    ReplaceRowsLocal(db.stream, c, n.stream);
    ReplaceSideLocal(db.raw, c, Response, n.raw);
    var db' := PersistResponse(a, db, e).db;
    forall d | d != c ensures View(db', d) == View(db, d) {
      assert OwnIndexed(Indexed(db'.blocks, db'.fts), d) == OwnIndexed(t, d);
    }
  }

  /** What succeeds on a call's own rows succeeds on all. */
  lemma {:induction false} ResponseLocalBack(a: Adapter, db: Db, e: SpoolEvent)
    requires e.ResponseEvent?
    requires var c := a.callId(e.provider, e.flow); c in db.calls && PersistResponse(a, View(db, c), e).Saved?
    ensures PersistResponse(a, db, e).Saved?
  {
    hide AmendRequestBlocks; hide ReplaceBlocks; hide ReplaceRows; hide Bump; hide OwnBlocks; hide OwnRows;
    hide Merge; hide ChunkRows; hide RespondedRow; hide OfDirection;
    var c := a.callId(e.provider, e.flow);
    ChunkRowsLocal(db.chunks, c);
    var n := a.response(Merge(e, ChunkRows(db.chunks, c))).value;
    var t := Indexed(db.blocks, db.fts);
    AmendLocal(t, c, OfDirection(n.blocks, Request));
    var amended := AmendRequestBlocks(t, c, OfDirection(n.blocks, Request));
    if amended.Some? { ReplaceLocal(amended.value, c, Response, OfDirection(n.blocks, Response)); }
  }

  lemma {:induction false} ChunkLocal(a: Adapter, db: Db, e: SpoolEvent)
    requires e.ChunkEvent?
    ensures var c, db' := a.callId(e.provider, e.flow), PersistChunk(a, db, e);
      && View(db', c) == View(db, c).(chunks := View(db, c).chunks[(c, e.index) := e.row])
      && forall d :: d != c ==> View(db', d) == View(db, d)
  {
    hide Bump; hide Own; hide OwnBlocks; hide OwnRows;
    SetRowLocal(db.chunks, a.callId(e.provider, e.flow), e.index, e.row);
  }
}
