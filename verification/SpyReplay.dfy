/** Ingesting a response again: what the tables it meets say already decides whether it changes them. */
module SpyReplay {
  import opened Bytes
  import opened SpyTables
  import opened SpyInvariants
  import opened SpyBatches
  import opened SpyViews

  // ----- what replacing blocks does -----

  predicate Distinct(bs: seq<NewBlock>) {
    forall i, j :: 0 <= i < j < |bs| ==> bs[i].ordinal != bs[j].ordinal
  }

  predicate Elsewhere(k: BlockKey, call: CallId, dir: Direction) {
    k.call != call || k.dir != dir
  }

  /** The new blocks are there; every other block is one of before. */
  ghost predicate Inserted(t: Indexed, t': Indexed, call: CallId, dir: Direction, bs: seq<NewBlock>) {
    && (forall k :: k in t.blocks ==> k in t'.blocks && t'.blocks[k] == t.blocks[k])
    && (forall i :: 0 <= i < |bs| ==>
          var k := BlockKey(call, dir, bs[i].ordinal); k in t'.blocks && t'.blocks[k] == bs[i].block)
    && (forall k :: k in t'.blocks && k !in t.blocks ==>
          !Elsewhere(k, call, dir) && exists i :: 0 <= i < |bs| && bs[i].ordinal == k.ordinal)
  }

  predicate Free(t: Indexed, call: CallId, dir: Direction, bs: seq<NewBlock>) {
    forall i :: 0 <= i < |bs| ==> BlockKey(call, dir, bs[i].ordinal) !in t.blocks
  }

  lemma {:induction false} InsertIs(t: Indexed, call: CallId, dir: Direction, bs: seq<NewBlock>)
    ensures var r := InsertBlocks(t, call, dir, bs);
      (r.Some? <==> Distinct(bs) && Free(t, call, dir, bs)) && (r.Some? ==> Inserted(t, r.value, call, dir, bs))
    decreases |bs|
  {
    if bs != [] {
      var k := BlockKey(call, dir, bs[0].ordinal);
      var t1 := InsertBlock(t, k, bs[0].block);
      if t1.Some? {
        InsertIs(t1.value, call, dir, bs[1..]);
        InsertHead(t, t1.value, call, dir, bs);
        if InsertBlocks(t, call, dir, bs).Some? {
          InsertedHead(t, t1.value, InsertBlocks(t, call, dir, bs).value, call, dir, bs);
        }
      }
    }
  }

  lemma {:induction false} InsertHead(t: Indexed, t1: Indexed, call: CallId, dir: Direction, bs: seq<NewBlock>)
    requires bs != [] && InsertBlock(t, BlockKey(call, dir, bs[0].ordinal), bs[0].block) == Some(t1)
    ensures Distinct(bs) && Free(t, call, dir, bs) <==> Distinct(bs[1..]) && Free(t1, call, dir, bs[1..])
  {
    var rest := bs[1..];
    assert forall i :: 0 < i < |bs| ==> bs[i] == rest[i - 1];
    if Distinct(rest) && Free(t1, call, dir, rest) {
      forall i, j | 0 <= i < j < |bs| ensures bs[i].ordinal != bs[j].ordinal {
        if i > 0 { assert rest[i - 1].ordinal != rest[j - 1].ordinal; }
        else { assert BlockKey(call, dir, rest[j - 1].ordinal) !in t1.blocks; }
      }
      forall i | 0 <= i < |bs| ensures BlockKey(call, dir, bs[i].ordinal) !in t.blocks {
        if i > 0 { assert BlockKey(call, dir, rest[i - 1].ordinal) !in t1.blocks; }
      }
    }
  }

  lemma {:induction false} InsertedHead(t: Indexed, t1: Indexed, t': Indexed, call: CallId, dir: Direction,
                                        bs: seq<NewBlock>)
    requires bs != [] && InsertBlock(t, BlockKey(call, dir, bs[0].ordinal), bs[0].block) == Some(t1)
    requires Inserted(t1, t', call, dir, bs[1..])
    ensures Inserted(t, t', call, dir, bs)
  {
    var rest := bs[1..];
    forall i | 0 <= i < |bs|
      ensures var k := BlockKey(call, dir, bs[i].ordinal); k in t'.blocks && t'.blocks[k] == bs[i].block
    {
      if i > 0 { assert rest[i - 1] == bs[i]; }
    }
    forall k | k in t'.blocks && k !in t.blocks
      ensures !Elsewhere(k, call, dir) && exists i :: 0 <= i < |bs| && bs[i].ordinal == k.ordinal
    {
      if k in t1.blocks {
        assert bs[0].ordinal == k.ordinal;
      } else {
        var i :| 0 <= i < |rest| && rest[i].ordinal == k.ordinal;
        assert bs[i + 1].ordinal == k.ordinal;
      }
    }
  }

  /** The blocks of one side are exactly the new ones; all others are unchanged. */
  ghost predicate Replaced(t: Indexed, t': Indexed, call: CallId, dir: Direction, bs: seq<NewBlock>) {
    && (forall k :: Elsewhere(k, call, dir) ==> (k in t'.blocks <==> k in t.blocks))
    && (forall k :: Elsewhere(k, call, dir) && k in t.blocks ==> t'.blocks[k] == t.blocks[k])
    && SideIs(t', call, dir, bs)
  }

  ghost predicate SideIs(t: Indexed, call: CallId, dir: Direction, bs: seq<NewBlock>) {
    && (forall i :: 0 <= i < |bs| ==>
          var k := BlockKey(call, dir, bs[i].ordinal); k in t.blocks && t.blocks[k] == bs[i].block)
    && (forall k :: k in t.blocks && !Elsewhere(k, call, dir) ==>
          exists i :: 0 <= i < |bs| && bs[i].ordinal == k.ordinal)
  }

  /** Blocks can be replaced exactly when their ordinals are distinct. */
  lemma {:induction false} ReplaceIs(t: Indexed, call: CallId, dir: Direction, bs: seq<NewBlock>)
    ensures var r := ReplaceBlocks(t, call, dir, bs);
      (r.Some? <==> Distinct(bs)) && (r.Some? ==> Replaced(t, r.value, call, dir, bs))
  {
    hide InsertBlocks;
    InsertIs(DeleteBlocks(t, BlocksOf(t.blocks, call, dir)), call, dir, bs);
  }

  /** Replacing a side by the blocks it already has changes no block, nor the index. */
  lemma {:induction false} ReplaceSame(t: Indexed, call: CallId, dir: Direction, bs: seq<NewBlock>)
    requires IndexAgrees(t) && Distinct(bs) && SideIs(t, call, dir, bs)
    ensures ReplaceBlocks(t, call, dir, bs) == Some(t)
  {
    ReplaceIs(t, call, dir, bs);
    ReplaceBlocksKeep(t, call, dir, bs);
    var t' := ReplaceBlocks(t, call, dir, bs).value;
    hide ReplaceBlocks; hide Distinct;
    forall k ensures k in t'.blocks <==> k in t.blocks {
      if !Elsewhere(k, call, dir) {
        if k in t'.blocks || k in t.blocks {
          var i :| 0 <= i < |bs| && bs[i].ordinal == k.ordinal;
          assert k == BlockKey(call, dir, bs[i].ordinal);
        }
      }
    }
    forall k | k in t.blocks ensures t'.blocks[k] == t.blocks[k] {
      if !Elsewhere(k, call, dir) {
        var i :| 0 <= i < |bs| && bs[i].ordinal == k.ordinal;
        assert k == BlockKey(call, dir, bs[i].ordinal);
      }
    }
    assert t'.blocks == t.blocks;
    IndexDetermined(t, t');
  }

  lemma {:induction false} IndexDetermined(t: Indexed, t': Indexed)
    requires IndexAgrees(t) && IndexAgrees(t') && t.blocks == t'.blocks
    ensures t == t'
  {
    assert t.fts == t'.fts;
  }

  // ----- the request side of a response -----

  predicate AllDerived(bs: seq<NewBlock>) {
    forall b :: b in bs ==> ResponseDerived(b.block)
  }

  predicate Keeps(blocks: map<BlockKey, Block>, call: CallId, i: nat) {
    BlockKey(call, Request, i) in blocks && !ResponseDerived(blocks[BlockKey(call, Request, i)])
  }

  lemma {:induction false} KeptIs(blocks: map<BlockKey, Block>, call: CallId, n: nat)
    ensures forall b :: b in KeptBelow(blocks, call, n) ==>
      Keeps(blocks, call, b.ordinal) && b == NewBlock(Request, b.ordinal, blocks[BlockKey(call, Request, b.ordinal)])
    ensures forall i: nat :: i < n && Keeps(blocks, call, i) ==>
      NewBlock(Request, i, blocks[BlockKey(call, Request, i)]) in KeptBelow(blocks, call, n)
  {
    hide ResponseDerived;
    if n > 0 { KeptIs(blocks, call, n - 1); }
  }

  lemma {:induction false} KeptBlocksIs(blocks: map<BlockKey, Block>, call: CallId)
    ensures forall b :: b in KeptBlocks(blocks, call) ==>
      Keeps(blocks, call, b.ordinal) && b == NewBlock(Request, b.ordinal, blocks[BlockKey(call, Request, b.ordinal)])
    ensures forall i: nat :: Keeps(blocks, call, i) ==>
      NewBlock(Request, i, blocks[BlockKey(call, Request, i)]) in KeptBlocks(blocks, call)
  {
    var ordinals := set k | k in blocks :: k.ordinal;
    forall i: nat | Keeps(blocks, call, i) ensures i < Bound(ordinals) {
      assert BlockKey(call, Request, i).ordinal in ordinals;
    }
    hide Keeps;
    KeptIs(blocks, call, Bound(ordinals));
  }

  lemma {:induction false} KeptSame(x: map<BlockKey, Block>, y: map<BlockKey, Block>, call: CallId)
    requires forall i: nat :: Keeps(x, call, i) <==> Keeps(y, call, i)
    requires forall i: nat :: Keeps(x, call, i) && Keeps(y, call, i) ==>
      x[BlockKey(call, Request, i)] == y[BlockKey(call, Request, i)]
    ensures KeptBlocks(x, call) == KeptBlocks(y, call)
  {
    var ordinals := set k | k in x.Keys + y.Keys :: k.ordinal;
    var n := Bound(ordinals);
    forall i: nat | BlockKey(call, Request, i) in x.Keys + y.Keys ensures i < n {
      assert BlockKey(call, Request, i).ordinal in ordinals;
    }
    KeptAll(x, call, n);
    KeptAll(y, call, n);
    KeptBelowSame(x, y, call, n);
  }

  lemma {:induction false} KeptBelowSame(x: map<BlockKey, Block>, y: map<BlockKey, Block>, call: CallId, n: nat)
    requires forall i: nat :: Keeps(x, call, i) <==> Keeps(y, call, i)
    requires forall i: nat :: Keeps(x, call, i) && Keeps(y, call, i) ==>
      x[BlockKey(call, Request, i)] == y[BlockKey(call, Request, i)]
    ensures KeptBelow(x, call, n) == KeptBelow(y, call, n)
  {
    hide ResponseDerived;
    if n > 0 {
      KeptBelowSame(x, y, call, n - 1);
      assert Keeps(x, call, n - 1) <==> Keeps(y, call, n - 1);
    }
  }

  lemma {:induction false} KeptDistinct(blocks: map<BlockKey, Block>, call: CallId)
    ensures Distinct(KeptBlocks(blocks, call))
  {
    KeptBelowDistinct(blocks, call, Bound(set k | k in blocks :: k.ordinal));
  }

  lemma {:induction false} KeptBelowDistinct(blocks: map<BlockKey, Block>, call: CallId, n: nat)
    ensures Distinct(KeptBelow(blocks, call, n)) && forall b :: b in KeptBelow(blocks, call, n) ==> b.ordinal < n
  {
    hide ResponseDerived;
    if n > 0 { KeptBelowDistinct(blocks, call, n - 1); }
  }

  lemma {:induction false} InEither(xs: seq<NewBlock>, ys: seq<NewBlock>, i: nat)
    requires i < |xs + ys|
    ensures (xs + ys)[i] in xs || (xs + ys)[i] in ys
  {}

  /** After a response whose own request blocks are marked as derived, the same rows are kept. */
  lemma {:induction false} DerivedAreNotKept(t0: Indexed, t: Indexed, call: CallId, own: seq<NewBlock>)
    requires SideIs(t, call, Request, KeptBlocks(t0.blocks, call) + own) && AllDerived(own)
    ensures KeptBlocks(t.blocks, call) == KeptBlocks(t0.blocks, call)
  {
    hide KeptBlocks; hide ResponseDerived;
    var kept := KeptBlocks(t0.blocks, call);
    var bs := kept + own;
    KeptBlocksIs(t0.blocks, call);
    forall i: nat | Keeps(t.blocks, call, i)
      ensures Keeps(t0.blocks, call, i) && t0.blocks[BlockKey(call, Request, i)] == t.blocks[BlockKey(call, Request, i)]
    {
      var j :| 0 <= j < |bs| && bs[j].ordinal == i;
      InEither(kept, own, j);
    }
    forall i: nat | Keeps(t0.blocks, call, i)
      ensures Keeps(t.blocks, call, i) && t0.blocks[BlockKey(call, Request, i)] == t.blocks[BlockKey(call, Request, i)]
    {
      var b := NewBlock(Request, i, t0.blocks[BlockKey(call, Request, i)]);
      var j :| 0 <= j < |kept| && kept[j] == b;
      assert bs[j] == b;
    }
    KeptSame(t.blocks, t0.blocks, call);
  }

  /** If one of them is not marked, it is kept too and comes twice. */
  lemma {:induction false} UnmarkedClashes(t: Indexed, call: CallId, bs: seq<NewBlock>, own: seq<NewBlock>)
    requires SideIs(t, call, Request, bs + own) && !AllDerived(own)
    ensures !Distinct(KeptBlocks(t.blocks, call) + own)
  {
    hide KeptBlocks; hide ResponseDerived;
    var unmarked :| unmarked in own && !ResponseDerived(unmarked.block);
    var i :| 0 <= i < |own| && own[i] == unmarked;
    assert (bs + own)[|bs| + i] == own[i];
    var b := NewBlock(Request, own[i].ordinal, own[i].block);
    KeptBlocksIs(t.blocks, call);
    assert Keeps(t.blocks, call, own[i].ordinal);
    var kept := KeptBlocks(t.blocks, call);
    var j :| 0 <= j < |kept| && kept[j] == b;
    assert (kept + own)[j].ordinal == (kept + own)[|kept| + i].ordinal;
  }

  /** The block rows, when the same blocks are stored a second time. */
  lemma {:induction false} ReplayedBlocks(t0: Indexed, call: CallId, own: seq<NewBlock>, response: seq<NewBlock>)
    requires IndexAgrees(t0) && AmendRequestBlocks(t0, call, own).Some?
    requires ReplaceBlocks(AmendRequestBlocks(t0, call, own).value, call, Response, response).Some?
    ensures var t2 := ReplaceBlocks(AmendRequestBlocks(t0, call, own).value, call, Response, response).value;
      var again := AmendRequestBlocks(t2, call, own);
      if AllDerived(own) then again == Some(t2) && ReplaceBlocks(t2, call, Response, response) == Some(t2)
      else again.None?
  {
    hide ReplaceBlocks; hide KeptBlocks; hide ResponseDerived; hide Distinct;
    var t1, bs := AmendRequestBlocks(t0, call, own).value, KeptBlocks(t0.blocks, call) + own;
    var t2 := ReplaceBlocks(t1, call, Response, response).value;
    if own != [] {
      ReplaceIs(t0, call, Request, bs);
      ReplaceBlocksKeep(t0, call, Request, bs);
    }
    ReplaceIs(t1, call, Response, response);
    ReplaceBlocksKeep(t1, call, Response, response);
    assert own != [] ==> SideIs(t2, call, Request, bs) by {
      if own != [] { SideSurvives(t0, t1, t2, call, bs, response); }
    }
    hide Replaced; hide SideIs; hide IndexAgrees; hide AllDerived;
    if own == [] {
      NoneDerived();
      SideOf(t1, t2, call, Response, response);
      ReplaceSame(t2, call, Response, response);
    } else if AllDerived(own) {
      DerivedAreNotKept(t0, t2, call, own);
      ReplaceSame(t2, call, Request, bs);
      SideOf(t1, t2, call, Response, response);
      ReplaceSame(t2, call, Response, response);
    } else {
      UnmarkedClashes(t2, call, KeptBlocks(t0.blocks, call), own);
      ReplaceIs(t2, call, Request, KeptBlocks(t2.blocks, call) + own);
    }
  }

  lemma {:induction false} NoneDerived()
    ensures AllDerived([])
  {}

  lemma {:induction false} SideOf(t: Indexed, t': Indexed, call: CallId, dir: Direction, bs: seq<NewBlock>)
    requires Replaced(t, t', call, dir, bs)
    ensures SideIs(t', call, dir, bs)
  {}

  lemma {:induction false} SideSurvives(t0: Indexed, t1: Indexed, t2: Indexed, call: CallId, bs: seq<NewBlock>,
                                        response: seq<NewBlock>)
    requires Replaced(t0, t1, call, Request, bs) && Replaced(t1, t2, call, Response, response)
    ensures SideIs(t2, call, Request, bs)
  {
    forall k: BlockKey | k.call == call && k.dir == Request
      ensures (k in t2.blocks <==> k in t1.blocks) && (k in t1.blocks ==> t2.blocks[k] == t1.blocks[k])
    {
      assert Elsewhere(k, call, Response);
    }
  }

  // ----- the response itself -----

  lemma {:induction false} RespondedTwice(row: CallRow, n: NormalizedResponse, e: SpoolEvent)
    requires e.ResponseEvent?
    ensures RespondedRow(RespondedRow(row, n, e), n, e) == RespondedRow(row, n, e)
  {}

  /** The response with the chunks that are there now, and what it says. */
  ghost function SeenNow(a: Adapter, db: Db, e: SpoolEvent): SpoolEvent
    requires e.ResponseEvent?
  {
    Merge(e, ChunkRows(db.chunks, a.callId(e.provider, e.flow)))
  }

  ghost function SaidNow(a: Adapter, db: Db, e: SpoolEvent): Option<NormalizedResponse>
    requires e.ResponseEvent?
  {
    a.response(SeenNow(a, db, e))
  }

  /** The request blocks it would add. */
  ghost function OwnRequestBlocks(a: Adapter, db: Db, e: SpoolEvent): seq<NewBlock>
    requires e.ResponseEvent?
  {
    match SaidNow(a, db, e)
    case None => []
    case Some(n) => OfDirection(n.blocks, Request)
  }

  /** Ingesting the response again at once succeeds exactly when all the request blocks it adds are
      marked as derived from a response; if not, it fails, and either way no table changes. */
  lemma {:induction false} ReplayedResponse(a: Adapter, db: Db, e: SpoolEvent)
    requires IndexAgrees(Indexed(db.blocks, db.fts)) && e.ResponseEvent? && PersistResponse(a, db, e).Saved?
    ensures var once := PersistResponse(a, db, e).db;
      var again := PersistResponse(a, once, e);
      if AllDerived(OwnRequestBlocks(a, db, e)) then again.Saved? && Bare(again.db) == Bare(once) else again.Threw?
  {
    hide ReplaceBlocks; hide AmendRequestBlocks; hide Merge; hide ChunkRows; hide OfDirection; hide RespondedRow;
    hide AllDerived; hide IndexAgrees; hide Bump;
    var c := a.callId(e.provider, e.flow);
    var n := a.response(Merge(e, ChunkRows(db.chunks, c))).value;
    var own, response := OfDirection(n.blocks, Request), OfDirection(n.blocks, Response);
    ReplayedBlocks(Indexed(db.blocks, db.fts), c, own, response);
    RespondedTwice(db.calls[c], n, e);
    RowsTwice(db.usage, c, n.usage);
    RowsTwice(db.stream, c, n.stream);
    RowsTwice(db.raw, (c, Response), n.raw);
    hide ReplaceRows;
  }

  lemma {:induction false} RowsTwice<K, V>(table: map<K, seq<V>>, owner: K, rows: seq<V>)
    ensures ReplaceRows(ReplaceRows(table, owner, rows), owner, rows) == ReplaceRows(table, owner, rows)
  {}

  // ----- a response that is ingested again later -----

  /** The rows of an owner; without rows it is absent. */
  predicate RowsAre<K, V(==)>(table: map<K, seq<V>>, owner: K, rows: seq<V>) {
    if rows == [] then owner !in table else owner in table && table[owner] == rows
  }

  /** The tables say already what the response, as it is normalized now, has to say. */
  ghost predicate Recorded(db: Db, c: CallId, n: NormalizedResponse, e: SpoolEvent)
    requires e.ResponseEvent?
  {
    var t, own := Indexed(db.blocks, db.fts), OfDirection(n.blocks, Request);
    && c in db.calls && RowSays(db.calls[c], n, e)
    && (c, Response) in db.http && db.http[(c, Response)] == e.http
    && RowsAre(db.usage, c, n.usage) && RowsAre(db.stream, c, n.stream) && RowsAre(db.raw, (c, Response), n.raw)
    && SideIs(t, c, Response, OfDirection(n.blocks, Response))
    && (own == [] || SideIs(t, c, Request, KeptBlocks(db.blocks, c) + own))
  }

  predicate RowSays(row: CallRow, n: NormalizedResponse, e: SpoolEvent)
    requires e.ResponseEvent?
  {
    && row.status == (if e.statusCode >= 400 then Errored else Complete)
    && row.completedAt == Some(e.ts) && row.statusCode == Some(e.statusCode) && row.responseFlow == Some(e.flow)
    && row.responseHash == n.responseHash
    && (row.modelId == "cursor" || row.modelId == "unknown" ==> row.modelId == n.modelId)
  }

  lemma {:induction false} BlocksUnchangedIff(t: Indexed, call: CallId, own: seq<NewBlock>, response: seq<NewBlock>)
    requires IndexAgrees(t) && AmendRequestBlocks(t, call, own).Some?
    requires ReplaceBlocks(AmendRequestBlocks(t, call, own).value, call, Response, response).Some?
    ensures ReplaceBlocks(AmendRequestBlocks(t, call, own).value, call, Response, response) == Some(t) <==>
      SideIs(t, call, Response, response) && (own == [] || SideIs(t, call, Request, KeptBlocks(t.blocks, call) + own))
  {
    hide ReplaceBlocks; hide KeptBlocks; hide Distinct;
    var t1, bs := AmendRequestBlocks(t, call, own).value, KeptBlocks(t.blocks, call) + own;
    var t2 := ReplaceBlocks(t1, call, Response, response).value;
    if own != [] { ReplaceIs(t, call, Request, bs); }
    ReplaceIs(t1, call, Response, response);
    if own != [] { SideSurvives(t, t1, t2, call, bs, response); }
    hide Replaced; hide SideIs; hide IndexAgrees;
    SideOf(t1, t2, call, Response, response);
    if own == [] || SideIs(t, call, Request, bs) {
      if own != [] { ReplaceSame(t, call, Request, bs); }
      if SideIs(t, call, Response, response) { ReplaceSame(t, call, Response, response); }
    }
  }

  lemma {:induction false} RowsUnchangedIff<K, V>(table: map<K, seq<V>>, owner: K, rows: seq<V>)
    ensures ReplaceRows(table, owner, rows) == table <==> RowsAre(table, owner, rows)
  {
    if rows != [] { assert table[owner := rows][owner] == rows; }
  }

  lemma {:induction false} RowUnchangedIff(calls: map<CallId, CallRow>, c: CallId, n: NormalizedResponse, e: SpoolEvent)
    requires e.ResponseEvent? && c in calls
    ensures calls[c := RespondedRow(calls[c], n, e)] == calls <==> RowSays(calls[c], n, e)
  {
    var row := RespondedRow(calls[c], n, e);
    assert calls[c := row][c] == row;
    if row == calls[c] { assert calls[c := row] == calls; }
  }

  lemma {:induction false} SetUnchangedIff<K, V>(table: map<K, V>, k: K, v: V)
    ensures table[k := v] == table <==> k in table && table[k] == v
  {
    assert table[k := v][k] == v;
  }

  /** Whatever happened before, ingesting a response changes no table exactly when they say already
      what it has to say. */
  lemma {:induction false} NoOpIffRecorded(a: Adapter, db: Db, e: SpoolEvent)
    requires IndexAgrees(Indexed(db.blocks, db.fts)) && e.ResponseEvent? && PersistResponse(a, db, e).Saved?
    ensures SaidNow(a, db, e).Some?
    ensures Bare(PersistResponse(a, db, e).db) == Bare(db)
      <==> Recorded(db, a.callId(e.provider, e.flow), SaidNow(a, db, e).value, e)
  {
    hide ReplaceBlocks; hide AmendRequestBlocks; hide Merge; hide ChunkRows; hide OfDirection; hide RespondedRow;
    hide IndexAgrees; hide Bump; hide SideIs; hide KeptBlocks; hide ReplaceRows; hide RowsAre; hide RowSays;
    var c, t := a.callId(e.provider, e.flow), Indexed(db.blocks, db.fts);
    var n := SaidNow(a, db, e).value;
    BlocksUnchangedIff(t, c, OfDirection(n.blocks, Request), OfDirection(n.blocks, Response));
    RowUnchangedIff(db.calls, c, n, e);
    SetUnchangedIff(db.http, (c, Response), e.http);
    RowsUnchangedIff(db.usage, c, n.usage);
    RowsUnchangedIff(db.stream, c, n.stream);
    RowsUnchangedIff(db.raw, (c, Response), n.raw);
  }

  /** A request that comes after its response rewrites the request side only: status, completion and
      everything the response brought stay, but for request blocks the response had added. */
  lemma {:induction false} LateRequestKeepsAnswer(a: Adapter, db: Db, e: SpoolEvent)
    requires e.RequestEvent? && PersistRequest(a, db, e).Some? && a.callId(e.provider, e.flow) in db.calls
    ensures var c, n, db' := a.callId(e.provider, e.flow), a.request(e).value, PersistRequest(a, db, e).value;
      var row, row' := db.calls[c], db'.calls[c];
      && row'.status == row.status && row'.completedAt == row.completedAt && row'.statusCode == row.statusCode
      && row'.responseFlow == row.responseFlow && row'.responseHash == row.responseHash
      && (forall k :: Elsewhere(k, c, Request) ==> (k in db'.blocks <==> k in db.blocks))
      && (forall k :: Elsewhere(k, c, Request) && k in db.blocks ==> db'.blocks[k] == db.blocks[k])
      && SideIs(Indexed(db'.blocks, db'.fts), c, Request, n.blocks)
      && db'.usage == db.usage && db'.stream == db.stream && db'.chunks == db.chunks
  {
    hide ReplaceBlocks; hide ReplaceRows; hide Bump; hide SideIs; hide Elsewhere;
    ReplaceIs(Indexed(db.blocks, db.fts), a.callId(e.provider, e.flow), Request, a.request(e).value.blocks);
  }
}
