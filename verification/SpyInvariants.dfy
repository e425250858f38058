/** What every statement of the spy store keeps: the text index agrees with the blocks, every row
    belongs to a recorded call, and a call is pending exactly while it has no completion time. */
module SpyInvariants {
  import opened Bytes
  import opened SpyTables

  /** The index holds exactly one entry per block with text, and nothing else. */
  ghost predicate IndexAgrees(t: Indexed) {
    && (forall k :: k in t.fts <==> k in t.blocks && t.blocks[k].text.Some?)
    && (forall k :: k in t.fts ==> t.fts[k] == [t.blocks[k].text.value])
  }

  ghost predicate NoOrphans(db: Db) {
    && (forall k :: k in db.blocks ==> k.call in db.calls)
    && (forall k :: k in db.http ==> k.0 in db.calls)
    && (forall k :: k in db.usage ==> k in db.calls)
    && (forall k :: k in db.stream ==> k in db.calls)
    && (forall k :: k in db.raw ==> k.0 in db.calls)
    && (forall k :: k in db.chunks ==> k.0 in db.calls)
  }

  ghost predicate PendingMeansOpen(db: Db) {
    forall id :: id in db.calls ==> (db.calls[id].status == Pending <==> db.calls[id].completedAt == None)
  }

  ghost predicate Sound(db: Db) {
    IndexAgrees(Indexed(db.blocks, db.fts)) && NoOrphans(db) && PendingMeansOpen(db)
  }

  // ----- the block statements -----

  /** The rows an insertion adds. */
  ghost predicate Added(t: Indexed, t': Indexed, call: CallId, dir: Direction) {
    forall k :: k in t'.blocks ==> k in t.blocks || (k.call == call && k.dir == dir)
  }

  lemma {:induction false} InsertBlocksKeep(t: Indexed, call: CallId, dir: Direction, bs: seq<NewBlock>)
    requires IndexAgrees(t) && InsertBlocks(t, call, dir, bs).Some?
    ensures var t' := InsertBlocks(t, call, dir, bs).value; IndexAgrees(t') && Added(t, t', call, dir)
    decreases |bs|
  {
    if bs != [] {
      InsertBlocksKeep(InsertBlock(t, BlockKey(call, dir, bs[0].ordinal), bs[0].block).value, call, dir, bs[1..]);
    }
  }

  lemma {:induction false} ReplaceBlocksKeep(t: Indexed, call: CallId, dir: Direction, bs: seq<NewBlock>)
    requires IndexAgrees(t) && ReplaceBlocks(t, call, dir, bs).Some?
    ensures var t' := ReplaceBlocks(t, call, dir, bs).value; IndexAgrees(t') && Added(t, t', call, dir)
  {
    hide InsertBlocks;
    InsertBlocksKeep(DeleteBlocks(t, BlocksOf(t.blocks, call, dir)), call, dir, bs);
  }

  // ----- the events -----

  ghost predicate OpenRows(calls: map<CallId, CallRow>) {
    forall id :: id in calls ==> (calls[id].status == Pending <==> calls[id].completedAt == None)
  }

  /** Changing call rows, and no other table, keeps soundness if no call is lost. */
  lemma {:induction false} CallsChange(db: Db, calls: map<CallId, CallRow>, counters: map<Counter, int>)
    requires Sound(db) && OpenRows(calls) && forall id :: id in db.calls ==> id in calls
    ensures Sound(db.(calls := calls, counters := counters))
  {
    hide IndexAgrees;
  }

  lemma {:induction false} UpsertKeeps(calls: map<CallId, CallRow>, id: CallId, n: NormalizedRequest, ts: real,
                                       flow: string)
    requires OpenRows(calls) && UpsertPending(calls, id, n, ts, flow).Some?
    ensures var calls' := UpsertPending(calls, id, n, ts, flow).value;
      OpenRows(calls') && calls'.Keys == calls.Keys + {id}
  {}

  lemma {:induction false} RequestKeeps(a: Adapter, db: Db, e: SpoolEvent)
    requires Sound(db) && e.RequestEvent? && PersistRequest(a, db, e).Some?
    ensures Sound(PersistRequest(a, db, e).value)
  {
    hide ReplaceBlocks; hide IndexAgrees; hide UpsertPending; hide Bump;
    var id := a.callId(e.provider, e.flow);
    var n := a.request(e).value;
    assert OpenRows(db.calls);
    UpsertKeeps(db.calls, id, n, e.ts, e.flow);
    ReplaceBlocksKeep(Indexed(db.blocks, db.fts), id, Request, n.blocks);
  }

  lemma {:induction false} ResponseKeeps(a: Adapter, db: Db, e: SpoolEvent)
    requires Sound(db) && e.ResponseEvent? && PersistResponse(a, db, e).Saved?
    ensures Sound(PersistResponse(a, db, e).db)
  {
    hide ReplaceBlocks; hide IndexAgrees; hide Merge; hide ChunkRows; hide KeptBlocks;
    var id := a.callId(e.provider, e.flow);
    var n := a.response(Merge(e, ChunkRows(db.chunks, id))).value;
    var t, own := Indexed(db.blocks, db.fts), OfDirection(n.blocks, Request);
    if own != [] { ReplaceBlocksKeep(t, id, Request, KeptBlocks(t.blocks, id) + own); }
    ReplaceBlocksKeep(AmendRequestBlocks(t, id, own).value, id, Response, OfDirection(n.blocks, Response));
  }

  lemma {:induction false} ChunkKeeps(a: Adapter, db: Db, e: SpoolEvent)
    requires Sound(db) && e.ChunkEvent? && a.callId(e.provider, e.flow) in db.calls
    ensures Sound(PersistChunk(a, db, e))
  {
    hide IndexAgrees; hide Bump;
  }

  lemma {:induction false} ErroredKeeps(calls: map<CallId, CallRow>, id: Option<CallId>, ts: real, flow: Option<string>)
    requires OpenRows(calls)
    ensures OpenRows(ErroredCalls(calls, id, ts, flow)) && ErroredCalls(calls, id, ts, flow).Keys == calls.Keys
  {}

  lemma {:induction false} ErrorKeeps(a: Adapter, db: Db, e: SpoolEvent)
    requires Sound(db) && e.ErrorEvent?
    ensures Sound(PersistError(a, db, e))
  {
    hide ErroredCalls; hide Bump; hide CallOf; hide IndexAgrees; hide NoOrphans;
    assert OpenRows(db.calls);
    var db' := PersistError(a, db, e);
    ErroredKeeps(db.calls, CallOf(a, e), e.ts, e.errorFlow);
    hide OpenRows; hide Sound;
    CallsChange(db, db'.calls, db'.counters);
  }

  lemma {:induction false} DroppedKeeps(db: Db, e: SpoolEvent)
    requires Sound(db) && e.DroppedEvent?
    ensures Sound(PersistDropped(db, e))
  {
    hide IndexAgrees; hide Bump;
  }

  lemma {:induction false} PersistKeeps(a: Adapter, db: Db, e: SpoolEvent)
    requires Sound(db) && Persist(a, db, e).Saved?
    ensures Sound(Persist(a, db, e).db)
  {
    hide PersistRequest; hide PersistResponse; hide PersistChunk; hide PersistDropped; hide PersistError; hide Sound;
    match e {
      case RequestEvent(_, _, _, _, _) => RequestKeeps(a, db, e);
      case ResponseEvent(_, _, _, _, _, _) => ResponseKeeps(a, db, e);
      case ChunkEvent(_, _, _, _) => ChunkKeeps(a, db, e);
      case DroppedEvent(_) => DroppedKeeps(db, e);
      case ErrorEvent(_, _, _) => ErrorKeeps(a, db, e);
    }
  }

  /** Whatever happens to a spool file, the tables stay sound. */
  lemma {:induction false} IngestKeeps(a: Adapter, db: Db, event: Option<SpoolEvent>)
    requires Sound(db)
    ensures Sound(IngestFile(a, db, event).1)
  {
    hide Persist;
    if event.Some? && Persist(a, db, event.value).Saved? { PersistKeeps(a, db, event.value); }
  }

  // ----- deletion -----

  /** Deleting calls deletes exactly their rows, index entries included. */
  lemma {:induction false} DeleteCallsKeeps(db: Db, ids: set<CallId>)
    requires Sound(db)
    ensures Sound(DeleteCalls(db, ids))
  {}

  lemma {:induction false} ClearedKeeps(db: Db)
    requires Sound(db)
    ensures Sound(Cleared(db)) && Cleared(db).(counters := map[]) == EMPTY
  {
    DeleteCallsKeeps(db, db.calls.Keys);
    hide IndexAgrees;
    var d := DeleteCalls(db, db.calls.Keys);
    assert d.calls == map[] && d.blocks == map[] && d.http == map[] && d.usage == map[] && d.stream == map[]
      && d.raw == map[] && d.chunks == map[];
    assert d.fts == map[] by { IndexOfNothing(Indexed(d.blocks, d.fts)); }
  }

  lemma {:induction false} IndexOfNothing(t: Indexed)
    requires IndexAgrees(t) && t.blocks == map[]
    ensures t.fts == map[]
  {
    assert forall k :: k !in t.fts;
  }
}
