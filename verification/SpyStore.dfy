/** The store itself: tables changed in place, one statement at a time, inside transactions. */
module SpyStore {
  import opened Bytes
  import opened SpyTables
  import opened SpyBatches
  import opened SpyRetention
  import opened CallOrder

  datatype BatchResult = BatchResult(
    attempted: nat, ingested: nat, deleted: nat, deferred: nat, malformed: nat, errors: nat)

  class Store {
    const adapter: Adapter
    var calls: map<CallId, CallRow>
    var blocks: map<BlockKey, Block>
    var fts: map<BlockKey, seq<string>>
    var http: map<Side, string>
    var usage: map<CallId, seq<string>>
    var stream: map<CallId, seq<string>>
    var raw: map<Side, seq<string>>
    var chunks: map<ChunkKey, ChunkRow>
    var counters: map<Counter, int>
    var spool: seq<File>

    function Tables(): Db
      reads this
    {
      Db(calls, blocks, fts, http, usage, stream, raw, chunks, counters)
    }

    ghost function State(): Spooled
      reads this
    {
      Spooled(Tables(), spool)
    }

    constructor (adapter: Adapter, spool: seq<File>)
      ensures State() == Spooled(EMPTY, spool) && this.adapter == adapter
    {
      this.adapter, this.spool := adapter, spool;
      calls, blocks, fts, http, usage := map[], map[], map[], map[], map[];
      stream, raw, chunks, counters := map[], map[], map[], map[];
    }

    /** Roll a transaction back. */
    method Restore(db: Db)
      modifies this
      ensures Tables() == db && spool == old(spool)
    {
      calls, blocks, fts, http, usage := db.calls, db.blocks, db.fts, db.http, db.usage;
      stream, raw, chunks, counters := db.stream, db.raw, db.chunks, db.counters;
    }

    // ----- block statements, row by row, with their triggers -----

    /** DELETE FROM normalized_block: each deleted row fires the delete trigger. */
    method DeleteBlockRows(keys: set<BlockKey>)
      modifies this`blocks, this`fts
      ensures Indexed(blocks, fts) == DeleteBlocks(Indexed(old(blocks), old(fts)), keys)
    {
      var left := keys;
      while left != {}
        invariant left <= keys
        invariant blocks == old(blocks) - (keys - left) && fts == old(fts) - (keys - left)
        decreases |left|
      {
        var k :| k in left;
        left := left - {k};
        blocks := blocks - {k};
        fts := fts - {k};
      }
    }

    /** INSERT INTO normalized_block for each block, with the insert trigger. */
    method InsertBlockRows(call: CallId, dir: Direction, bs: seq<NewBlock>) returns (ok: bool)
      modifies this`blocks, this`fts
      ensures var r := InsertBlocks(Indexed(old(blocks), old(fts)), call, dir, bs);
        ok == r.Some? && (ok ==> Indexed(blocks, fts) == r.value)
    {
      var i := 0;
      assert bs[0..] == bs;
      while i < |bs|
        invariant 0 <= i <= |bs|
        invariant InsertBlocks(Indexed(blocks, fts), call, dir, bs[i..])
               == InsertBlocks(Indexed(old(blocks), old(fts)), call, dir, bs)
      {
        var k := BlockKey(call, dir, bs[i].ordinal);
        assert bs[i..][1..] == bs[i + 1..];
        if k in blocks {
          return false;
        }
        blocks := blocks[k := bs[i].block];
        if bs[i].block.text.Some? {
          fts := fts[k := (if k in fts then fts[k] else []) + [bs[i].block.text.value]];
        }
        i := i + 1;
      }
      return true;
    }

    method ReplaceBlockRows(call: CallId, dir: Direction, bs: seq<NewBlock>) returns (ok: bool)
      modifies this`blocks, this`fts
      ensures var r := ReplaceBlocks(Indexed(old(blocks), old(fts)), call, dir, bs);
        ok == r.Some? && (ok ==> Indexed(blocks, fts) == r.value)
    {
      DeleteBlockRows(BlocksOf(blocks, call, dir));
      ok := InsertBlockRows(call, dir, bs);
    }

    /** The rows of `blocksForCall(call, "request")` that no response added, in ordinal order. */
    method KeptRequestRows(call: CallId) returns (rows: seq<NewBlock>)
      ensures rows == KeptBlocks(blocks, call)
    {
      rows := [];
      var left := set k | k in blocks && k.call == call && k.dir == Request;
      var next: nat := 0;
      while left != {}
        invariant forall k :: k in left <==> k in blocks && k.call == call && k.dir == Request && k.ordinal >= next
        invariant rows == KeptBelow(blocks, call, next)
        decreases |left|
      {
        var k := LeastOrdinal(left);
        KeptGap(blocks, call, next, k.ordinal);
        if !ResponseDerived(blocks[k]) {
          rows := rows + [NewBlock(Request, k.ordinal, blocks[k])];
        }
        next := k.ordinal + 1;
        left := left - {k};
      }
      KeptAll(blocks, call, next);
    }

    /** `streamChunksForCall`: the captured chunks, by index. */
    method StreamChunksForCall(call: CallId) returns (rows: seq<ChunkRow>)
      ensures rows == ChunkRows(chunks, call)
    {
      rows := [];
      var left := set k | k in chunks && k.0 == call;
      var next: nat := 0;
      while left != {}
        invariant forall k :: k in left <==> k in chunks && k.0 == call && k.1 >= next
        invariant rows == ChunksBelow(chunks, call, next)
        decreases |left|
      {
        var k := LeastIndex(left);
        ChunksGap(chunks, call, next, k.1);
        assert k == (call, k.1);
        rows := rows + [chunks[k]];
        next := k.1 + 1;
        left := left - {k};
      }
      forall i: nat | (call, i) in chunks ensures i < next { assert (call, i) !in left; }
      ChunkRowsBelow(chunks, call, next);
    }

    // ----- the persist methods -----

    method UpsertPendingCall(id: CallId, n: NormalizedRequest, startedAt: real, flow: string) returns (ok: bool)
      modifies this`calls
      ensures var r := UpsertPending(old(calls), id, n, startedAt, flow);
        ok == r.Some? && calls == if ok then r.value else old(calls)
    {
      if exists other :: other in calls && other != id && calls[other].requestFlow == flow {
        return false;
      }
      if id in calls {
        var row := calls[id];
        calls := calls[id := row.(provider := n.provider, operation := n.operation, modelId := n.modelId,
                                  startedAt := startedAt, requestFlow := flow, requestHash := n.requestHash,
                                  status := if row.status == Pending then Pending else row.status)];
      } else {
        calls := calls[id := CallRow(n.provider, n.operation, n.modelId, Pending, startedAt, None, None, flow, None,
                                     n.requestHash, None)];
      }
      return true;
    }

    method PersistRequestUnlocked(e: SpoolEvent) returns (ok: bool)
      requires e.RequestEvent?
      modifies this
      ensures spool == old(spool)
      ensures var r := PersistRequest(adapter, old(Tables()), e);
        ok == r.Some? && Tables() == if ok then r.value else old(Tables())
    {
      hide InsertBlocks; hide UpsertPending; hide ReplaceBlocks;
      var normalized := adapter.request(e);
      if normalized.None? {
        return false;
      }
      var n, id := normalized.value, adapter.callId(e.provider, e.flow);
      var before := Tables();
      ok := UpsertPendingCall(id, n, e.ts, e.flow);
      if ok {
        http := http[(id, Request) := e.http];
        ok := ReplaceBlockRows(id, Request, n.blocks);
      }
      if !ok {
        Restore(before);
        return;
      }
      raw := ReplaceRows(raw, (id, Request), n.raw);
      counters := Bump(counters, SpoolRequestEvents, 1);
    }

    /** The block rows of a response; its own request rows, if any, follow the recorded ones. */
    method ReplaceResponseBlocks(id: CallId, requestBlocks: seq<NewBlock>, responseBlocks: seq<NewBlock>)
      returns (ok: bool)
      modifies this`blocks, this`fts
      ensures var amended := AmendRequestBlocks(Indexed(old(blocks), old(fts)), id, requestBlocks);
        ok == (amended.Some? && ReplaceBlocks(amended.value, id, Response, responseBlocks).Some?)
        && (ok ==> Indexed(blocks, fts) == ReplaceBlocks(amended.value, id, Response, responseBlocks).value)
    {
      hide ReplaceBlocks; hide KeptBlocks;
      if |requestBlocks| > 0 {
        var existing := KeptRequestRows(id);
        ok := ReplaceBlockRows(id, Request, existing + requestBlocks);
        if !ok {
          return;
        }
      }
      ok := ReplaceBlockRows(id, Response, responseBlocks);
    }

    /** False when the call is not recorded yet; `threw` when the transaction was rolled back. */
    method PersistResponseUnlocked(e: SpoolEvent) returns (known: bool, threw: bool)
      requires e.ResponseEvent?
      modifies this
      ensures spool == old(spool)
      ensures match PersistResponse(adapter, old(Tables()), e)
        case NotYet => !known && !threw && Tables() == old(Tables())
        case Threw => known && threw && Tables() == old(Tables())
        case Saved(db) => known && !threw && Tables() == db
    {
      hide ReplaceBlocks; hide AmendRequestBlocks; hide ChunkRows; hide Merge; hide RespondedRow;
      hide OfDirection; hide Bump; hide ReplaceRows;
      var id := adapter.callId(e.provider, e.flow);
      if id !in calls {
        return false, false;
      }
      var rows := StreamChunksForCall(id);
      var captured := Merge(e, rows);
      var normalized := adapter.response(captured);
      if normalized.None? {
        return true, true;
      }
      var n, before := normalized.value, Tables();
      calls := calls[id := RespondedRow(calls[id], n, e)];
      http := http[(id, Response) := e.http];
      var ok := ReplaceResponseBlocks(id, OfDirection(n.blocks, Request), OfDirection(n.blocks, Response));
      if !ok {
        Restore(before);
        return true, true;
      }
      usage := ReplaceRows(usage, id, n.usage);
      stream := ReplaceRows(stream, id, n.stream);
      raw := ReplaceRows(raw, (id, Response), n.raw);
      counters := Bump(counters, SpoolResponseEvents, 1);
      return true, false;
    }

    method PersistStreamChunkEventUnlocked(e: SpoolEvent) returns (known: bool)
      requires e.ChunkEvent?
      modifies this`chunks, this`counters
      ensures known == (adapter.callId(e.provider, e.flow) in calls)
      ensures Tables() == if known then PersistChunk(adapter, old(Tables()), e) else old(Tables())
    {
      var id := adapter.callId(e.provider, e.flow);
      if id !in calls {
        return false;
      }
      chunks := chunks[(id, e.index) := e.row];
      counters := Bump(counters, SpoolStreamChunkEvents, 1);
      return true;
    }

    method PersistDroppedEventUnlocked(e: SpoolEvent)
      requires e.DroppedEvent?
      modifies this`counters
      ensures Tables() == PersistDropped(old(Tables()), e)
    {
      counters := Bump(counters, SpoolDroppedEvents, 1);
      counters := Bump(counters, CapturesDropped, e.count);
    }

    method PersistErrorEventUnlocked(e: SpoolEvent)
      requires e.ErrorEvent?
      modifies this`calls, this`counters
      ensures Tables() == PersistError(adapter, old(Tables()), e)
    {
      counters := Bump(counters, SpoolErrorEvents, 1);
      if e.errorFlow.Some? {
        if e.errorProvider.Some? {
          var id := adapter.callId(e.errorProvider.value, e.errorFlow.value);
          if id in calls {
            calls := calls[id := calls[id].(status := Errored, completedAt := Some(e.ts), responseFlow := e.errorFlow)];
          }
        }
      }
    }

    /** One spool file; the caller deletes it when it was ingested or malformed. */
    method IngestSpoolFileUnlocked(event: Option<SpoolEvent>) returns (o: Outcome)
      modifies this
      ensures spool == old(spool)
      ensures (o, Tables()) == IngestFile(adapter, old(Tables()), event)
    {
      hide PersistRequest; hide PersistResponse; hide PersistChunk; hide PersistDropped; hide PersistError; hide Bump;
      if event.None? {
        counters := Bump(counters, SpoolMalformedEvents, 1);
        return Malformed;
      }
      var e := event.value;
      var threw := false;
      if e.RequestEvent? {
        var ok := PersistRequestUnlocked(e);
        threw := !ok;
      } else if e.ResponseEvent? {
        var known, failed := PersistResponseUnlocked(e);
        if !known {
          return Deferred;
        }
        threw := failed;
      } else if e.DroppedEvent? {
        PersistDroppedEventUnlocked(e);
      } else if e.ErrorEvent? {
        PersistErrorEventUnlocked(e);
      } else {
        var known := PersistStreamChunkEventUnlocked(e);
        if !known {
          return Deferred;
        }
      }
      if threw {
        counters := Bump(counters, SpoolIngestErrors, 1);
        return Failed;
      }
      return Ingested;
    }

    /** One batch: each of the first `limit` files is ingested, and unlinked or kept. */
    method IngestSpoolBatch(limit: nat) returns (r: BatchResult)
      modifies this
      ensures State() == Batch(adapter, old(State()), limit)
      ensures var os := Attempt(adapter, old(Tables()), old(spool)[..Taken(old(spool), limit)]).outcomes;
        && r.attempted == Taken(old(spool), limit)
        && r.ingested == Count(os, Ingested) && r.malformed == Count(os, Malformed)
        && r.deferred == Count(os, Deferred) && r.errors == Count(os, Failed)
        && r.deleted == r.ingested + r.malformed
        && r.ingested + r.malformed + r.deferred + r.errors == r.attempted
      ensures |spool| == |old(spool)| - r.deleted
    {
      hide IngestFile; hide Attempt; hide Count; hide StayingFiles;
      var n := if limit < |spool| then limit else |spool|;
      var files := spool[..n];
      var kept: seq<File> := [];
      r := BatchResult(0, 0, 0, 0, 0, 0);
      var i := 0;
      NothingAttempted(adapter, Tables());
      while i < |files|
        invariant 0 <= i <= |files| && spool == old(spool)
        invariant Progress(Attempt(adapter, old(Tables()), files[..i]), Tables(), kept, r) && r.attempted == i
      {
        AttemptStep(adapter, old(Tables()), files, i);
        ghost var before := Attempt(adapter, old(Tables()), files[..i]);
        r := r.(attempted := r.attempted + 1);
        var o := IngestSpoolFileUnlocked(files[i].event);
        CountStep(before.outcomes, o);
        if o == Ingested {
          r := r.(ingested := r.ingested + 1, deleted := r.deleted + 1);
        } else if o == Malformed {
          r := r.(malformed := r.malformed + 1, deleted := r.deleted + 1);
        } else if o == Deferred {
          r := r.(deferred := r.deferred + 1);
          kept := kept + [files[i]];
        } else {
          r := r.(errors := r.errors + 1);
          kept := kept + [files[i]];
        }
        i := i + 1;
      }
      assert files[..i] == files;
      AttemptAccounts(adapter, old(Tables()), files);
      spool := kept + spool[n..];
    }

    // ----- retention and clearing -----

    /** DELETE FROM provider_call with its cascades; the block rows fire their triggers. */
    method DeleteCallRows(ids: set<CallId>)
      modifies this
      ensures Tables() == DeleteCalls(old(Tables()), ids) && spool == old(spool)
    {
      hide OfOthers;
      calls := calls - ids;
      DeleteBlockRows(set k | k in blocks && k.call in ids);
      http := OfOthers(http, ids);
      usage, stream := usage - ids, stream - ids;
      raw := OfOthers(raw, ids);
      chunks := OfOthers(chunks, ids);
    }

    /** `deleteOldestCall`: false when no call is left. */
    method DeleteOldestCall() returns (deleted: bool)
      modifies this
      ensures spool == old(spool) && deleted == (old(calls) != map[])
      ensures Tables() == if deleted then DeleteCalls(old(Tables()), {OldestOf(old(calls))}) else old(Tables())
    {
      if calls == map[] {
        return false;
      }
      var id := OldestRow(calls);
      OldestUnique(calls, id, OldestOf(calls));
      DeleteCallRows({id});
      return true;
    }

    /** `deleteCallsBefore`. */
    method DeleteCallsBefore(cutoff: real) returns (count: nat)
      modifies this
      ensures Tables() == DeleteCalls(old(Tables()), Expired(old(calls), cutoff)) && spool == old(spool)
      ensures count == |Expired(old(calls), cutoff)|
    {
      hide DeleteCalls; hide Expired;
      count := |Expired(calls, cutoff)|;
      DeleteCallRows(Expired(calls, cutoff));
    }

    /** The loop of `runRetention`. */
    method DeleteForSize(used: Db -> nat, maxBytes: nat) returns (count: nat)
      modifies this
      ensures Tables() == DeleteCalls(old(Tables()), Excess(old(Tables()), used, maxBytes)) && spool == old(spool)
      ensures count == |Excess(old(Tables()), used, maxBytes)|
    {
      hide DeleteCalls; hide Oldest; hide Excess;
      ghost var aged, gone: set<CallId> := Tables(), {};
      count := 0;
      DeleteNone(aged);
      while used(Tables()) > maxBytes
        invariant spool == old(spool) && |gone| == count
        invariant Shrinking(aged, gone, Tables(), used, maxBytes)
        decreases |calls|
      {
        ghost var t := Tables();
        var deleted := DeleteOldestCall();
        if !deleted {
          break;
        }
        OldestGoes(aged, gone, t, used, maxBytes);
        gone := gone + {OldestOf(t.calls)};
        count := count + 1;
      }
      ShrinkingEnds(aged, gone, Tables(), used, maxBytes);
    }

    method RunRetention(cutoff: real, used: Db -> nat, maxBytes: nat) returns (deletedByAge: nat, deletedBySize: nat)
      modifies this
      ensures State() == Spooled(Retain(old(Tables()), cutoff, used, maxBytes), old(spool))
      ensures deletedByAge == |Expired(old(calls), cutoff)|
      ensures deletedByAge + deletedBySize == |Discarded(old(Tables()), cutoff, used, maxBytes)|
    {
      hide DeleteCalls; hide Expired; hide Bump; hide Excess;
      ghost var before, expired := Tables(), Expired(calls, cutoff);
      deletedByAge := DeleteCallsBefore(cutoff);
      ghost var excess := Excess(Tables(), used, maxBytes);
      deletedBySize := DeleteForSize(used, maxBytes);
      DeleteTwice(before, expired, excess);
      DisjointSum(before, expired, excess);
      KeepsCounters(before, expired + excess);
      if deletedByAge > 0 || deletedBySize > 0 {
        counters := Bump(counters, RetentionDeletedCalls, deletedByAge + deletedBySize);
      }
    }

    method ClearData() returns (deletedSpoolFiles: nat)
      modifies this
      ensures State() == Spooled(Cleared(old(Tables())), [])
      ensures deletedSpoolFiles == |old(spool)|
    {
      DeleteCallRows(calls.Keys);
      counters := map[];
      deletedSpoolFiles := 0;
      while spool != []
        invariant deletedSpoolFiles + |spool| == |old(spool)|
        invariant Tables() == Cleared(old(Tables()))
        decreases |spool|
      {
        spool := spool[1..];
        deletedSpoolFiles := deletedSpoolFiles + 1;
      }
    }
  }

  /** The counters of a batch say how many outcomes of each kind there were. */
  predicate Tally(r: BatchResult, os: seq<Outcome>) {
    && r.ingested == Count(os, Ingested) && r.malformed == Count(os, Malformed)
    && r.deferred == Count(os, Deferred) && r.errors == Count(os, Failed)
    && r.deleted == r.ingested + r.malformed
  }

  ghost predicate Progress(done: Attempted, db: Db, kept: seq<File>, r: BatchResult) {
    done.db == db && done.kept == kept && Tally(r, done.outcomes)
  }

  lemma {:induction false} NothingAttempted(a: Adapter, db: Db)
    ensures Progress(Attempt(a, db, []), db, [], BatchResult(0, 0, 0, 0, 0, 0))
  {}

  lemma {:induction false} AttemptStep(a: Adapter, db: Db, files: seq<File>, i: nat)
    requires i < |files|
    ensures var before := Attempt(a, db, files[..i]);
      var (o, db') := IngestFile(a, before.db, files[i].event);
      Attempt(a, db, files[..i + 1])
        == Attempted(db', before.kept + (if Stays(o) then [files[i]] else []), before.outcomes + [o])
  {
    hide IngestFile;
    assert files[..i + 1][..i] == files[..i];
  }

  lemma {:induction false} CountStep(os: seq<Outcome>, o: Outcome)
    ensures forall kind :: Count(os + [o], kind) == Count(os, kind) + (if o == kind then 1 else 0)
  {
    assert (os + [o])[..|os|] == os;
  }

  // ----- retention, one call at a time -----

  /** The calls gone so far are what the size loop deletes first. */
  ghost predicate Shrinking(aged: Db, gone: set<CallId>, t: Db, used: Db -> nat, maxBytes: nat) {
    && t == DeleteCalls(aged, gone) && gone !! t.calls.Keys
    && Excess(aged, used, maxBytes) == gone + Excess(t, used, maxBytes)
  }

  lemma {:induction false} OldestGoes(aged: Db, gone: set<CallId>, t: Db, used: Db -> nat, maxBytes: nat)
    requires Shrinking(aged, gone, t, used, maxBytes) && t.calls != map[] && used(t) > maxBytes
    ensures var id := OldestOf(t.calls);
      var t' := DeleteCalls(t, {id});
      Shrinking(aged, gone + {id}, t', used, maxBytes) && |t'.calls| < |t.calls| && id !in gone
  {
    hide Oldest;
    var id := OldestOf(t.calls);
    OldestKey(t.calls, id);
    DeleteTwice(aged, gone, {id});
    Smaller(t, id);
    assert DeleteCalls(t, {id}).calls == t.calls - {id};
    hide DeleteCalls;
  }

  lemma {:induction false} ShrinkingEnds(aged: Db, gone: set<CallId>, t: Db, used: Db -> nat, maxBytes: nat)
    requires Shrinking(aged, gone, t, used, maxBytes) && (t.calls == map[] || used(t) <= maxBytes)
    ensures t == DeleteCalls(aged, gone) && gone == Excess(aged, used, maxBytes)
  {
    hide DeleteCalls;
  }

  lemma {:induction false} DisjointSum(before: Db, expired: set<CallId>, excess: set<CallId>)
    requires excess <= DeleteCalls(before, expired).calls.Keys
    ensures |expired + excess| == |expired| + |excess|
  {
    assert excess !! expired;
  }

  lemma {:induction false} KeepsCounters(db: Db, ids: set<CallId>)
    ensures DeleteCalls(db, ids).counters == db.counters
  {}

  // ----- row order -----

  method OldestRow(calls: map<CallId, CallRow>) returns (id: CallId)
    requires calls != map[]
    ensures Oldest(calls, id)
  {
    hide Before;
    id :| id in calls;
    var left := calls.Keys - {id};
    while left != {}
      invariant id in calls && left <= calls.Keys
      invariant forall x :: x in calls && x !in left && x != id ==> Before(KeyOf(calls, id), KeyOf(calls, x))
      decreases |left|
    {
      var x :| x in left;
      left := left - {x};
      BeforeTotal(KeyOf(calls, id), KeyOf(calls, x));
      if Before(KeyOf(calls, x), KeyOf(calls, id)) {
        forall y | y in calls && y !in left && y != id && y != x ensures Before(KeyOf(calls, x), KeyOf(calls, y)) {
          BeforeTransitive(KeyOf(calls, x), KeyOf(calls, id), KeyOf(calls, y));
        }
        id := x;
      }
    }
  }

  method LeastOrdinal(keys: set<BlockKey>) returns (k: BlockKey)
    requires keys != {}
    ensures k in keys && forall x :: x in keys ==> k.ordinal <= x.ordinal
  {
    k :| k in keys;
    var left := keys - {k};
    while left != {}
      invariant k in keys && left <= keys
      invariant forall x :: x in keys && x !in left ==> k.ordinal <= x.ordinal
      decreases |left|
    {
      var x :| x in left;
      left := left - {x};
      if x.ordinal < k.ordinal { k := x; }
    }
  }

  method LeastIndex(keys: set<ChunkKey>) returns (k: ChunkKey)
    requires keys != {}
    ensures k in keys && forall x :: x in keys ==> k.1 <= x.1
  {
    k :| k in keys;
    var left := keys - {k};
    while left != {}
      invariant k in keys && left <= keys
      invariant forall x :: x in keys && x !in left ==> k.1 <= x.1
      decreases |left|
    {
      var x :| x in left;
      left := left - {x};
      if x.1 < k.1 { k := x; }
    }
  }
}
