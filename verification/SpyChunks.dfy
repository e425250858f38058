/** Captured response streams: however the body was cut into chunks, and in whatever order the
    chunks reach the tables, the response is normalised from the bytes of the stream. */
module SpyChunks {
  import opened Bytes
  import opened SpyTables
  import opened SpyBatches

  // ----- the shim -----

  function NonEmpty(pieces: seq<seq<byte>>): seq<seq<byte>>
    decreases |pieces|
  {
    if pieces == [] then []
    else
      var n := |pieces| - 1;
      NonEmpty(pieces[..n]) + (if pieces[n] == [] then [] else [pieces[n]])
  }

  /** One flow whose response body is being captured; `sent` is every piece seen so far. */
  class StreamCapture {
    const provider: string
    const flow: string
    var chunkIndex: nat
    ghost var seen: seq<seq<byte>>

    ghost predicate Valid()
      reads this
    {
      chunkIndex == |NonEmpty(seen)|
    }

    constructor (provider: string, flow: string)
      ensures Valid() && seen == [] && this.provider == provider && this.flow == flow
    {
      this.provider, this.flow, chunkIndex, seen := provider, flow, 0, [];
    }

    /** `_next_stream_chunk_index`. */
    method NextStreamChunkIndex() returns (index: nat)
      modifies this`chunkIndex
      ensures index == old(chunkIndex) && chunkIndex == index + 1
    {
      index := chunkIndex;
      chunkIndex := index + 1;
    }

    /** `capture_stream_chunk`: an empty piece has no event; another gets the next index. */
    method CaptureStreamChunk(chunk: seq<byte>, http: string) returns (event: Option<SpoolEvent>)
      requires Valid()
      modifies this
      ensures Valid() && seen == old(seen) + [chunk]
      ensures event.None? <==> chunk == []
      ensures event.Some? ==>
        event.value == ChunkEvent(provider, flow, |NonEmpty(old(seen))|, ChunkRow(chunk, None, http))
      ensures event.Some? ==> NonEmpty(seen)[event.value.index] == chunk
    {
      assert (seen + [chunk])[..|seen|] == seen;
      seen := seen + [chunk];
      if chunk == [] {
        return None;
      }
      var index := NextStreamChunkIndex();
      return Some(ChunkEvent(provider, flow, index, ChunkRow(chunk, None, http)));
    }
  }

  // ----- ingestion, in any order -----

  predicate ChunkOf(a: Adapter, f: File, id: CallId) {
    f.event.Some? && f.event.value.ChunkEvent? && a.callId(f.event.value.provider, f.event.value.flow) == id
  }

  /** The chunk indexes of the call among the files. */
  function Indexes(a: Adapter, files: seq<File>, id: CallId): set<nat> {
    set f | f in files && ChunkOf(a, f, id) :: f.event.value.index
  }

  /** A file that carries the chunk of its index of the stream. */
  predicate Carries(f: File, sent: seq<seq<byte>>) {
    f.event.Some? && f.event.value.ChunkEvent? && f.event.value.index < |sent|
    && f.event.value.row.bytes == sent[f.event.value.index] && f.event.value.row.encoding.None?
  }

  lemma {:induction false} CallsStay(calls: map<CallId, CallRow>, id: CallId, n: NormalizedRequest, ts: real,
                                     flow: string,
                                     errored: Option<CallId>, errorFlow: Option<string>)
    ensures UpsertPending(calls, id, n, ts, flow).Some? ==>
      calls.Keys <= UpsertPending(calls, id, n, ts, flow).value.Keys
    ensures ErroredCalls(calls, errored, ts, errorFlow).Keys == calls.Keys
  {}

  /** Only chunk events change chunk rows, and no event removes a call. */
  lemma {:induction false} OthersKeepChunks(a: Adapter, db: Db, e: SpoolEvent)
    requires Persist(a, db, e).Saved?
    ensures var db' := Persist(a, db, e).db;
      db.calls.Keys <= db'.calls.Keys && (!e.ChunkEvent? ==> db'.chunks == db.chunks)
  {
    hide Bump; hide ReplaceRows; hide ReplaceBlocks; hide AmendRequestBlocks; hide Merge; hide ChunkRows;
    hide RespondedRow; hide OfDirection; hide UpsertPending; hide ErroredCalls; hide CallOf;
    match e {
      case RequestEvent(p, f, ts, _, _) =>
        CallsStay(db.calls, a.callId(p, f), a.request(e).value, ts, f, None, None);
      case ErrorEvent(_, f, ts) =>
        CallsStay(db.calls, [], NormalizedRequest("", "", "", None, [], []), ts, "", CallOf(a, e), f);
      case _ =>
    }
  }

  /** The chunk rows of a call after one file: its chunk is there, the others are as before. */
  ghost predicate Updated(a: Adapter, chunks: map<ChunkKey, ChunkRow>, chunks': map<ChunkKey, ChunkRow>, f: File,
                          id: CallId) {
    forall i: nat ::
      if ChunkOf(a, f, id) && i == f.event.value.index
      then (id, i) in chunks' && chunks'[(id, i)] == f.event.value.row
      else ((id, i) in chunks' <==> (id, i) in chunks)
           && ((id, i) in chunks ==> chunks'[(id, i)] == chunks[(id, i)])
  }

  lemma {:induction false} IngestOther(a: Adapter, db: Db, event: Option<SpoolEvent>)
    requires event.Some? ==> !event.value.ChunkEvent?
    ensures var db' := IngestFile(a, db, event).1; db.calls.Keys <= db'.calls.Keys && db'.chunks == db.chunks
  {
    IngestResult(a, db, event);
    hide IngestFile; hide Persist;
    if event.Some? && Persist(a, db, event.value).Saved? { OthersKeepChunks(a, db, event.value); }
  }

  lemma {:induction false} IngestChunk(a: Adapter, db: Db, e: SpoolEvent)
    requires e.ChunkEvent?
    ensures var db', other := IngestFile(a, db, Some(e)).1, a.callId(e.provider, e.flow);
      && db'.calls == db.calls
      && db'.chunks == if other in db.calls then db.chunks[(other, e.index) := e.row] else db.chunks
  {
    hide Bump;
  }

  lemma {:induction false} IngestChunks(a: Adapter, db: Db, f: File, id: CallId)
    requires id in db.calls
    ensures var db' := IngestFile(a, db, f.event).1; id in db'.calls && Updated(a, db.chunks, db'.chunks, f, id)
  {
    hide IngestFile;
    if f.event.Some? && f.event.value.ChunkEvent? {
      IngestChunk(a, db, f.event.value);
    } else {
      IngestOther(a, db, f.event);
    }
  }

  /** The chunk rows of a call hold exactly the chunks sent that have an index in `got`. */
  ghost predicate Holds(chunks: map<ChunkKey, ChunkRow>, id: CallId, sent: seq<seq<byte>>, got: set<nat>) {
    && (forall i: nat :: (id, i) in chunks <==> i in got)
    && forall i :: i in got ==> i < |sent| && chunks[(id, i)].bytes == sent[i] && chunks[(id, i)].encoding.None?
  }

  lemma {:induction false} AttemptHolds(a: Adapter, db: Db, files: seq<File>, id: CallId, sent: seq<seq<byte>>)
    requires id in db.calls && Holds(db.chunks, id, sent, {})
    requires forall f :: f in files && ChunkOf(a, f, id) ==> Carries(f, sent)
    ensures var db' := Attempt(a, db, files).db; id in db'.calls && Holds(db'.chunks, id, sent, Indexes(a, files, id))
    decreases |files|
  {
    if files == [] {
      assert Indexes(a, files, id) == {};
    } else {
      hide IngestFile; hide ChunkOf; hide Carries; hide Updated; hide Holds;
      var n := |files| - 1;
      AttemptHolds(a, db, files[..n], id, sent);
      var before := Attempt(a, db, files[..n]).db;
      IngestChunks(a, before, files[n], id);
      IndexesAppend(a, files, id);
      assert Attempt(a, db, files).db == IngestFile(a, before, files[n].event).1;
      HoldsOneMore(a, before.chunks, IngestFile(a, before, files[n].event).1.chunks, files[n], id, sent,
                   Indexes(a, files[..n], id));
    }
  }

  lemma {:induction false} IndexesAppend(a: Adapter, files: seq<File>, id: CallId)
    requires files != []
    ensures var n := |files| - 1;
      Indexes(a, files, id)
        == Indexes(a, files[..n], id) + (if ChunkOf(a, files[n], id) then {files[n].event.value.index} else {})
  {
    var n := |files| - 1;
    assert files == files[..n] + [files[n]];
  }

  lemma {:induction false} HoldsOneMore(a: Adapter, chunks: map<ChunkKey, ChunkRow>, chunks': map<ChunkKey, ChunkRow>,
                                        f: File,
                                        id: CallId, sent: seq<seq<byte>>, got: set<nat>)
    requires Holds(chunks, id, sent, got) && (ChunkOf(a, f, id) ==> Carries(f, sent))
    requires Updated(a, chunks, chunks', f, id)
    ensures Holds(chunks', id, sent, got + (if ChunkOf(a, f, id) then {f.event.value.index} else {}))
  {}

  // ----- what the response is normalised from -----

  /** The chunks below `n` that arrived. */
  function Arrived(sent: seq<seq<byte>>, got: set<nat>, n: nat): seq<seq<byte>>
    requires n <= |sent|
  {
    if n == 0 then [] else Arrived(sent, got, n - 1) + (if n - 1 in got then [sent[n - 1]] else [])
  }

  lemma {:induction false} RowsArrived(chunks: map<ChunkKey, ChunkRow>, id: CallId, sent: seq<seq<byte>>,
                                       got: set<nat>, n: nat)
    requires Holds(chunks, id, sent, got) && n <= |sent|
    ensures BytesOf(ChunksBelow(chunks, id, n)) == Arrived(sent, got, n)
    ensures forall row :: row in ChunksBelow(chunks, id, n) ==> row.encoding.None?
  {
    if n > 0 {
      RowsArrived(chunks, id, sent, got, n - 1);
      var rows, more := ChunksBelow(chunks, id, n - 1), if n - 1 in got then [chunks[(id, n - 1)]] else [];
      assert BytesOf(rows + more) == BytesOf(rows) + BytesOf(more);
    }
  }

  predicate Solid(sent: seq<seq<byte>>) {
    forall i :: 0 <= i < |sent| ==> sent[i] != []
  }

  /** What arrived is all of the stream only if every chunk did: a chunk that is missing leaves the
      body short. */
  lemma {:induction false} ArrivedBytes(sent: seq<seq<byte>>, got: set<nat>, n: nat)
    requires n <= |sent| && Solid(sent)
    ensures (forall i :: 0 <= i < n ==> i in got) ==> Arrived(sent, got, n) == sent[..n]
    ensures |Concat(Arrived(sent, got, n))| <= |Concat(sent[..n])|
    ensures |Concat(Arrived(sent, got, n))| == |Concat(sent[..n])| ==> forall i :: 0 <= i < n ==> i in got
  {
    if n > 0 {
      ArrivedBytes(sent, got, n - 1);
      assert sent[..n] == sent[..n - 1] + [sent[n - 1]];
      ConcatAppend(sent[..n - 1], [sent[n - 1]]);
      ConcatAppend(Arrived(sent, got, n - 1), if n - 1 in got then [sent[n - 1]] else []);
      ConcatOne(sent[n - 1]);
    }
  }

  lemma {:induction false} ConcatOne<T>(x: seq<T>)
    ensures Concat([x]) == x && Concat<T>([]) == []
  {
    assert [x][1..] == [];
  }

  lemma {:induction false} NonEmptyBytes(pieces: seq<seq<byte>>)
    ensures Concat(NonEmpty(pieces)) == Concat(pieces) && Solid(NonEmpty(pieces))
    decreases |pieces|
  {
    if pieces != [] {
      var n := |pieces| - 1;
      NonEmptyBytes(pieces[..n]);
      assert pieces == pieces[..n] + [pieces[n]];
      ConcatAppend(pieces[..n], [pieces[n]]);
      ConcatAppend(NonEmpty(pieces[..n]), if pieces[n] == [] then [] else [pieces[n]]);
      ConcatOne(pieces[n]);
    }
  }

  lemma {:induction false} RowsOfCall(chunks: map<ChunkKey, ChunkRow>, id: CallId, sent: seq<seq<byte>>, got: set<nat>)
    requires Holds(chunks, id, sent, got)
    ensures BytesOf(ChunkRows(chunks, id)) == Arrived(sent, got, |sent|)
    ensures forall row :: row in ChunkRows(chunks, id) ==> row.encoding.None?
  {
    hide ChunkRows; hide ChunksBelow;
    ChunkRowsBelow(chunks, id, |sent|);
    RowsArrived(chunks, id, sent, got, |sent|);
  }

  /** However the stream was cut into pieces, and whatever order, repetition and other files come
      with them, the captured chunks of the call make up the stream exactly when none is missing. */
  lemma {:induction false} ReassembledIffComplete(a: Adapter, db: Db, files: seq<File>, id: CallId,
                                                  pieces: seq<seq<byte>>)
    requires id in db.calls && Holds(db.chunks, id, NonEmpty(pieces), {})
    requires forall f :: f in files && ChunkOf(a, f, id) ==> Carries(f, NonEmpty(pieces))
    ensures var rows := ChunkRows(Attempt(a, db, files).db.chunks, id);
      (Concat(BytesOf(rows)) == Concat(pieces))
        <==> (forall i :: 0 <= i < |NonEmpty(pieces)| ==> i in Indexes(a, files, id))
  {
    hide Attempt; hide ChunkRows; hide Indexes; hide NonEmpty; hide Concat; hide Holds;
    var sent, got := NonEmpty(pieces), Indexes(a, files, id);
    NonEmptyBytes(pieces);
    AttemptHolds(a, db, files, id, sent);
    RowsOfCall(Attempt(a, db, files).db.chunks, id, sent, got);
    ArrivedBytes(sent, got, |sent|);
    assert sent[..|sent|] == sent;
  }

  lemma {:induction false} NoRows(rows: seq<ChunkRow>)
    ensures rows == [] ==> Concat(BytesOf(rows)) == []
  {}

  lemma {:induction false} MergedBody(e: SpoolEvent, rows: seq<ChunkRow>)
    requires e.ResponseEvent? && Concat(BytesOf(rows)) != [] && forall row :: row in rows ==> row.encoding.None?
    ensures Merge(e, rows) == e.(body := Body(None, Some(Concat(BytesOf(rows))), None))
  {
    hide Concat;
    NoRows(rows);
    assert rows[0] in rows;
  }

  /** So when none is missing the response is normalised from the stream, and the same for any two
      ways of cutting it: chunk boundaries do not matter. */
  lemma {:induction false} ChunkBoundariesDoNotMatter(a: Adapter, db: Db, files: seq<File>, id: CallId,
                                                      pieces: seq<seq<byte>>, e: SpoolEvent)
    requires id in db.calls && Holds(db.chunks, id, NonEmpty(pieces), {})
    requires forall f :: f in files && ChunkOf(a, f, id) ==> Carries(f, NonEmpty(pieces))
    requires forall i :: 0 <= i < |NonEmpty(pieces)| ==> i in Indexes(a, files, id)
    requires e.ResponseEvent? && Concat(pieces) != []
    ensures Merge(e, ChunkRows(Attempt(a, db, files).db.chunks, id))
      == e.(body := Body(None, Some(Concat(pieces)), None))
  {
    hide Attempt; hide ChunkRows; hide NonEmpty; hide Concat; hide Merge; hide Holds; hide Carries; hide ChunkOf;
    ReassembledIffComplete(a, db, files, id, pieces);
    AttemptHolds(a, db, files, id, NonEmpty(pieces));
    hide Indexes;
    RowsOfCall(Attempt(a, db, files).db.chunks, id, NonEmpty(pieces), Indexes(a, files, id));
    MergedBody(e, ChunkRows(Attempt(a, db, files).db.chunks, id));
  }

  /** A captured body has an encoding exactly when every chunk names that one; chunks without bytes
      change nothing. */
  lemma {:induction false} MergedIs(e: SpoolEvent, rows: seq<ChunkRow>)
    requires e.ResponseEvent?
    ensures var bytes, r := Concat(BytesOf(rows)), Merge(e, rows);
      if bytes == [] then r == e
      else
        && r == e.(body := r.body) && r.body.text.None? && r.body.bytes == Some(bytes)
        && forall name :: r.body.encoding == Some(name) <==> forall row :: row in rows ==> row.encoding == Some(name)
  {
    hide Concat;
    NoRows(rows);
    if rows != [] {
      forall name | forall row :: row in rows ==> row.encoding == Some(name)
        ensures CommonEncoding(rows) == Some(name)
      {
        forall i | 0 <= i < |rows| ensures rows[i].encoding == Some(name) { assert rows[i] in rows; }
      }
    }
  }
}
