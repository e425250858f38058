/** The shim's side of the spool: size-bounded writes, and markers that account for what was dropped. */
module SpoolWriter {
  import opened Bytes
  import opened SpyTables
  import opened SpyBatches

  const MARKER_INTERVAL: real := 30.0

  /** What one write meets: the clock, whether the directory can be made and the file stored, what
      stat says of each entry scanned (None when it fails), and where the new name sorts. */
  datatype Conditions = Conditions(now: real, makesDir: bool, stores: bool, scan: seq<Option<nat>>, at: nat)

  /** The module globals. */
  datatype Counts = Counts(pending: nat, lastMarkerAt: real)

  function Seen(scan: seq<Option<nat>>): nat {
    if scan == [] then 0
    else Seen(scan[..|scan| - 1]) + (if scan[|scan| - 1].Some? then scan[|scan| - 1].value else 0)
  }

  function SpoolBytes(spool: seq<File>): nat {
    if spool == [] then 0 else SpoolBytes(spool[..|spool| - 1]) + spool[|spool| - 1].size
  }

  /** The directory with one more file in it. */
  function Placed(spool: seq<File>, f: File, at: nat): seq<File> {
    var i := if at < |spool| then at else |spool|;
    spool[..i] + [f] + spool[i..]
  }

  predicate Fits(size: nat, maxBytes: nat, c: Conditions) {
    Seen(c.scan) + size <= maxBytes
  }

  /** The file is refused because the spool is full. */
  predicate Refused(f: File, maxBytes: nat, c: Conditions) {
    c.makesDir && !Fits(f.size, maxBytes, c)
  }

  predicate Written(f: File, maxBytes: nat, c: Conditions) {
    c.makesDir && Fits(f.size, maxBytes, c) && c.stores
  }

  function Marker(count: nat, size: nat): File {
    File(size, Some(DroppedEvent(count)))
  }

  /** After one more drop: a marker with the whole count, unless the last one is too recent. */
  function Dropping(s: Counts, spool: seq<File>, size: nat, maxBytes: nat, c: Conditions): (Counts, seq<File>) {
    var m := Marker(s.pending + 1, size);
    if (s.lastMarkerAt == 0.0 || c.now - s.lastMarkerAt >= MARKER_INTERVAL) && Written(m, maxBytes, c)
    then (Counts(0, c.now), Placed(spool, m, c.at))
    else (s.(pending := s.pending + 1), spool)
  }

  function Capturing(s: Counts, spool: seq<File>, f: File, maxBytes: nat, c: Conditions, markerSize: nat,
                     mc: Conditions)
    : (Counts, seq<File>)
  {
    if Refused(f, maxBytes, c) then Dropping(s, spool, markerSize, maxBytes, mc)
    else (s, if Written(f, maxBytes, c) then Placed(spool, f, c.at) else spool)
  }

  class Shim {
    var droppedSinceMarker: nat
    var lastDroppedMarkerAt: real

    function State(): Counts
      reads this
    {
      Counts(droppedSinceMarker, lastDroppedMarkerAt)
    }

    constructor ()
      ensures State() == Counts(0, 0.0)
    {
      droppedSinceMarker, lastDroppedMarkerAt := 0, 0.0;
    }

    /** `_write_spool_event`; `markerSize` and `mc` are the marker's, should one be due. The new
        directory listing is returned. */
    method WriteSpoolEvent(spool: seq<File>, f: File, maxBytes: nat, c: Conditions,
                           writeDropMarker: bool, markerSize: nat, mc: Conditions)
      returns (written: bool, spool': seq<File>)
      modifies this
      ensures written == Written(f, maxBytes, c)
      ensures (State(), spool') == if writeDropMarker
        then Capturing(old(State()), spool, f, maxBytes, c, markerSize, mc)
        else (old(State()), if written then Placed(spool, f, c.at) else spool)
      decreases if writeDropMarker then 2 else 0
    {
      if !c.makesDir {
        return false, spool;
      }
      var size := SpoolSizeBytes(c.scan);
      if size + f.size > maxBytes {
        spool' := spool;
        if writeDropMarker {
          spool' := WriteDroppedMarker(spool, markerSize, maxBytes, mc);
        }
        return false, spool';
      }
      if !c.stores {
        return false, spool;
      }
      return true, Placed(spool, f, c.at);
    }

    /** `_write_dropped_marker`. */
    method WriteDroppedMarker(spool: seq<File>, markerSize: nat, maxBytes: nat, c: Conditions)
      returns (spool': seq<File>)
      modifies this
      ensures (State(), spool') == Dropping(old(State()), spool, markerSize, maxBytes, c)
      decreases 1
    {
      droppedSinceMarker := droppedSinceMarker + 1;
      if lastDroppedMarkerAt != 0.0 && c.now - lastDroppedMarkerAt < MARKER_INTERVAL {
        return spool;
      }
      var written;
      written, spool' := WriteSpoolEvent(spool, Marker(droppedSinceMarker, markerSize), maxBytes, c, false, 0, c);
      if written {
        droppedSinceMarker := 0;
        lastDroppedMarkerAt := c.now;
      }
    }
  }

  /** `_spool_size_bytes`: the sizes of the entries whose stat succeeds. */
  method SpoolSizeBytes(entries: seq<Option<nat>>) returns (total: nat)
    ensures total == Seen(entries)
  {
    total := 0;
    var i := 0;
    while i < |entries|
      invariant 0 <= i <= |entries| && total == Seen(entries[..i])
    {
      assert entries[..i + 1][..i] == entries[..i];
      if entries[i].Some? {
        total := total + entries[i].value;
      }
      i := i + 1;
    }
    assert entries[..i] == entries;
  }

  // ----- conservation -----

  /** The drops recorded in the marker files of a directory. */
  function Markers(spool: seq<File>): nat {
    if spool == [] then 0
    else
      var e := spool[|spool| - 1].event;
      Markers(spool[..|spool| - 1]) + (if e.Some? && e.value.DroppedEvent? then e.value.count else 0)
  }

  function Dropped(db: Db): int {
    CounterOf(db, CapturesDropped)
  }

  lemma {:induction false} MarkersAppend(a: seq<File>, b: seq<File>)
    ensures Markers(a + b) == Markers(a) + Markers(b)
    decreases |b|
  {
    if b == [] {
      assert a + b == a;
    } else {
      assert (a + b)[..|a + b| - 1] == a + b[..|b| - 1];
      MarkersAppend(a, b[..|b| - 1]);
    }
  }

  lemma {:induction false} BytesAppend(a: seq<File>, b: seq<File>)
    ensures SpoolBytes(a + b) == SpoolBytes(a) + SpoolBytes(b)
    decreases |b|
  {
    if b == [] {
      assert a + b == a;
    } else {
      assert (a + b)[..|a + b| - 1] == a + b[..|b| - 1];
      BytesAppend(a, b[..|b| - 1]);
    }
  }

  lemma {:induction false} One(f: File)
    ensures Markers([f]) == (if f.event.Some? && f.event.value.DroppedEvent? then f.event.value.count else 0)
    ensures SpoolBytes([f]) == f.size
  {
    assert [f][..0] == [];
  }

  lemma {:induction false} PlacedAdds(spool: seq<File>, f: File, at: nat)
    ensures Markers(Placed(spool, f, at)) == Markers(spool) + Markers([f])
    ensures SpoolBytes(Placed(spool, f, at)) == SpoolBytes(spool) + f.size
  {
    hide Markers; hide SpoolBytes;
    var i := if at < |spool| then at else |spool|;
    One(f);
    assert spool == spool[..i] + spool[i..];
    MarkersAppend(spool[..i], spool[i..]);
    MarkersAppend(spool[..i] + [f], spool[i..]);
    MarkersAppend(spool[..i], [f]);
    BytesAppend(spool[..i], spool[i..]);
    BytesAppend(spool[..i] + [f], spool[i..]);
    BytesAppend(spool[..i], [f]);
  }

  /** A capture that is refused is counted once, in the marker file or in the pending count; any
      other capture moves neither. */
  lemma {:induction false} CapturingConserves(s: Counts, spool: seq<File>, f: File, maxBytes: nat, c: Conditions,
                                              markerSize: nat, mc: Conditions)
    requires f.event.Some? ==> !f.event.value.DroppedEvent?
    ensures var (s', spool') := Capturing(s, spool, f, maxBytes, c, markerSize, mc);
      s'.pending + Markers(spool') == s.pending + Markers(spool) + (if Refused(f, maxBytes, c) then 1 else 0)
  {
    hide Markers; hide SpoolBytes; hide Placed; hide Seen;
    PlacedAdds(spool, f, c.at);
    PlacedAdds(spool, Marker(s.pending + 1, markerSize), mc.at);
    One(f);
    One(Marker(s.pending + 1, markerSize));
  }

  /** A write that is let through leaves the spool within its cap, if the scan missed nothing. */
  lemma {:induction false} CapturingBounded(s: Counts, spool: seq<File>, f: File, maxBytes: nat, c: Conditions,
                                            markerSize: nat, mc: Conditions)
    requires SpoolBytes(spool) <= maxBytes && SpoolBytes(spool) <= Seen(c.scan) && SpoolBytes(spool) <= Seen(mc.scan)
    ensures SpoolBytes(Capturing(s, spool, f, maxBytes, c, markerSize, mc).1) <= maxBytes
  {
    hide Markers; hide SpoolBytes; hide Placed; hide Seen;
    PlacedAdds(spool, f, c.at);
    PlacedAdds(spool, Marker(s.pending + 1, markerSize), mc.at);
  }

  /** Ingesting a file moves exactly its recorded drops into the database counter. */
  lemma {:induction false} IngestMoves(a: Adapter, db: Db, f: File)
    ensures var (o, db') := IngestFile(a, db, f.event);
      Dropped(db') + (if Stays(o) then Markers([f]) else 0) == Dropped(db) + Markers([f])
  {
    One(f);
    hide Markers; hide CounterOf;
    IngestCounts(a, db, f.event);
    if f.event.Some? && f.event.value.DroppedEvent? { DroppedIsSaved(a, db, f.event.value); }
    hide Persist; hide Bump; hide EventsCounted;
  }

  lemma {:induction false} AttemptConserves(a: Adapter, db: Db, files: seq<File>)
    ensures var r := Attempt(a, db, files);
      Dropped(r.db) + Markers(r.kept) == Dropped(db) + Markers(files) && SpoolBytes(r.kept) <= SpoolBytes(files)
  {
    hide IngestFile; hide Dropped;
    if files != [] {
      var n := |files| - 1;
      AttemptConserves(a, db, files[..n]);
      var before := Attempt(a, db, files[..n]);
      IngestMoves(a, before.db, files[n]);
      One(files[n]);
      assert files == files[..n] + [files[n]];
      hide Markers; hide SpoolBytes;
      MarkersAppend(files[..n], [files[n]]);
      MarkersAppend(before.kept, [files[n]]);
      BytesAppend(files[..n], [files[n]]);
      BytesAppend(before.kept, [files[n]]);
      assert before.kept + [] == before.kept;
    }
  }

  /** A batch neither loses nor invents a drop, and never grows the spool. */
  lemma {:induction false} BatchConserves(a: Adapter, s: Spooled, limit: nat)
    ensures var s' := Batch(a, s, limit);
      && Dropped(s'.db) + Markers(s'.spool) == Dropped(s.db) + Markers(s.spool)
      && SpoolBytes(s'.spool) <= SpoolBytes(s.spool)
  {
    hide Attempt; hide Markers; hide SpoolBytes; hide Dropped;
    var n := Taken(s.spool, limit);
    AttemptConserves(a, s.db, s.spool[..n]);
    assert s.spool == s.spool[..n] + s.spool[n..];
    MarkersAppend(s.spool[..n], s.spool[n..]);
    MarkersAppend(Attempt(a, s.db, s.spool[..n]).kept, s.spool[n..]);
    BytesAppend(s.spool[..n], s.spool[n..]);
    BytesAppend(Attempt(a, s.db, s.spool[..n]).kept, s.spool[n..]);
  }

  // ----- what a capture leaves -----

  /** The scan adds up what it can stat. */
  lemma {:induction false} SeenAppend(xs: seq<Option<nat>>, ys: seq<Option<nat>>)
    ensures Seen(xs + ys) == Seen(xs) + Seen(ys)
    ensures forall n: nat :: Seen([Some(n)]) == n
    ensures Seen([None]) == 0 && Seen([]) == 0
    decreases |ys|
  {
    forall n: nat ensures Seen([Some(n)]) == n { assert [Some(n)][..0] == []; }
    var unseen: seq<Option<nat>> := [None];
    assert unseen[..0] == [];
    if ys == [] {
      assert xs + ys == xs;
    } else {
      assert (xs + ys)[..|xs + ys| - 1] == xs + ys[..|ys| - 1];
      SeenAppend(xs, ys[..|ys| - 1]);
    }
  }

  /** One more file somewhere among the others, which keep their order. */
  ghost predicate OneMore(spool: seq<File>, spool': seq<File>, f: File) {
    exists i :: 0 <= i <= |spool| && spool' == spool[..i] + [f] + spool[i..]
  }

  /** A capture that the scanned bytes leave room for is written, if the disk lets it, and counts nothing.
      One they leave no room for is refused and counted: in a marker that carries the whole count, when the
      last one is thirty seconds old, there is room for it and the disk lets it; else in the shim. */
  lemma {:induction false} CaptureOutcome(s: Counts, spool: seq<File>, f: File, maxBytes: nat, c: Conditions,
                                          markerSize: nat, mc: Conditions)
    ensures var (s', spool') := Capturing(s, spool, f, maxBytes, c, markerSize, mc);
      if !c.makesDir then s' == s && spool' == spool
      else if Seen(c.scan) + f.size <= maxBytes then
        s' == s && if c.stores then OneMore(spool, spool', f) else spool' == spool
      else if (s.lastMarkerAt == 0.0 || mc.now >= s.lastMarkerAt + 30.0) && mc.makesDir && mc.stores
              && Seen(mc.scan) + markerSize <= maxBytes then
        && s'.pending == 0 && s'.lastMarkerAt == mc.now
        && OneMore(spool, spool', File(markerSize, Some(DroppedEvent(s.pending + 1))))
      else s'.pending == s.pending + 1 && s'.lastMarkerAt == s.lastMarkerAt && spool' == spool
  {
    hide Seen; hide OneMore;
    PlacedIs(spool, f, c.at);
    PlacedIs(spool, Marker(s.pending + 1, markerSize), mc.at);
    hide Placed;
  }

  lemma {:induction false} PlacedIs(spool: seq<File>, f: File, at: nat)
    ensures OneMore(spool, Placed(spool, f, at), f)
  {}
}
