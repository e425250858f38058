/** Whole runs of the capture pipeline: the shim writes, the service ingests, retains and clears. */
module SpyRuns {
  import opened Bytes
  import opened SpyTables
  import opened SpyInvariants
  import opened SpyMigrations
  import opened SpyBatches
  import opened SpyRetention
  import opened SpoolWriter

  /** What stays fixed: the adapters, the spool cap, how tables take up space, and the space allowed. */
  datatype Setup = Setup(adapter: Adapter, spoolMaxBytes: nat, used: Db -> nat, maxBytes: nat)

  datatype World = World(db: Db, spool: seq<File>, counts: Counts)

  datatype Step =
    | Capture(file: File, c: Conditions, markerSize: nat, mc: Conditions)
    | Ingest(limit: nat)
    | Retention(cutoff: real)
    | Clear
    | Restart

  /** What the shim captures is never itself a drop marker. */
  predicate Possible(step: Step) {
    step.Capture? && step.file.event.Some? ==> !step.file.event.value.DroppedEvent?
  }

  /** One atomic step; a restarted shim forgets its counts. */
  ghost function Next(u: Setup, w: World, step: Step): World {
    match step
    case Capture(f, c, size, mc) =>
      var (counts, spool) := Capturing(w.counts, w.spool, f, u.spoolMaxBytes, c, size, mc);
      w.(counts := counts, spool := spool)
    case Ingest(limit) =>
      var s := Batch(u.adapter, Spooled(w.db, w.spool), limit);
      w.(db := s.db, spool := s.spool)
    case Retention(cutoff) => w.(db := Retain(w.db, cutoff, u.used, u.maxBytes))
    case Clear => w.(db := Cleared(w.db), spool := [])
    case Restart => w.(counts := Counts(0, 0.0))
  }

  ghost function After(u: Setup, start: World, run: seq<Step>): World {
    if run == [] then start else Next(u, After(u, start, run[..|run| - 1]), run[|run| - 1])
  }

  // ----- the tables stay sound -----

  lemma {:induction false} NextKeepsSound(u: Setup, w: World, step: Step)
    requires Sound(w.db)
    ensures Sound(Next(u, w, step).db)
  {
    hide Sound; hide Attempt; hide Retain; hide Cleared; hide Capturing;
    match step {
      case Capture(_, _, _, _) =>
      case Ingest(limit) => AttemptKeepsSound(u.adapter, w.db, w.spool[..Taken(w.spool, limit)]);
      case Retention(cutoff) => RetainKeeps(w.db, cutoff, u.used, u.maxBytes);
      case Clear => ClearedKeeps(w.db);
      case Restart =>
    }
  }

  /** After every run the text index holds exactly the texts of the blocks, every row has its call,
      and a call is pending exactly while it has no completion time. */
  lemma {:induction false} RunsKeepSound(u: Setup, start: World, run: seq<Step>)
    requires Sound(start.db)
    ensures Sound(After(u, start, run).db)
  {
    hide Next;
    if run != [] {
      RunsKeepSound(u, start, run[..|run| - 1]);
      hide Sound;
      NextKeepsSound(u, After(u, start, run[..|run| - 1]), run[|run| - 1]);
    }
  }

  lemma {:induction false} EmptyIsSound()
    ensures Sound(EMPTY)
  {}

  /** In particular from an empty database, whatever is in the spool and whatever the shim remembers. */
  lemma {:induction false} RunsFromEmptyAreSound(u: Setup, spool: seq<File>, counts: Counts, run: seq<Step>)
    ensures Sound(After(u, World(EMPTY, spool, counts), run).db)
  {
    hide Sound; hide After;
    EmptyIsSound();
    RunsKeepSound(u, World(EMPTY, spool, counts), run);
  }

  /** The same from a version-1 database with an empty index, once it has been upgraded. */
  lemma {:induction false} UpgradedRunsAgree(u: Setup, old1: Database, start: World, run: seq<Step>)
    requires 2 !in old1.versions && old1.t.fts == map[]
    requires Indexed(start.db.blocks, start.db.fts) == Upgraded(old1, LATEST).t
    requires NoOrphans(start.db) && PendingMeansOpen(start.db)
    ensures Sound(After(u, start, run).db)
  {
    hide Upgraded; hide After; hide IndexAgrees; hide NoOrphans; hide PendingMeansOpen;
    EmptyIndexUpgrades(old1);
    RunsKeepSound(u, start, run);
  }

  // ----- drops are conserved -----

  /** Drops known anywhere: in the database, in a marker file, or still pending in the shim. */
  ghost function Known(w: World): int {
    Dropped(w.db) + Markers(w.spool) + w.counts.pending
  }

  predicate Rejects(u: Setup, step: Step) {
    step.Capture? && Refused(step.file, u.spoolMaxBytes, step.c)
  }

  function Rejections(u: Setup, run: seq<Step>): nat {
    if run == [] then 0
    else Rejections(u, run[..|run| - 1]) + (if Rejects(u, run[|run| - 1]) then 1 else 0)
  }

  lemma {:induction false} RetainConserves(db: Db, cutoff: real, used: Db -> nat, maxBytes: nat)
    ensures Dropped(Retain(db, cutoff, used, maxBytes)) == Dropped(db)
  {
    hide Bump; hide Discarded; hide DeleteCalls; hide CounterOf;
    var gone, db' := Discarded(db, cutoff, used, maxBytes), Retain(db, cutoff, used, maxBytes);
    if |gone| > 0 { BumpCounts(db, db', RetentionDeletedCalls, |gone|); } else { SameCounters(db, db'); }
  }

  lemma {:induction false} SameCounters(db: Db, db': Db)
    requires db'.counters == db.counters
    ensures Dropped(db') == Dropped(db)
  {}

  /** The drops a step makes everyone forget: a clear those in the database and the spool, a restarted
      shim its own. */
  ghost function Forgets(w: World, step: Step): int {
    match step
    case Clear => Dropped(w.db) + Markers(w.spool)
    case Restart => w.counts.pending
    case _ => 0
  }

  ghost function Forgotten(u: Setup, start: World, run: seq<Step>): int {
    if run == [] then 0
    else
      var n := |run| - 1;
      Forgotten(u, start, run[..n]) + Forgets(After(u, start, run[..n]), run[n])
  }

  lemma {:induction false} NextConserves(u: Setup, w: World, step: Step)
    requires Possible(step)
    ensures Known(Next(u, w, step)) + Forgets(w, step) == Known(w) + (if Rejects(u, step) then 1 else 0)
  {
    hide Dropped; hide Markers; hide Batch; hide Retain; hide Capturing; hide Refused; hide Cleared;
    match step {
      case Capture(f, c, size, mc) => CapturingConserves(w.counts, w.spool, f, u.spoolMaxBytes, c, size, mc);
      case Ingest(limit) => BatchConserves(u.adapter, Spooled(w.db, w.spool), limit);
      case Retention(cutoff) => RetainConserves(w.db, cutoff, u.used, u.maxBytes);
      case Clear => NothingKnown(w.db);
      case Restart =>
    }
  }

  lemma {:induction false} NothingKnown(db: Db)
    ensures Dropped(Cleared(db)) == 0 && Markers([]) == 0
  {
    hide DeleteCalls;
  }

  /** Over every run, what is known of drops grows by exactly the captures refused, wherever they are
      counted meanwhile, less what clears and restarts make forgotten. */
  lemma {:induction false} DropsAreConserved(u: Setup, start: World, run: seq<Step>)
    requires forall k :: 0 <= k < |run| ==> Possible(run[k])
    ensures Known(After(u, start, run)) + Forgotten(u, start, run) == Known(start) + Rejections(u, run)
  {
    hide Known; hide Next; hide Rejects; hide Forgets;
    if run != [] {
      var n := |run| - 1;
      DropsAreConserved(u, start, run[..n]);
      NextConserves(u, After(u, start, run[..n]), run[n]);
    }
  }

  lemma {:induction false} NothingForgotten(u: Setup, start: World, run: seq<Step>, i: nat)
    requires i <= |run| && forall k :: i <= k < |run| ==> !run[k].Clear? && !run[k].Restart?
    ensures Forgotten(u, start, run) == Forgotten(u, start, run[..i])
    decreases |run|
  {
    hide After; hide Dropped; hide Markers;
    if i == |run| {
      assert run[..i] == run;
    } else {
      NothingForgotten(u, start, run[..|run| - 1], i);
      assert run[..|run| - 1][..i] == run[..i];
    }
  }

  /** So after a clear, while the shim keeps running, all that is known is what was refused since, plus
      what the shim had pending at the clear. */
  lemma {:induction false} DropsSinceClear(u: Setup, start: World, run: seq<Step>, i: nat)
    requires i < |run| && run[i].Clear? && forall k :: 0 <= k < |run| ==> Possible(run[k])
    requires forall k :: i < k < |run| ==> !run[k].Clear? && !run[k].Restart?
    ensures Known(After(u, start, run))
      == After(u, start, run[..i]).counts.pending + Rejections(u, run) - Rejections(u, run[..i])
  {
    hide After; hide Refused; hide Forgets; hide Dropped; hide Markers; hide Forgotten; hide Next;
    DropsAreConserved(u, start, run);
    DropsAreConserved(u, start, run[..i + 1]);
    NothingForgotten(u, start, run, i + 1);
    AfterStep(u, start, run, i);
    AfterClear(u, After(u, start, run[..i]));
  }

  lemma {:induction false} AfterClear(u: Setup, w: World)
    ensures Known(Next(u, w, Clear)) == w.counts.pending
  {
    hide Dropped; hide Markers; hide Cleared;
    NothingKnown(w.db);
  }

  lemma {:induction false} AfterStep(u: Setup, start: World, run: seq<Step>, i: nat)
    requires i < |run|
    ensures After(u, start, run[..i + 1]) == Next(u, After(u, start, run[..i]), run[i])
    ensures Rejections(u, run[..i + 1]) == Rejections(u, run[..i]) + (if Rejects(u, run[i]) then 1 else 0)
  {
    hide Next; hide Rejects;
    assert run[..i + 1][..i] == run[..i];
  }

  // ----- markers are rate-limited -----

  /** The step writes a marker file. */
  predicate WritesMarker(u: Setup, w: World, step: Step) {
    && Rejects(u, step)
    && (w.counts.lastMarkerAt == 0.0 || step.mc.now - w.counts.lastMarkerAt >= MARKER_INTERVAL)
    && Written(Marker(w.counts.pending + 1, step.markerSize), u.spoolMaxBytes, step.mc)
  }

  lemma {:induction false} NextMarker(u: Setup, w: World, step: Step)
    requires !step.Restart?
    ensures Next(u, w, step).counts.lastMarkerAt
      == if WritesMarker(u, w, step) then step.mc.now else w.counts.lastMarkerAt
    ensures WritesMarker(u, w, step) ==> Next(u, w, step).counts.pending == 0
  {
    hide Batch; hide Retain; hide Cleared; hide Placed; hide Written; hide Refused;
  }

  /** After the marker of step `i`, and until the next one, the shim remembers its time. */
  lemma {:induction false} MarkerRemembered(u: Setup, start: World, run: seq<Step>, i: nat, n: nat)
    requires i < n <= |run| && WritesMarker(u, After(u, start, run[..i]), run[i])
    requires forall k :: i < k < n ==> !run[k].Restart? && !WritesMarker(u, After(u, start, run[..k]), run[k])
    ensures After(u, start, run[..n]).counts.lastMarkerAt == run[i].mc.now
    decreases n
  {
    hide WritesMarker; hide Next;
    assert !run[i].Restart? by { MarkerIsCapture(u, After(u, start, run[..i]), run[i]); }
    AfterStep(u, start, run, n - 1);
    NextMarker(u, After(u, start, run[..n - 1]), run[n - 1]);
    if i < n - 1 { MarkerRemembered(u, start, run, i, n - 1); }
  }

  lemma {:induction false} MarkerIsCapture(u: Setup, w: World, step: Step)
    requires WritesMarker(u, w, step)
    ensures step.Capture?
  {}

  /** Two markers one after the other are at least thirty seconds apart, by the shim's clock. */
  lemma {:induction false} MarkersAreSpaced(u: Setup, start: World, run: seq<Step>, i: nat, j: nat)
    requires i < j < |run|
    requires WritesMarker(u, After(u, start, run[..i]), run[i]) && WritesMarker(u, After(u, start, run[..j]), run[j])
    requires forall k :: i < k < j ==> !run[k].Restart? && !WritesMarker(u, After(u, start, run[..k]), run[k])
    ensures run[i].mc.now == 0.0 || run[j].mc.now - run[i].mc.now >= 30.0
  {
    hide After; hide Written; hide Rejects;
    MarkerRemembered(u, start, run, i, j);
  }

  // ----- the spool stays within its cap -----

  /** Every directory scan saw all the bytes there were; it may also have seen files just deleted. */
  ghost predicate ScansSeeAll(u: Setup, start: World, run: seq<Step>) {
    forall i :: 0 <= i < |run| && run[i].Capture? ==>
      var spooled := SpoolBytes(After(u, start, run[..i]).spool);
      spooled <= Seen(run[i].c.scan) && spooled <= Seen(run[i].mc.scan)
  }

  lemma {:induction false} SpoolStaysWithinCap(u: Setup, start: World, run: seq<Step>)
    requires SpoolBytes(start.spool) <= u.spoolMaxBytes && ScansSeeAll(u, start, run)
    ensures SpoolBytes(After(u, start, run).spool) <= u.spoolMaxBytes
  {
    hide SpoolBytes; hide Seen; hide Next;
    if run != [] {
      var n := |run| - 1;
      assert ScansSeeAll(u, start, run[..n]) by {
        forall i | 0 <= i < n ensures run[..n][..i] == run[..i] && run[..n][i] == run[i] {}
      }
      SpoolStaysWithinCap(u, start, run[..n]);
      NextWithinCap(u, After(u, start, run[..n]), run[n]);
    }
  }

  lemma {:induction false} NextWithinCap(u: Setup, w: World, step: Step)
    requires SpoolBytes(w.spool) <= u.spoolMaxBytes
    requires step.Capture? ==> SpoolBytes(w.spool) <= Seen(step.c.scan) && SpoolBytes(w.spool) <= Seen(step.mc.scan)
    ensures SpoolBytes(Next(u, w, step).spool) <= u.spoolMaxBytes
  {
    hide SpoolBytes; hide Seen; hide Batch; hide Retain; hide Cleared; hide Capturing;
    match step {
      case Capture(f, c, size, mc) => CapturingBounded(w.counts, w.spool, f, u.spoolMaxBytes, c, size, mc);
      case Ingest(limit) => BatchConserves(u.adapter, Spooled(w.db, w.spool), limit);
      case Clear => NoBytes();
      case _ =>
    }
  }

  lemma {:induction false} NoBytes()
    ensures SpoolBytes([]) == 0
  {}
}
