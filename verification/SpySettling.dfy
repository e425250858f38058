/** How far batches of any size get: they come to rest, and when nothing but hopeless files is left then. */
module SpySettling {
  import opened Bytes
  import opened SpyTables
  import opened SpyBatches
  import opened SpyDrain
  import opened SpyQuiescence

  // ----- any spool -----

  /** `n` batches of one limit, while nothing arrives. */
  function Idle(limit: nat, n: nat): seq<Round> {
    if n == 0 then [] else [Round([], limit)] + Idle(limit, n - 1)
  }

  lemma {:induction false} IdleDrain(a: Adapter, s: Spooled, limit: nat, n: nat)
    ensures Drain(a, s, Idle(limit, 0)) == s
    ensures Drain(a, s, Idle(limit, n + 1)) == Drain(a, Batch(a, s, limit), Idle(limit, n))
  {
    hide Batch;
    assert Idle(limit, n + 1) == [Round([], limit)] + Idle(limit, n);
    assert Idle(limit, n + 1)[1..] == Idle(limit, n);
    assert s.spool + [] == s.spool;
  }

  /** Every file of the next batch stays. */
  ghost predicate Settled(a: Adapter, s: Spooled, limit: nat) {
    AllStay(a, s.db, s.spool[..SpyBatches.Taken(s.spool, limit)])
  }

  lemma {:induction false} SettledBatch(a: Adapter, s: Spooled, limit: nat)
    requires Settled(a, s, limit)
    ensures var t := Batch(a, s, limit); t.spool == s.spool && Bare(t.db) == Bare(s.db) && Settled(a, t, limit)
  {
    hide IngestFile; hide Attempt; hide Bare;
    var n := SpyBatches.Taken(s.spool, limit);
    StayingAttempt(a, s.db, s.spool[..n]);
    assert s.spool[..n] + s.spool[n..] == s.spool;
    forall i | 0 <= i < n ensures Stays(IngestFile(a, Batch(a, s, limit).db, s.spool[..n][i].event).0) {
      OutcomeIgnoresCounters(a, s.db, Batch(a, s, limit).db, s.spool[..n][i].event);
    }
  }

  lemma {:induction false} UnsettledShrinks(a: Adapter, s: Spooled, limit: nat)
    requires !Settled(a, s, limit)
    ensures |Batch(a, s, limit).spool| < |s.spool|
  {
    hide AllStay; hide Attempt;
    var n := SpyBatches.Taken(s.spool, limit);
    AllStayIffAllKept(a, s.db, s.spool[..n]);
    KeptFits(a, s.db, s.spool[..n]);
  }

  lemma {:induction false} SettledStays(a: Adapter, s: Spooled, limit: nat, n: nat)
    requires Settled(a, s, limit)
    ensures var t := Drain(a, s, Idle(limit, n)); t.spool == s.spool && Bare(t.db) == Bare(s.db) && Settled(a, t, limit)
    decreases n
  {
    hide Batch; hide Drain; hide Idle; hide Settled; hide Bare;
    IdleDrain(a, s, limit, if n == 0 then 0 else n - 1);
    if n > 0 {
      SettledBatch(a, s, limit);
      SettledStays(a, Batch(a, s, limit), limit, n - 1);
    }
  }

  /** No later batch of this limit changes the spool or a table. */
  ghost predicate AtRest(a: Adapter, s: Spooled, limit: nat) {
    forall n: nat :: var t := Drain(a, s, Idle(limit, n)); t.spool == s.spool && Bare(t.db) == Bare(s.db)
  }

  lemma {:induction false} AtRestIff(a: Adapter, s: Spooled, limit: nat)
    ensures AtRest(a, s, limit) <==> Settled(a, s, limit)
  {
    hide Batch; hide Drain; hide Idle; hide Settled; hide Bare;
    if Settled(a, s, limit) {
      forall n: nat ensures var t := Drain(a, s, Idle(limit, n)); t.spool == s.spool && Bare(t.db) == Bare(s.db) {
        SettledStays(a, s, limit, n);
      }
    } else {
      UnsettledShrinks(a, s, limit);
      IdleDrain(a, s, limit, 0);
      IdleDrain(a, Batch(a, s, limit), limit, 0);
      assert |Drain(a, s, Idle(limit, 1)).spool| < |s.spool|;
    }
  }

  /** Whatever the files, their order and the limit: after as many batches as there are files, no later
      batch changes anything. */
  lemma {:induction false} BatchesComeToRest(a: Adapter, s: Spooled, limit: nat, n: nat)
    requires |s.spool| <= n
    ensures AtRest(a, Drain(a, s, Idle(limit, n)), limit)
    decreases n
  {
    hide Batch; hide Drain; hide Idle; hide Settled; hide AtRest;
    AtRestIff(a, Drain(a, s, Idle(limit, n)), limit);
    if Settled(a, s, limit) {
      SettledStays(a, s, limit, n);
    } else {
      UnsettledShrinks(a, s, limit);
      IdleDrain(a, s, limit, n - 1);
      BatchesComeToRest(a, Batch(a, s, limit), limit, n - 1);
    }
  }

  // ----- the files of flows -----

  /** In each flow the request comes before the other events. */
  ghost predicate RequestsFirst(a: Adapter, plan: Plan, files: seq<File>) {
    forall i, j :: 0 <= i < j < |files| ==> NoLaterRequest(a, plan, files[i], files[j])
  }

  predicate NoLaterRequest(a: Adapter, plan: Plan, x: File, y: File) {
    Planned(a, plan, x) && Planned(a, plan, y) && CallOf(a, x.event.value) == CallOf(a, y.event.value) ==>
      !y.event.value.RequestEvent?
  }

  lemma {:induction false} RequestsFirstWithout(a: Adapter, plan: Plan, pre: seq<File>, f: File, post: seq<File>)
    requires RequestsFirst(a, plan, pre + [f] + post)
    ensures RequestsFirst(a, plan, pre + post)
  {
    hide NoLaterRequest;
    var all, rest := pre + [f] + post, pre + post;
    var at := (i: nat) => if i < |pre| then i else i + 1;
    assert forall i: nat :: i < |rest| ==> rest[i] == all[at(i)];
    forall i, j | 0 <= i < j < |rest| ensures NoLaterRequest(a, plan, rest[i], rest[j]) {
      assert NoLaterRequest(a, plan, all[at(i)], all[at(j)]);
    }
  }

  lemma {:induction false} AttemptKeepsOrder(a: Adapter, plan: Plan, db: Db, files: seq<File>, rest: seq<File>)
    requires RequestsFirst(a, plan, files + rest)
    ensures RequestsFirst(a, plan, Attempt(a, db, files).kept + rest)
    decreases |files|
  {
    hide RequestsFirst; hide IngestFile;
    if files == [] {
      assert [] + rest == rest == files + rest;
    } else {
      var n := |files| - 1;
      var f, kept := files[n], Attempt(a, db, files[..n]).kept;
      assert files + rest == files[..n] + ([f] + rest);
      AttemptKeepsOrder(a, plan, db, files[..n], [f] + rest);
      assert kept + ([f] + rest) == kept + [f] + rest && kept + [] == kept;
      RequestsFirstWithout(a, plan, kept, f, rest);
    }
  }

  /** The hopeless files among some. */
  ghost function HopelessCount(a: Adapter, plan: Plan, files: seq<File>): nat {
    if files == [] then 0
    else
      var n := |files| - 1;
      HopelessCount(a, plan, files[..n]) + (if HopelessFile(a, plan, files[n]) then 1 else 0)
  }

  lemma {:induction false} CountsAdd(a: Adapter, plan: Plan, xs: seq<File>, ys: seq<File>)
    ensures HopelessCount(a, plan, xs + ys) == HopelessCount(a, plan, xs) + HopelessCount(a, plan, ys)
    decreases |ys|
  {
    hide HopelessFile;
    if ys == [] {
      assert xs + ys == xs;
    } else {
      var n := |ys| - 1;
      CountsAdd(a, plan, xs, ys[..n]);
      assert (xs + ys)[..|xs| + n] == xs + ys[..n] && (xs + ys)[|xs| + n] == ys[n];
    }
  }

  lemma {:induction false} CountFits(a: Adapter, plan: Plan, files: seq<File>)
    ensures HopelessCount(a, plan, files) <= |files|
    ensures AllHopeless(a, plan, files) ==> HopelessCount(a, plan, files) == |files|
  {
    hide HopelessFile;
    if files != [] {
      var n := |files| - 1;
      CountFits(a, plan, files[..n]);
      assert forall i :: 0 <= i < n ==> files[..n][i] == files[i];
    }
  }

  /** Fewer than `limit` hopeless files stand before any file that is not. */
  ghost predicate Passable(a: Adapter, plan: Plan, files: seq<File>, limit: nat) {
    forall i :: 0 <= i < |files| && !HopelessFile(a, plan, files[i]) ==> HopelessCount(a, plan, files[..i]) < limit
  }

  /** The files of a batch matter by the number of hopeless ones only. */
  lemma {:induction false} PassableTail(a: Adapter, plan: Plan, xs: seq<File>, ys: seq<File>, limit: nat)
    requires |xs| <= limit
    ensures Passable(a, plan, xs + ys, limit) <==>
      forall j :: 0 <= j < |ys| && !HopelessFile(a, plan, ys[j]) ==>
        HopelessCount(a, plan, xs) + HopelessCount(a, plan, ys[..j]) < limit
  {
    hide HopelessFile; hide HopelessCount;
    forall i | 0 <= i < |xs + ys|
      ensures i < |xs| ==> HopelessCount(a, plan, (xs + ys)[..i]) < limit
      ensures i >= |xs| ==>
        && (xs + ys)[i] == ys[i - |xs|]
        && HopelessCount(a, plan, (xs + ys)[..i]) == HopelessCount(a, plan, xs) + HopelessCount(a, plan, ys[..i - |xs|])
    {
      if i < |xs| {
        CountFits(a, plan, (xs + ys)[..i]);
      } else {
        assert (xs + ys)[..i] == xs + ys[..i - |xs|];
        CountsAdd(a, plan, xs, ys[..i - |xs|]);
      }
    }
    if Passable(a, plan, xs + ys, limit) {
      forall j | 0 <= j < |ys| && !HopelessFile(a, plan, ys[j])
        ensures HopelessCount(a, plan, xs) + HopelessCount(a, plan, ys[..j]) < limit
      {
        assert (xs + ys)[|xs| + j] == ys[j];
      }
    }
  }

  // ----- hopeless files stay -----

  lemma {:induction false} HopelessWaits(a: Adapter, plan: Plan, db: Db, pre: seq<File>, f: File, post: seq<File>)
    requires Inv(a, plan, db, pre + [f] + post) && DistinctFlows(plan) && ChunksWait(a, plan, pre)
    requires HopelessFile(a, plan, f)
    ensures Stays(IngestFile(a, db, f.event).0)
  {
    StaysIffWaits(a, plan, db, pre, f, post);
    KnownCall(a, plan, db, pre + [f] + post, CallOf(a, f.event.value).value);
    hide Inv; hide IngestFile; hide ChunksWait; hide Storable; hide Answerable; hide DistinctFlows; hide Has;
  }

  lemma {:induction false} AttemptKeepsHopeless(a: Adapter, plan: Plan, db: Db, files: seq<File>, rest: seq<File>)
    requires Inv(a, plan, db, files + rest) && DistinctFlows(plan)
    ensures HopelessCount(a, plan, Attempt(a, db, files).kept) == HopelessCount(a, plan, files)
    decreases |files|
  {
    hide Inv; hide IngestFile; hide DistinctFlows; hide ChunksWait; hide HopelessFile;
    if files != [] {
      var n := |files| - 1;
      var f := files[n];
      assert files + rest == files[..n] + ([f] + rest);
      AttemptKeepsHopeless(a, plan, db, files[..n], [f] + rest);
      AttemptInv(a, plan, db, files[..n], [f] + rest);
      var before := Attempt(a, db, files[..n]);
      assert before.kept + [f] + rest == before.kept + ([f] + rest);
      if HopelessFile(a, plan, f) { HopelessWaits(a, plan, before.db, before.kept, f, rest); }
      assert before.kept + [] == before.kept;
      CountsAdd(a, plan, before.kept, [f]);
      OneCount(a, plan, f);
    }
  }

  lemma {:induction false} OneCount(a: Adapter, plan: Plan, f: File)
    ensures HopelessCount(a, plan, [f]) == if HopelessFile(a, plan, f) then 1 else 0
  {
    hide HopelessFile;
    assert [f][..0] == [];
    assert HopelessCount(a, plan, []) == 0;
  }

  /** What a batch keeps of all this. */
  lemma {:induction false} BatchKeeps(a: Adapter, plan: Plan, s: Spooled, limit: nat)
    requires Inv(a, plan, s.db, s.spool) && DistinctFlows(plan)
    ensures var t := Batch(a, s, limit);
      && Inv(a, plan, t.db, t.spool) && (RequestsFirst(a, plan, s.spool) ==> RequestsFirst(a, plan, t.spool))
      && (Passable(a, plan, t.spool, limit) <==> Passable(a, plan, s.spool, limit))
  {
    hide Inv; hide Attempt; hide DistinctFlows; hide RequestsFirst; hide Passable; hide HopelessFile;
    hide HopelessCount;
    var n := SpyBatches.Taken(s.spool, limit);
    var files, rest := s.spool[..n], s.spool[n..];
    assert s.spool == files + rest;
    assert s.spool + [] == s.spool && Batch(a, s, limit).spool + [] == Batch(a, s, limit).spool;
    BatchInv(a, plan, s, limit, []);
    if RequestsFirst(a, plan, s.spool) { AttemptKeepsOrder(a, plan, s.db, files, rest); }
    AttemptKeepsHopeless(a, plan, s.db, files, rest);
    KeptFits(a, s.db, files);
    PassableTail(a, plan, files, rest, limit);
    PassableTail(a, plan, Attempt(a, s.db, files).kept, rest, limit);
  }

  lemma {:induction false} DrainKeeps(a: Adapter, plan: Plan, s: Spooled, limit: nat, n: nat)
    requires Inv(a, plan, s.db, s.spool) && DistinctFlows(plan)
    ensures var t := Drain(a, s, Idle(limit, n));
      && Inv(a, plan, t.db, t.spool) && (RequestsFirst(a, plan, s.spool) ==> RequestsFirst(a, plan, t.spool))
      && (Passable(a, plan, t.spool, limit) <==> Passable(a, plan, s.spool, limit))
    decreases n
  {
    hide Inv; hide Drain; hide Batch; hide Idle; hide DistinctFlows; hide RequestsFirst; hide Passable;
    IdleDrain(a, s, limit, if n == 0 then 0 else n - 1);
    if n > 0 {
      BatchKeeps(a, plan, s, limit);
      DrainKeeps(a, plan, Batch(a, s, limit), limit, n - 1);
    }
  }

  // ----- at rest -----

  lemma {:induction false} NotLater(a: Adapter, plan: Plan, files: seq<File>, i: nat, j: nat)
    requires RequestsFirst(a, plan, files) && i < |files| && j < |files|
    ensures i < j ==> NoLaterRequest(a, plan, files[i], files[j])
  {
    hide NoLaterRequest;
  }

  lemma {:induction false} RequestBefore(a: Adapter, plan: Plan, left: seq<File>, i: nat, c: CallId) returns (j: nat)
    requires RequestsFirst(a, plan, left) && i < |left| && Planned(a, plan, left[i])
    requires CallOf(a, left[i].event.value) == Some(c)
    requires !left[i].event.value.RequestEvent? && c in plan && FlowOk(a, c, plan[c]) && Has(left, plan[c].request)
    ensures j < i && left[j].event == Some(plan[c].request)
  {
    j :| 0 <= j < |left| && left[j].event == Some(plan[c].request);
    NotLater(a, plan, left, i, j);
  }

  /** A file that stays, among files before it that stay, is hopeless. */
  lemma {:induction false} FrontHopeless(a: Adapter, plan: Plan, db: Db, left: seq<File>, k: nat, i: nat)
    requires Inv(a, plan, db, left) && DistinctFlows(plan) && RequestsFirst(a, plan, left)
    requires i < k <= |left| && AllStay(a, db, left[..k])
    ensures HopelessFile(a, plan, left[i])
  {
    hide Inv; hide IngestFile; hide Storable; hide Answerable; hide Has; hide DistinctFlows; hide ChunksWait;
    hide CallOf;
    hide RequestsFirst;
    StayingWaits(a, plan, db, left, k, i);
    var f, c := left[i], CallOf(a, left[i].event.value).value;
    if Has(left, plan[c].request) && !f.event.value.RequestEvent? {
      var j := RequestBefore(a, plan, left, i, c);
      StayingWaits(a, plan, db, left, k, j);
    }
  }

  lemma {:induction false} StayingWaits(a: Adapter, plan: Plan, db: Db, left: seq<File>, k: nat, i: nat)
    requires Inv(a, plan, db, left) && DistinctFlows(plan) && i < k <= |left| && AllStay(a, db, left[..k])
    ensures Planned(a, plan, left[i])
    ensures var e := left[i].event.value;
      var c := CallOf(a, e).value; FlowOk(a, c, plan[c]) && Waits(a, c, plan[c], left, e)
  {
    hide Inv; hide IngestFile; hide Storable; hide Answerable; hide Has; hide DistinctFlows; hide ChunksWait;
    hide CallOf;
    var pre, f, post := left[..i], left[i], left[i + 1..];
    assert left == pre + [f] + post;
    PrefixStays(a, db, left[..k], i);
    assert left[..k][..i] == left[..i] && left[..k][i] == left[i];
    QuietChunksWait(a, plan, db, left, i);
    StaysIffWaits(a, plan, db, pre, f, post);
  }

  /** Where batches rest, everything left stays exactly when no file has `limit` hopeless ones before it
      without being hopeless itself. */
  lemma {:induction false} SettledIsQuiet(a: Adapter, plan: Plan, s: Spooled, limit: nat)
    requires Inv(a, plan, s.db, s.spool) && DistinctFlows(plan) && RequestsFirst(a, plan, s.spool)
    requires Settled(a, s, limit)
    ensures AllStay(a, s.db, s.spool) <==> Passable(a, plan, s.spool, limit)
  {
    hide Inv; hide IngestFile; hide DistinctFlows; hide RequestsFirst; hide HopelessFile; hide HopelessCount;
    var k := SpyBatches.Taken(s.spool, limit);
    forall i | 0 <= i < k ensures HopelessFile(a, plan, s.spool[i]) { FrontHopeless(a, plan, s.db, s.spool, k, i); }
    if AllStay(a, s.db, s.spool) { QuiescentIsHopeless(a, plan, s.db, s.spool); }
    if Passable(a, plan, s.spool, limit) {
      forall i | 0 <= i < |s.spool| ensures HopelessFile(a, plan, s.spool[i]) {
        if i >= k { ManyBefore(a, plan, s.spool, k, i); }
      }
      forall i | 0 <= i < |s.spool| ensures Stays(IngestFile(a, s.db, s.spool[i].event).0) {
        HopelessStay(a, plan, s.db, s.spool, s.spool[i]);
      }
    }
  }

  lemma {:induction false} ManyBefore(a: Adapter, plan: Plan, files: seq<File>, k: nat, i: nat)
    requires k <= i < |files| && forall j :: 0 <= j < k ==> HopelessFile(a, plan, files[j])
    ensures HopelessCount(a, plan, files[..i]) >= k
  {
    hide HopelessFile; hide HopelessCount;
    CountFits(a, plan, files[..k]);
    assert files[..i] == files[..k] + files[k..i];
    CountsAdd(a, plan, files[..k], files[k..i]);
  }

  // ----- the results -----

  /** Batches of any limit, as many as there are files, leave a spool in which everything stays, so that
      nothing but hopeless files is left, exactly when no other file has `limit` hopeless ones before it. */
  lemma {:induction false} LimitedDrainSettlesIff(a: Adapter, plan: Plan, s: Spooled, limit: nat, n: nat)
    requires Inv(a, plan, s.db, s.spool) && DistinctFlows(plan) && RequestsFirst(a, plan, s.spool) && |s.spool| <= n
    ensures var t := Drain(a, s, Idle(limit, n));
      Inv(a, plan, t.db, t.spool) && (AllStay(a, t.db, t.spool) <==> Passable(a, plan, s.spool, limit))
  {
    hide Inv; hide Drain; hide DistinctFlows; hide RequestsFirst; hide Passable; hide Settled; hide AllStay;
    hide AtRest;
    var t := Drain(a, s, Idle(limit, n));
    DrainKeeps(a, plan, s, limit, n);
    BatchesComeToRest(a, s, limit, n);
    AtRestIff(a, t, limit);
    SettledIsQuiet(a, plan, t, limit);
  }

  /** Fewer than `limit` hopeless files never stop it. */
  lemma {:induction false} FewHopelessSettle(a: Adapter, plan: Plan, spool: seq<File>, limit: nat)
    requires Lawful(a, plan, spool) && DistinctFlows(plan) && RequestsFirst(a, plan, spool)
    requires HopelessCount(a, plan, spool) < limit
    ensures var t := Drain(a, Spooled(EMPTY, spool), Idle(limit, |spool|)); AllStay(a, t.db, t.spool)
  {
    hide Lawful; hide Inv; hide Drain; hide DistinctFlows; hide RequestsFirst; hide AllStay; hide HopelessFile;
    hide HopelessCount;
    LawfulStart(a, plan, spool);
    forall i | 0 <= i < |spool| ensures HopelessCount(a, plan, spool[..i]) < limit {
      assert spool == spool[..i] + spool[i..];
      CountsAdd(a, plan, spool[..i], spool[i..]);
    }
    LimitedDrainSettlesIff(a, plan, Spooled(EMPTY, spool), limit, |spool|);
  }

  /** If no flow fails on its own, batches of one file are enough to empty the spool. */
  lemma {:induction false} CleanDrains(a: Adapter, plan: Plan, spool: seq<File>, limit: nat)
    requires Lawful(a, plan, spool) && DistinctFlows(plan) && RequestsFirst(a, plan, spool) && Clean(a, plan)
    requires limit > 0
    ensures Drain(a, Spooled(EMPTY, spool), Idle(limit, |spool|)).spool == []
  {
    hide Lawful; hide Inv; hide Drain; hide DistinctFlows; hide RequestsFirst; hide AllStay; hide HopelessCount;
    NoneHopeless(a, plan, spool);
    FewHopelessSettle(a, plan, spool, limit);
    LawfulStart(a, plan, spool);
    var t := Drain(a, Spooled(EMPTY, spool), Idle(limit, |spool|));
    DrainKeeps(a, plan, Spooled(EMPTY, spool), limit, |spool|);
    QuiescentIsHopeless(a, plan, t.db, t.spool);
    NoneHopeless(a, plan, t.spool);
    CountFits(a, plan, t.spool);
  }

  lemma {:induction false} NoneHopeless(a: Adapter, plan: Plan, files: seq<File>)
    requires Clean(a, plan)
    ensures HopelessCount(a, plan, files) == 0
  {
    hide Storable; hide Answerable; hide CallOf; hide PartOf;
    if files != [] {
      NoneHopeless(a, plan, files[..|files| - 1]);
      assert !HopelessFile(a, plan, files[|files| - 1]);
    }
  }

  lemma {:induction false} NothingArrives(limit: nat, n: nat)
    ensures Future(Idle(limit, n)) == []
  {
    if n > 0 {
      NothingArrives(limit, n - 1);
      assert ([Round([], limit)] + Idle(limit, n - 1))[1..] == Idle(limit, n - 1);
    }
  }

  /** So two orders of the same files, each with a limit that gets through, leave the same tables. */
  lemma {:induction false} LimitedDrainsAgree(a: Adapter, plan: Plan, spool1: seq<File>, limit1: nat,
                                              spool2: seq<File>, limit2: nat)
    requires Lawful(a, plan, spool1) && RequestsFirst(a, plan, spool1) && Passable(a, plan, spool1, limit1)
    requires Lawful(a, plan, spool2) && RequestsFirst(a, plan, spool2) && Passable(a, plan, spool2, limit2)
    requires DistinctFlows(plan)
    ensures var s := Drain(a, Spooled(EMPTY, spool1), Idle(limit1, |spool1|));
      var t := Drain(a, Spooled(EMPTY, spool2), Idle(limit2, |spool2|));
      Bare(s.db) == Bare(t.db) && forall e :: Has(s.spool, e) <==> Has(t.spool, e)
  {
    hide Lawful; hide Inv; hide Drain; hide DistinctFlows; hide RequestsFirst; hide AllStay; hide Passable; hide Bare;
    hide Has;
    hide Idle;
    LawfulStart(a, plan, spool1);
    LawfulStart(a, plan, spool2);
    LimitedDrainSettlesIff(a, plan, Spooled(EMPTY, spool1), limit1, |spool1|);
    LimitedDrainSettlesIff(a, plan, Spooled(EMPTY, spool2), limit2, |spool2|);
    NothingArrives(limit1, |spool1|);
    NothingArrives(limit2, |spool2|);
    assert spool1 + [] == spool1 && spool2 + [] == spool2;
    DrainIsConfluent(a, plan, spool1, Idle(limit1, |spool1|), spool2, Idle(limit2, |spool2|));
  }

  /** An event that waits for its request. */
  predicate Early(a: Adapter, db: Db, f: File) {
    f.event.Some? && (f.event.value.ResponseEvent? || f.event.value.ChunkEvent?)
    && CallOf(a, f.event.value).Some? && CallOf(a, f.event.value).value !in db.calls
  }

  /** The order matters: events that come before their requests stop every batch they fill, though all of
      them could be stored. */
  lemma {:induction false} EarlyFilesBlock(a: Adapter, s: Spooled, limit: nat)
    requires limit <= |s.spool| && forall i :: 0 <= i < limit ==> Early(a, s.db, s.spool[i])
    ensures AtRest(a, s, limit)
  {
    hide AtRest;
    forall i | 0 <= i < limit ensures Stays(IngestFile(a, s.db, s.spool[..limit][i].event).0) {
      EarlyStays(a, s.db, s.spool[i]);
    }
    hide IngestFile;
    AtRestIff(a, s, limit);
  }

  lemma {:induction false} EarlyStays(a: Adapter, db: Db, f: File)
    requires Early(a, db, f)
    ensures Stays(IngestFile(a, db, f.event).0)
  {
    hide Merge; hide ChunkRows; hide AmendRequestBlocks; hide ReplaceBlocks; hide Bump;
  }
}
