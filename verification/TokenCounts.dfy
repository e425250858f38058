/** `startBackgroundTokenCounts`: worker pools that share one set of keys in flight. */
module TokenCounts {
  import opened Bytes
  import opened WorkerPool

  const CONCURRENCY: nat := 8

  /** One pool over the keys it counts; `caught` once its rejection handler has run. */
  datatype Job = Job(pool: Pool<string, ()>, caught: bool)

  datatype System = System(keys: set<string>, jobs: seq<Job>)

  datatype Action = Begin(subjects: seq<string>) | Work(job: nat, step: Step) | Catch(job: nat)

  const Done: string -> () := (_: string) => ()

  /** The subjects whose key was not yet taken, in order; each taken key counts at once. */
  function Pending(keys: set<string>, subjects: seq<string>): (r: seq<string>)
    ensures forall i :: 0 <= i < |r| ==> r[i] !in keys && r[i] in subjects
    ensures forall i, j :: 0 <= i < j < |r| ==> r[i] != r[j]
    ensures forall k :: k in subjects ==> k in keys || k in r
    decreases |subjects|
  {
    if subjects == [] then []
    else if subjects[0] in keys then Pending(keys, subjects[1..])
    else [subjects[0]] + Pending(keys + {subjects[0]}, subjects[1..])
  }

  predicate Possible(s: System, a: Action) {
    match a
    case Begin(_) => true
    case Work(j, step) => j < |s.jobs| && Enabled(s.jobs[j].pool, step)
    case Catch(j) =>
      j < |s.jobs| && !s.jobs[j].caught
      && exists w :: 0 <= w < |s.jobs[j].pool.workers| && s.jobs[j].pool.workers[w].Rejected?
  }

  function KeySet(ks: seq<string>): set<string> {
    set k | k in ks
  }

  lemma {:induction false} KeySetGrows(ks: seq<string>, k: string)
    ensures KeySet(ks + [k]) == KeySet(ks) + {k}
  {}

  function Do(s: System, a: Action): System
    requires Possible(s, a)
  {
    match a
    case Begin(subjects) =>
      var pending := Pending(s.keys, subjects);
      if pending == [] then s
      else System(s.keys + KeySet(pending), s.jobs + [Job(Launch(pending, CONCURRENCY), false)])
    case Work(j, step) =>
      var p := s.jobs[j].pool;
      var jobs := s.jobs[j := s.jobs[j].(pool := Next(p, Done, step))];
      if step.Start? || p.workers[step.w].index >= |p.items| then s.(jobs := jobs)
      else System(s.keys - {p.items[p.workers[step.w].index]}, jobs)
    case Catch(j) =>
      System(s.keys - KeySet(s.jobs[j].pool.items), s.jobs[j := s.jobs[j].(caught := true)])
  }

  /** The key bookkeeping of the service, as it mutates its set. */
  class Counter {
    var keys: set<string>

    /** The filter over the missing subjects. */
    method TakeKeys(subjects: seq<string>) returns (pending: seq<string>)
      modifies this
      ensures pending == Pending(old(keys), subjects)
      ensures keys == old(keys) + KeySet(pending)
    {
      hide Pending; hide KeySet;
      pending := [];
      var i := 0;
      assert subjects[0..] == subjects;
      NoKeys();
      while i < |subjects|
        invariant 0 <= i <= |subjects|
        invariant keys == old(keys) + KeySet(pending)
        invariant pending + Pending(keys, subjects[i..]) == Pending(old(keys), subjects)
      {
        var key := subjects[i];
        PendingStep(keys, subjects, i, pending);
        if key !in keys {
          KeySetGrows(pending, key);
          keys := keys + {key};
          pending := pending + [key];
        }
        i := i + 1;
      }
      PendingEnd(keys, subjects, pending);
    }
  }

  lemma {:induction false} NoKeys()
    ensures KeySet([]) == {}
  {}

  lemma {:induction false} PendingStep(keys: set<string>, subjects: seq<string>, i: nat, before: seq<string>)
    requires i < |subjects|
    ensures var key := subjects[i];
      before + Pending(keys, subjects[i..]) ==
        if key in keys then before + Pending(keys, subjects[i + 1..])
        else (before + [key]) + Pending(keys + {key}, subjects[i + 1..])
  {
    var key := subjects[i];
    assert subjects[i..][1..] == subjects[i + 1..];
    var rest := Pending(keys + {key}, subjects[i + 1..]);
    assert before + ([key] + rest) == (before + [key]) + rest;
  }

  lemma {:induction false} PendingEnd(keys: set<string>, subjects: seq<string>, before: seq<string>)
    ensures before + Pending(keys, subjects[|subjects|..]) == before
  {}

  // ----- no key is counted twice at a time -----

  predicate BusyOn(ws: seq<Worker>, i: nat) {
    exists w :: 0 <= w < |ws| && ws[w] == Busy(i)
  }

  /** Some worker still takes items. */
  predicate Alive(ws: seq<Worker>) {
    exists w :: 0 <= w < |ws| && (ws[w].Fresh? || ws[w].Busy?)
  }

  /** Item `i` is being counted, or still will be. */
  predicate OpenItem(p: Pool<string, ()>, i: nat) {
    i < |p.items| && (BusyOn(p.workers, i) || (i >= p.next && Alive(p.workers)))
  }

  /** Item `i` of job `j` is open and has key `k`. */
  predicate OpenWith(s: System, j: nat, i: nat, k: string) {
    j < |s.jobs| && OpenItem(s.jobs[j].pool, i) && s.jobs[j].pool.items[i] == k
  }

  ghost predicate PoolsSound(s: System) {
    forall j :: 0 <= j < |s.jobs| ==> Inv(s.jobs[j].pool, Done)
  }

  /** Every open item keeps its key from being taken again. */
  ghost predicate KeysCoverOpen(s: System) {
    forall k, j: nat, i: nat :: OpenWith(s, j, i, k) ==> k in s.keys
  }

  /** No two open items share a key. */
  ghost predicate OneOpenPerKey(s: System) {
    forall k, j: nat, i: nat, j': nat, i': nat :: OpenWith(s, j, i, k) && OpenWith(s, j', i', k) ==> j == j' && i == i'
  }

  ghost predicate Exclusive(s: System) {
    PoolsSound(s) && KeysCoverOpen(s) && OneOpenPerKey(s)
  }

  /** The handler of job `j` frees no key that is still in use, in this job or another. */
  ghost predicate SafeCatch(s: System, j: nat) {
    j < |s.jobs| ==> forall k, j': nat, i: nat :: OpenWith(s, j', i, k) ==> k !in s.jobs[j].pool.items
  }

  predicate NeverRejects(run: seq<Action>) {
    forall i :: 0 <= i < |run| ==> !(run[i].Work? && run[i].step.Reject?)
  }

  ghost predicate IsRun(run: seq<Action>)
    decreases |run|, 0
  {
    run == [] || (IsRun(run[..|run| - 1]) && Possible(After(run[..|run| - 1]), run[|run| - 1]))
  }

  ghost function After(run: seq<Action>): System
    requires IsRun(run)
    decreases |run|, 1
  {
    if run == [] then System({}, []) else Do(After(run[..|run| - 1]), run[|run| - 1])
  }

  lemma {:induction false} PrefixIsRun(run: seq<Action>, i: nat)
    requires i <= |run| && IsRun(run)
    ensures IsRun(run[..i])
  {
    if i < |run| {
      PrefixIsRun(run[..|run| - 1], i);
      assert run[..|run| - 1][..i] == run[..i];
    } else {
      assert run[..i] == run;
    }
  }

  /** Every handler that ran was safe when it ran. */
  ghost predicate CatchesSafely(run: seq<Action>)
    requires IsRun(run)
  {
    forall i :: 0 <= i < |run| && run[i].Catch? ==> (PrefixIsRun(run, i); SafeCatch(After(run[..i]), run[i].job))
  }

  // ----- what a worker step leaves open -----

  lemma {:induction false} LaunchInv(items: seq<string>)
    ensures Inv(Launch<string, ()>(items, CONCURRENCY), Done)
  {}

  /** The item a step ends, if it ends one. */
  function Ended(p: Pool<string, ()>, step: Step): Option<nat> {
    if step.Start? || step.w >= |p.workers| || !p.workers[step.w].Busy? then None else Some(p.workers[step.w].index)
  }

  /** A worker of `ws` with another state. */
  lemma {:induction false} UpdatedWorker(ws: seq<Worker>, w: nat, v: Worker, i: nat)
    requires w < |ws|
    ensures BusyOn(ws[w := v], i) ==> BusyOn(ws, i) || v == Busy(i)
    ensures Alive(ws[w := v]) ==> Alive(ws) || v.Fresh? || v.Busy?
  {
    var us := ws[w := v];
    if BusyOn(us, i) {
      var x :| 0 <= x < |us| && us[x] == Busy(i);
      if x != w { assert ws[x] == Busy(i); }
    }
    if Alive(us) {
      var x :| 0 <= x < |us| && (us[x].Fresh? || us[x].Busy?);
      if x != w { assert ws[x].Fresh? || ws[x].Busy?; }
    }
  }

  /** A step opens no item, and the item it ends is open no more. */
  lemma {:induction false} StepOpens(p: Pool<string, ()>, step: Step, i: nat)
    requires Inv(p, Done) && Enabled(p, step) && OpenItem(Next(p, Done, step), i)
    ensures OpenItem(p, i) && Ended(p, step) != Some(i)
  {
    var w, q := step.w, Next(p, Done, step);
    assert p.workers[w].Fresh? || p.workers[w].Busy?;
    assert Alive(p.workers);
    UpdatedWorker(p.workers, w, q.workers[w], i);
    assert q.workers == p.workers[w := q.workers[w]];
    if BusyOn(q.workers, i) {
      var x :| 0 <= x < |q.workers| && q.workers[x] == Busy(i);
      assert x != w ==> p.workers[x] == Busy(i);
    }
  }

  lemma {:induction false} EndedIsOpen(p: Pool<string, ()>, step: Step)
    requires Inv(p, Done) && Enabled(p, step) && Ended(p, step).Some?
    ensures Ended(p, step).value < |p.items| && OpenItem(p, Ended(p, step).value)
  {
    assert p.workers[step.w] == Busy(p.workers[step.w].index);
  }

  // ----- the steps of the system -----

  lemma {:induction false} BeginKeeps(s: System, subjects: seq<string>)
    requires Exclusive(s)
    ensures Exclusive(Do(s, Begin(subjects)))
  {
    var pending := Pending(s.keys, subjects);
    if pending != [] {
      var t, n := Do(s, Begin(subjects)), |s.jobs|;
      assert t.jobs[..n] == s.jobs && t.jobs[n].pool.items == pending;
      LaunchInv(pending);
      hide Pending; hide Inv; hide Do; hide BusyOn; hide Alive;
      forall k, j: nat, i: nat | OpenWith(t, j, i, k)
        ensures OpenWith(s, j, i, k) || (j == n && i < |pending| && pending[i] == k) {}
    }
  }

  lemma {:induction false} WorkKeeps(s: System, j: nat, step: Step)
    requires Exclusive(s) && Possible(s, Work(j, step))
    ensures Exclusive(Do(s, Work(j, step)))
  {
    var p, t := s.jobs[j].pool, Do(s, Work(j, step));
    var q := t.jobs[j].pool;
    assert Inv(p, Done);
    StepKeepsInv(p, Done, step);
    assert q == Next(p, Done, step) && q.items == p.items;
    var ended := Ended(p, step);
    if ended.Some? { EndedIsOpen(p, step); }
    assert t.keys == if ended.Some? then s.keys - {p.items[ended.value]} else s.keys;
    forall k, j': nat, i: nat | OpenWith(t, j', i, k)
      ensures OpenWith(s, j', i, k) && !(j' == j && ended == Some(i))
    {
      if j' == j { StepOpens(p, step, i); }
    }
    assert ended.Some? ==> OpenWith(s, j, ended.value, p.items[ended.value]);
    hide Inv; hide Do; hide Possible; hide OpenWith; hide Next;
  }

  lemma {:induction false} CatchKeeps(s: System, j: nat)
    requires Exclusive(s) && Possible(s, Catch(j)) && SafeCatch(s, j)
    ensures Exclusive(Do(s, Catch(j)))
  {
    hide Inv; hide BusyOn; hide Alive;
    var t := Do(s, Catch(j));
    forall k, j': nat, i: nat | OpenWith(t, j', i, k) ensures OpenWith(s, j', i, k) {}
    forall k, j': nat, i: nat | OpenWith(t, j', i, k) ensures k in t.keys { assert OpenWith(s, j', i, k); }
  }

  lemma {:induction false} RunIsExclusive(run: seq<Action>)
    requires IsRun(run) && CatchesSafely(run)
    ensures Exclusive(After(run))
  {
    if run != [] {
      var m := |run| - 1;
      var s := After(run[..m]);
      assert CatchesSafely(run[..m]) by {
        forall i | 0 <= i < m && run[..m][i].Catch?
          ensures (PrefixIsRun(run[..m], i); SafeCatch(After(run[..m][..i]), run[..m][i].job))
        {
          assert run[..m][..i] == run[..i] && run[i].Catch?;
          PrefixIsRun(run, i);
        }
      }
      RunIsExclusive(run[..m]);
      match run[m] {
        case Begin(subjects) => BeginKeeps(s, subjects);
        case Work(j, step) => WorkKeeps(s, j, step);
        case Catch(j) => CatchKeeps(s, j);
      }
    }
  }

  /** The key a worker is counting, if it is counting one. */
  function InFlight(s: System, j: nat, w: nat): Option<string> {
    if j < |s.jobs| && w < |s.jobs[j].pool.workers| && s.jobs[j].pool.workers[w].Busy?
       && s.jobs[j].pool.workers[w].index < |s.jobs[j].pool.items|
    then Some(s.jobs[j].pool.items[s.jobs[j].pool.workers[w].index]) else None
  }

  /** Two workers are counting the same key. */
  ghost predicate CountedTwice(s: System) {
    exists j: nat, w: nat, j': nat, w': nat ::
      (j != j' || w != w') && InFlight(s, j, w).Some? && InFlight(s, j, w) == InFlight(s, j', w')
  }

  lemma {:induction false} ExclusiveCountsOnce(s: System)
    requires Exclusive(s)
    ensures !CountedTwice(s)
  {
    forall j: nat, w: nat, j': nat, w': nat | InFlight(s, j, w).Some? && InFlight(s, j, w) == InFlight(s, j', w')
      ensures j == j' && w == w'
    {
      var p, q := s.jobs[j].pool, s.jobs[j'].pool;
      var k := InFlight(s, j, w).value;
      assert p.workers[w] == Busy(p.workers[w].index) && q.workers[w'] == Busy(q.workers[w'].index);
      assert OpenWith(s, j, p.workers[w].index, k) && OpenWith(s, j', q.workers[w'].index, k);
      assert p.log[p.workers[w].index].worker == w && q.log[q.workers[w'].index].worker == w';
    }
  }

  /** Whatever rejects: as long as every handler runs only when it frees no key in use, no key is
      ever counted by two workers, over all views and interleavings. */
  lemma {:induction false} SafeCatchesCountOnce(run: seq<Action>)
    requires IsRun(run) && CatchesSafely(run)
    ensures !CountedTwice(After(run))
  {
    RunIsExclusive(run);
    ExclusiveCountsOnce(After(run));
  }

  lemma {:induction false} NobodyRejected(run: seq<Action>)
    requires IsRun(run) && NeverRejects(run)
    ensures forall j, w :: 0 <= j < |After(run).jobs| && 0 <= w < |After(run).jobs[j].pool.workers| ==>
      !After(run).jobs[j].pool.workers[w].Rejected?
    ensures NoCatch(run)
  {
    if run != [] {
      var m := |run| - 1;
      NobodyRejected(run[..m]);
      hide Pending;
      assert !(run[m].Work? && run[m].step.Reject?);
      assert forall i :: 0 <= i < m ==> run[..m][i] == run[i];
    }
  }

  predicate NoCatch(run: seq<Action>) {
    forall i :: 0 <= i < |run| ==> !run[i].Catch?
  }

  /** With mappers that do not reject no handler runs, so no two workers ever count the same key. */
  lemma {:induction false} NoKeyTwiceInFlight(run: seq<Action>, j: nat, w: nat, j': nat, w': nat)
    requires IsRun(run) && NeverRejects(run)
    requires var s := After(run); InFlight(s, j, w).Some? && InFlight(s, j, w) == InFlight(s, j', w')
    ensures j == j' && w == w'
  {
    NobodyRejected(run);
    SafeCatchesCountOnce(run);
  }

  /** At every moment each view has one worker for each key it took, but eight at most, and its keys are
      distinct. */
  lemma {:induction false} EightWorkersAtMost(run: seq<Action>)
    requires IsRun(run)
    ensures forall j :: 0 <= j < |After(run).jobs| ==>
      var p := After(run).jobs[j].pool;
      && |p.items| > 0 && |p.workers| == (if |p.items| < 8 then |p.items| else 8)
      && forall i, i' :: 0 <= i < i' < |p.items| ==> p.items[i] != p.items[i']
  {
    if run != [] {
      var m := |run| - 1;
      EightWorkersAtMost(run[..m]);
      hide Pending;
    }
  }

  lemma {:induction false} RunStep(run: seq<Action>, a: Action, s: System)
    requires IsRun(run) && After(run) == s && Possible(s, a)
    ensures IsRun(run + [a]) && After(run + [a]) == Do(s, a)
  {
    assert (run + [a])[..|run|] == run;
  }

  // ----- a handler that frees a key in use -----

  lemma {:induction false} RunIsSound(run: seq<Action>)
    requires IsRun(run)
    ensures PoolsSound(After(run))
  {
    if run != [] {
      var m := |run| - 1;
      RunIsSound(run[..m]);
      var s := After(run[..m]);
      match run[m] {
        case Begin(subjects) => LaunchInv(Pending(s.keys, subjects));
        case Work(j, step) => StepKeepsInv(s.jobs[j].pool, Done, step);
        case Catch(j) =>
      }
      hide Inv;
    }
  }

  /** The handler, a view of the freed key, and its first worker. */
  function Retake(s: System, j: nat, k: string): seq<Action> {
    [Catch(j), Begin([k]), Work(|s.jobs|, Start(0))]
  }

  /** After a handler freed key `k`, the next view of it starts to count it; the other jobs stay. */
  lemma {:induction false} FreedKeyIsRetaken(run: seq<Action>, j: nat, k: string)
    requires IsRun(run) && Possible(After(run), Catch(j)) && k in After(run).jobs[j].pool.items
    ensures var s := After(run);
      var run' := run + Retake(s, j, k);
      && IsRun(run') && InFlight(After(run'), |s.jobs|, 0) == Some(k) && |After(run').jobs| == |s.jobs| + 1
      && forall j' :: 0 <= j' < |s.jobs| ==> After(run').jobs[j'].pool == s.jobs[j'].pool
  {
    var s := After(run);
    var n := |s.jobs|;
    var s1 := Do(s, Catch(j));
    RunStep(run, Catch(j), s);
    assert Pending(s1.keys, [k]) == [k] by { assert [k][1..] == []; assert k !in s1.keys; }
    RunStep(run + [Catch(j)], Begin([k]), s1);
    var s2 := Do(s1, Begin([k]));
    assert s2.jobs[n].pool.workers == [Fresh] && s2.jobs[n].pool.items == [k];
    RunStep(run + [Catch(j)] + [Begin([k])], Work(n, Start(0)), s2);
    assert run + [Catch(j)] + [Begin([k])] + [Work(n, Start(0))] == run + Retake(s, j, k);
    hide IsRun; hide After; hide Pending;
  }

  /** Worker `w` of job `j` takes the next item; what job `n` counts, it goes on counting. */
  lemma {:induction false} WorkerTakes(run: seq<Action>, j: nat, w: nat, n: nat) returns (a: Action)
    requires IsRun(run) && j < |After(run).jobs| && j != n
    requires var p := After(run).jobs[j].pool;
      p.next < |p.items| && w < |p.workers| && (p.workers[w].Fresh? || p.workers[w].Busy?)
    ensures !a.Catch? && IsRun(run + [a])
    ensures var s, t := After(run), After(run + [a]);
      && |t.jobs| == |s.jobs| && t.jobs[j].pool.items == s.jobs[j].pool.items
      && t.jobs[j].pool.next == s.jobs[j].pool.next + 1
      && w < |t.jobs[j].pool.workers| && t.jobs[j].pool.workers[w] == Busy(s.jobs[j].pool.next)
      && InFlight(t, n, 0) == InFlight(s, n, 0)
  {
    var s := After(run);
    var p := s.jobs[j].pool;
    RunIsSound(run);
    a := Work(j, if p.workers[w].Fresh? then Start(w) else Resolve(w));
    RunStep(run, a, s);
    TakesNext(p, a.step);
    hide Inv; hide Next; hide IsRun; hide After;
  }

  /** A live worker reaches every item not yet taken. */
  lemma {:induction false} ItemIsReached(run: seq<Action>, j: nat, i: nat, n: nat, k: string)
    returns (ext: seq<Action>, w: nat)
    requires IsRun(run) && j < |After(run).jobs| && j != n && InFlight(After(run), n, 0) == Some(k)
    requires var p := After(run).jobs[j].pool; p.next <= i < |p.items| && p.items[i] == k && Alive(p.workers)
    ensures NoCatch(ext) && IsRun(run + ext)
    ensures InFlight(After(run + ext), n, 0) == Some(k) && InFlight(After(run + ext), j, w) == Some(k)
    decreases var p := After(run).jobs[j].pool; i - p.next
  {
    hide IsRun; hide After;
    var p := After(run).jobs[j].pool;
    w :| 0 <= w < |p.workers| && (p.workers[w].Fresh? || p.workers[w].Busy?);
    var a := WorkerTakes(run, j, w, n);
    if p.next == i {
      ext := [a];
    } else {
      ext, w := ItemIsReached(run + [a], j, i, n, k);
      assert run + [a] + ext == run + ([a] + ext);
      ext := [a] + ext;
    }
  }

  lemma {:induction false} TakesNext(p: Pool<string, ()>, step: Step)
    requires Inv(p, Done) && Enabled(p, step) && !step.Reject? && p.next < |p.items|
    ensures var q := Next(p, Done, step);
      q.items == p.items && q.next == p.next + 1 && |q.workers| == |p.workers| && q.workers[step.w] == Busy(p.next)
  {}

  /** From any reachable state: if a handler may run while one of its keys is in use anywhere, then
      running it can lead, without any other handler, to that key being counted twice at a time. */
  lemma {:induction false} UnsafeCatchCountsTwice(run: seq<Action>, j: nat) returns (ext: seq<Action>)
    requires IsRun(run) && Possible(After(run), Catch(j)) && !SafeCatch(After(run), j)
    ensures NoCatch(ext) && IsRun(run + [Catch(j)] + ext) && CountedTwice(After(run + [Catch(j)] + ext))
  {
    hide IsRun; hide After; hide Possible; hide Do; hide InFlight; hide CountedTwice; hide BusyOn;
    var s := After(run);
    var k, j': nat, i: nat :| OpenWith(s, j', i, k) && k in s.jobs[j].pool.items;
    var n, p := |s.jobs|, s.jobs[j'].pool;
    FreedKeyIsRetaken(run, j, k);
    var retaken := run + Retake(s, j, k);
    ext := [Begin([k]), Work(n, Start(0))];
    assert retaken == run + [Catch(j)] + ext;
    if BusyOn(p.workers, i) {
      var w := WorkerOn(After(retaken), j', i);
      Twice(After(retaken), n, 0, j', w);
    } else {
      var more, w := ItemIsReached(retaken, j', i, n, k);
      assert retaken + more == run + [Catch(j)] + (ext + more);
      ext := ext + more;
      Twice(After(retaken + more), n, 0, j', w);
    }
  }

  lemma {:induction false} WorkerOn(s: System, j: nat, i: nat) returns (w: nat)
    requires j < |s.jobs| && i < |s.jobs[j].pool.items| && BusyOn(s.jobs[j].pool.workers, i)
    ensures InFlight(s, j, w) == Some(s.jobs[j].pool.items[i])
  {
    w :| 0 <= w < |s.jobs[j].pool.workers| && s.jobs[j].pool.workers[w] == Busy(i);
  }

  lemma {:induction false} Twice(s: System, j: nat, w: nat, j': nat, w': nat)
    requires j != j' && InFlight(s, j, w).Some? && InFlight(s, j, w) == InFlight(s, j', w')
    ensures CountedTwice(s)
  {
    hide InFlight;
  }

  /** Nothing that can follow, without another handler, counts a key twice. */
  ghost predicate Harmless(run: seq<Action>) {
    forall ext :: NoCatch(ext) && IsRun(run + ext) ==> !CountedTwice(After(run + ext))
  }

  /** Running the handler of a rejected job is harmless exactly when none of the job's keys is in use
      at that moment: being counted by a worker, or waiting for one. */
  lemma {:induction false} HandlerHarmlessIff(run: seq<Action>, j: nat)
    requires IsRun(run) && CatchesSafely(run) && Possible(After(run), Catch(j))
    ensures Harmless(run + [Catch(j)]) <==> SafeCatch(After(run), j)
  {
    if SafeCatch(After(run), j) {
      forall ext | NoCatch(ext) && IsRun(run + [Catch(j)] + ext) ensures !CountedTwice(After(run + [Catch(j)] + ext)) {
        StillSafe(run, j, ext);
        SafeCatchesCountOnce(run + [Catch(j)] + ext);
      }
    } else {
      var ext := UnsafeCatchCountsTwice(run, j);
    }
  }

  lemma {:induction false} TailHasNoCatch(run: seq<Action>, j: nat, ext: seq<Action>, i: nat)
    requires NoCatch(ext) && i < |run + [Catch(j)] + ext|
    ensures (run + [Catch(j)] + ext)[i].Catch? ==> i <= |run|
  {}

  lemma {:induction false} StillSafe(run: seq<Action>, j: nat, ext: seq<Action>)
    requires IsRun(run) && CatchesSafely(run) && SafeCatch(After(run), j) && NoCatch(ext)
    requires IsRun(run + [Catch(j)] + ext)
    ensures CatchesSafely(run + [Catch(j)] + ext)
  {
    hide SafeCatch; hide Possible; hide Do; hide IsRun; hide After;
    var all := run + [Catch(j)] + ext;
    forall i | 0 <= i < |all| && all[i].Catch? ensures (PrefixIsRun(all, i); SafeCatch(After(all[..i]), all[i].job)) {
      PrefixIsRun(all, i);
      TailHasNoCatch(run, j, ext, i);
      if i < |run| {
        assert all[..i] == run[..i] && all[i] == run[i];
        PrefixIsRun(run, i);
      } else {
        assert all[..i] == run;
      }
    }
  }

  // The stages of a run in which one mapper rejects.

  const TWO: seq<string> := ["a", "b"]
  const LOG: seq<Handout> := [Handout(0, 0), Handout(1, 1)]
  const P1: Pool<string, ()> := Pool(TWO, 0, [Fresh, Fresh], map[], [])
  const P2: Pool<string, ()> := Pool(TWO, 1, [Busy(0), Fresh], map[], [Handout(0, 0)])
  const P3: Pool<string, ()> := Pool(TWO, 2, [Busy(0), Busy(1)], map[], LOG)
  const P4: Pool<string, ()> := Pool(TWO, 2, [Rejected(0), Busy(1)], map[], LOG)
  const Q1: Pool<string, ()> := Pool(["b"], 0, [Fresh], map[], [])
  const Q2: Pool<string, ()> := Pool(["b"], 1, [Busy(0)], map[], [Handout(0, 0)])

  lemma {:induction false} FirstStages()
    ensures Do(System({}, []), Begin(TWO)) == System({"a", "b"}, [Job(P1, false)])
    ensures var s := System({"a", "b"}, [Job(P1, false)]);
      Possible(s, Work(0, Start(0))) && Do(s, Work(0, Start(0))) == System({"a", "b"}, [Job(P2, false)])
  {
    PendingExamples();
    assert seq(2, _ => Fresh) == [Fresh, Fresh];
    assert Next(P1, Done, Start(0)) == P2;
  }

  lemma {:induction false} MiddleStages()
    ensures var s := System({"a", "b"}, [Job(P2, false)]);
      Possible(s, Work(0, Start(1))) && Do(s, Work(0, Start(1))) == System({"a", "b"}, [Job(P3, false)])
    ensures var s := System({"a", "b"}, [Job(P3, false)]);
      Possible(s, Work(0, Reject(0))) && Do(s, Work(0, Reject(0))) == System({"b"}, [Job(P4, false)])
  {
    assert Next(P2, Done, Start(1)) == P3;
    assert Next(P3, Done, Reject(0)) == P4;
  }

  lemma {:induction false} LastStages()
    ensures var s := System({"b"}, [Job(P4, false)]);
      Possible(s, Catch(0)) && Do(s, Catch(0)) == System({}, [Job(P4, true)])
    ensures Do(System({}, [Job(P4, true)]), Begin(["b"])) == System({"b"}, [Job(P4, true), Job(Q1, false)])
    ensures var s := System({"b"}, [Job(P4, true), Job(Q1, false)]);
      Possible(s, Work(1, Start(0))) && Do(s, Work(1, Start(0))) == System({"b"}, [Job(P4, true), Job(Q2, false)])
  {
    PendingExamples();
    assert P4.workers[0].Rejected?;
    assert seq(1, _ => Fresh) == [Fresh];
    assert Next(Q1, Done, Start(0)) == Q2;
  }

  /** A rejection breaks it: the handler frees every key of its job, also those still being counted,
      and the next view starts counting one of them again. */
  lemma {:induction false} RejectionFreesBusyKey()
    ensures var run := [Begin(["a", "b"]), Work(0, Start(0)), Work(0, Start(1)), Work(0, Reject(0)), Catch(0),
                        Begin(["b"]), Work(1, Start(0))];
      IsRun(run) && InFlight(After(run), 0, 1) == Some("b") == InFlight(After(run), 1, 0)
  {
    var a1, a2, a3, a4, a5, a6, a7 := Begin(TWO), Work(0, Start(0)), Work(0, Start(1)), Work(0, Reject(0)),
      Catch(0), Begin(["b"]), Work(1, Start(0));
    FirstStages();
    MiddleStages();
    LastStages();
    hide Do; hide IsRun; hide After; hide Possible;
    EmptyRun();
    var r1, r2 := [] + [a1], [] + [a1] + [a2];
    var r3, r4 := r2 + [a3], r2 + [a3] + [a4];
    var r5, r6 := r4 + [a5], r4 + [a5] + [a6];
    RunStep([], a1, System({}, []));
    RunStep(r1, a2, System({"a", "b"}, [Job(P1, false)]));
    RunStep(r2, a3, System({"a", "b"}, [Job(P2, false)]));
    RunStep(r3, a4, System({"a", "b"}, [Job(P3, false)]));
    RunStep(r4, a5, System({"b"}, [Job(P4, false)]));
    RunStep(r5, a6, System({}, [Job(P4, true)]));
    RunStep(r6, a7, System({"b"}, [Job(P4, true), Job(Q1, false)]));
    assert r6 + [a7] == [a1, a2, a3, a4, a5, a6, a7];
  }

  lemma {:induction false} EmptyRun()
    ensures IsRun([]) && After([]) == System({}, [])
    ensures forall subjects :: Possible(System({}, []), Begin(subjects))
    ensures Possible(System({}, [Job(P4, true)]), Begin(["b"]))
  {}

  lemma {:induction false} PendingExamples()
    ensures Pending({}, ["a", "b"]) == ["a", "b"] && Pending({}, ["b"]) == ["b"]
  {
    assert ["a", "b"][1..] == ["b"] && ["b"][1..] == [];
    assert Pending({"a"}, ["b"]) == ["b"];
    assert {} + {"a"} == {"a"};
  }
}
