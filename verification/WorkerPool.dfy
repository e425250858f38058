/** `mapWithConcurrency`: cooperative workers sharing one index counter. A step is what one worker
    does between two awaits, so any order of steps is an interleaving the runtime may choose. */
module WorkerPool {
  import opened Bytes

  /** A worker not yet started, awaiting the mapper of an index, returned, or thrown out by it. */
  datatype Worker = Fresh | Busy(index: nat) | Finished | Rejected(index: nat)

  datatype Handout = Handout(worker: nat, index: nat)

  /** The shared variables, and the log of which worker took which index. */
  datatype Pool<T, U> = Pool(items: seq<T>, next: nat, workers: seq<Worker>, results: map<nat, U>, log: seq<Handout>)

  datatype Step = Start(w: nat) | Resolve(w: nat) | Reject(w: nat)

  function Min(a: int, b: int): int {
    if a < b then a else b
  }

  /** `Array.from({ length: Math.min(concurrency, items.length) })`, before any worker runs. */
  function Launch<T, U>(items: seq<T>, concurrency: int): Pool<T, U> {
    var n := Min(concurrency, |items|);
    Pool(items, 0, seq(if n > 0 then n else 0, _ => Fresh), map[], [])
  }

  /** The head of the worker loop: take the next index, or return. */
  function Take<T, U>(p: Pool<T, U>, w: nat): Pool<T, U>
    requires w < |p.workers|
  {
    if p.next >= |p.items| then p.(next := p.next + 1, workers := p.workers[w := Finished])
    else p.(next := p.next + 1, workers := p.workers[w := Busy(p.next)], log := p.log + [Handout(w, p.next)])
  }

  predicate Enabled<T, U>(p: Pool<T, U>, s: Step) {
    s.w < |p.workers| && match s
      case Start(w) => p.workers[w].Fresh?
      case Resolve(w) => p.workers[w].Busy?
      case Reject(w) => p.workers[w].Busy?
  }

  function Next<T, U>(p: Pool<T, U>, mapper: T -> U, s: Step): Pool<T, U>
    requires Enabled(p, s)
  {
    match s
    case Start(w) => Take(p, w)
    case Resolve(w) =>
      var i := p.workers[w].index;
      if i < |p.items| then Take(p.(results := p.results[i := mapper(p.items[i])]), w) else p
    case Reject(w) => p.(workers := p.workers[w := Rejected(p.workers[w].index)])
  }

  /** Every step of the run was possible when it was taken. */
  ghost predicate IsRun<T, U>(items: seq<T>, concurrency: int, mapper: T -> U, run: seq<Step>)
    decreases |run|, 0
  {
    run == [] || (IsRun(items, concurrency, mapper, run[..|run| - 1])
                  && Enabled(After(items, concurrency, mapper, run[..|run| - 1]), run[|run| - 1]))
  }

  ghost function After<T, U>(items: seq<T>, concurrency: int, mapper: T -> U, run: seq<Step>): Pool<T, U>
    requires IsRun(items, concurrency, mapper, run)
    decreases |run|, 1
  {
    if run == [] then Launch(items, concurrency)
    else Next(After(items, concurrency, mapper, run[..|run| - 1]), mapper, run[|run| - 1])
  }

  // ----- the code, one method per stretch between awaits -----

  class Mapping<T, U> {
    const items: seq<T>
    var nextIndex: nat
    var results: map<nat, U>
    var workers: seq<Worker>
    ghost var log: seq<Handout>

    ghost function State(): Pool<T, U>
      reads this
    {
      Pool(items, nextIndex, workers, results, log)
    }

    constructor (items: seq<T>, concurrency: int)
      ensures State() == Launch(items, concurrency) && this.items == items
    {
      this.items := items;
      nextIndex, results, log := 0, map[], [];
      var n := Min(concurrency, |items|);
      workers := seq(if n > 0 then n else 0, _ => Fresh);
    }

    /** From a loop head to the next await or the return. */
    method TakeNext(w: nat)
      requires w < |workers|
      modifies this`nextIndex, this`workers, this`log
      ensures State() == Take(old(State()), w)
    {
      var index := nextIndex;
      nextIndex := nextIndex + 1;
      if index >= |items| {
        workers := workers[w := Finished];
        return;
      }
      workers := workers[w := Busy(index)];
      log := log + [Handout(w, index)];
    }

    /** The await of worker `w` completes with `value`. */
    method ResumeWith(w: nat, value: U, ghost mapper: T -> U)
      requires Enabled(State(), Resolve(w)) && workers[w].index < |items| && value == mapper(items[workers[w].index])
      modifies this
      ensures State() == Next(old(State()), mapper, Resolve(w))
    {
      results := results[workers[w].index := value];
      TakeNext(w);
    }

    /** The await of worker `w` throws: the worker is gone, the others go on. */
    method ResumeThrowing(w: nat, ghost mapper: T -> U)
      requires Enabled(State(), Reject(w))
      modifies this`workers
      ensures State() == Next(old(State()), mapper, Reject(w))
    {
      workers := workers[w := Rejected(workers[w].index)];
    }
  }

  // ----- what every interleaving keeps -----

  ghost predicate Inv<T, U>(p: Pool<T, U>, mapper: T -> U) {
    && |p.log| == Min(p.next, |p.items|)
    && (forall i :: 0 <= i < |p.log| ==> p.log[i].index == i && p.log[i].worker < |p.workers|)
    && (forall i :: i in p.results ==> i < |p.log| && p.results[i] == mapper(p.items[i]))
    && (forall w :: 0 <= w < |p.workers| && (p.workers[w].Busy? || p.workers[w].Rejected?) ==>
          var i := p.workers[w].index; i < |p.log| && p.log[i].worker == w && i !in p.results)
    && (forall i :: 0 <= i < |p.log| ==>
          i in p.results || p.workers[p.log[i].worker] == Busy(i) || p.workers[p.log[i].worker] == Rejected(i))
    && (forall w :: 0 <= w < |p.workers| && p.workers[w].Finished? ==> p.next >= |p.items|)
  }

  lemma {:induction false} TakeKeepsInv<T, U>(p: Pool<T, U>, mapper: T -> U, w: nat)
    requires Inv(p, mapper) && w < |p.workers|
    requires !p.workers[w].Busy? && !p.workers[w].Rejected?
    ensures Inv(Take(p, w), mapper)
  {}

  /** The result is stored before the worker looks for its next index. */
  lemma {:induction false} ResolvedKeepsInv<T, U>(p: Pool<T, U>, mapper: T -> U, w: nat)
    requires Inv(p, mapper) && w < |p.workers| && p.workers[w].Busy?
    ensures var i := p.workers[w].index;
      && i < |p.items|
      && Inv(p.(results := p.results[i := mapper(p.items[i])], workers := p.workers[w := Fresh]), mapper)
  {}

  lemma {:induction false} StepKeepsInv<T, U>(p: Pool<T, U>, mapper: T -> U, s: Step)
    requires Inv(p, mapper) && Enabled(p, s)
    ensures Inv(Next(p, mapper, s), mapper)
  {
    var w := s.w;
    match s {
      case Start(_) => TakeKeepsInv(p, mapper, w);
      case Resolve(_) =>
        var i := p.workers[w].index;
        ResolvedKeepsInv(p, mapper, w);
        var q := p.(results := p.results[i := mapper(p.items[i])], workers := p.workers[w := Fresh]);
        TakeKeepsInv(q, mapper, w);
        assert Next(p, mapper, s) == Take(q, w);
      case Reject(_) =>
    }
  }

  /** Fresh and busy workers: those that still have a step to make. */
  function Active(ws: seq<Worker>): nat {
    if ws == [] then 0
    else Active(ws[..|ws| - 1]) + (if ws[|ws| - 1].Fresh? || ws[|ws| - 1].Busy? then 1 else 0)
  }

  lemma {:induction false} ActiveUpdate(ws: seq<Worker>, w: nat, v: Worker)
    requires w < |ws|
    ensures Active(ws[w := v])
         == Active(ws) - (if ws[w].Fresh? || ws[w].Busy? then 1 else 0) + (if v.Fresh? || v.Busy? then 1 else 0)
  {
    var n := |ws| - 1;
    if w < n {
      ActiveUpdate(ws[..n], w, v);
      assert ws[w := v][..n] == ws[..n][w := v];
    } else {
      assert ws[w := v][..n] == ws[..n];
    }
  }

  lemma {:induction false} AllFresh(n: nat)
    ensures Active(seq(n, _ => Fresh)) == n
  {
    if n > 0 {
      AllFresh(n - 1);
      assert seq(n, _ => Fresh)[..n - 1] == seq(n - 1, _ => Fresh);
    }
  }

  lemma {:induction false} ActiveBound(ws: seq<Worker>)
    ensures Active(ws) <= |ws|
    ensures Active(ws) == 0 <==> forall w :: 0 <= w < |ws| ==> ws[w].Finished? || ws[w].Rejected?
  {
    if ws != [] { ActiveBound(ws[..|ws| - 1]); }
  }

  /** Every step uses up one worker turn, and every handed-out index grants one. */
  lemma {:induction false} RunKeepsInv<T, U>(items: seq<T>, concurrency: int, mapper: T -> U, run: seq<Step>)
    requires IsRun(items, concurrency, mapper, run)
    ensures var p := After(items, concurrency, mapper, run);
      && Inv(p, mapper) && p.items == items
      && |p.workers| == (if Min(concurrency, |items|) > 0 then Min(concurrency, |items|) else 0)
      && |run| + Active(p.workers) == |p.workers| + |p.log|
  {
    if run == [] {
      var n := Min(concurrency, |items|);
      AllFresh(if n > 0 then n else 0);
    } else {
      var m := |run| - 1;
      RunKeepsInv(items, concurrency, mapper, run[..m]);
      var p := After(items, concurrency, mapper, run[..m]);
      StepKeepsInv(p, mapper, run[m]);
      var w := run[m].w;
      ActiveUpdate(p.workers, w, Next(p, mapper, run[m]).workers[w]);
    }
  }

  // ----- the theorems -----

  /** The indexes whose mapper is running. */
  ghost function Running<T, U>(p: Pool<T, U>): set<nat> {
    set w | 0 <= w < |p.workers| && p.workers[w].Busy? :: p.workers[w].index
  }

  lemma {:induction false} RunningBound(ws: seq<Worker>)
    ensures |set w | 0 <= w < |ws| && ws[w].Busy? :: ws[w].index| <= |ws|
  {
    var all := set w | 0 <= w < |ws| && ws[w].Busy? :: ws[w].index;
    if ws == [] {
      assert all == {};
    } else {
      var n := |ws| - 1;
      RunningBound(ws[..n]);
      var front := set w | 0 <= w < n && ws[..n][w].Busy? :: ws[..n][w].index;
      assert all == front + (if ws[n].Busy? then {ws[n].index} else {}) by {
        forall i | i in all ensures i in front + (if ws[n].Busy? then {ws[n].index} else {}) {
          var w :| 0 <= w < |ws| && ws[w].Busy? && ws[w].index == i;
          if w < n { assert ws[..n][w].Busy?; }
        }
        forall i | i in front ensures i in all {
          var w :| 0 <= w < n && ws[..n][w].Busy? && ws[..n][w].index == i;
          assert ws[w].Busy?;
        }
      }
    }
  }

  /** Under every interleaving: indexes are handed out 0, 1, 2, ..., each once and to one worker;
      no two workers run the same index; and at most `concurrency` mappers run. */
  lemma {:induction false} EveryInterleaving<T, U>(items: seq<T>, concurrency: int, mapper: T -> U, run: seq<Step>)
    requires IsRun(items, concurrency, mapper, run)
    ensures var p := After(items, concurrency, mapper, run);
      && (forall i :: 0 <= i < |p.log| ==> p.log[i].index == i < |items|)
      && (forall v, w :: 0 <= v < w < |p.workers| && p.workers[v].Busy? ==> p.workers[v] != p.workers[w])
      && |Running(p)| <= (if concurrency > 0 then concurrency else 0)
      && |run| <= |p.workers| + |items|
  {
    RunKeepsInv(items, concurrency, mapper, run);
    RunningBound(After(items, concurrency, mapper, run).workers);
  }

  /** A run can always be continued until no worker is left, and a finished run without rejections
      holds the mapper's result for every item; without workers nothing is mapped. */
  lemma {:induction false} FinishedRunIsMap<T, U>(items: seq<T>, concurrency: int, mapper: T -> U, run: seq<Step>)
    requires IsRun(items, concurrency, mapper, run)
    ensures var p := After(items, concurrency, mapper, run);
      && ((forall s :: !Enabled(p, s)) <==>
            (forall w :: 0 <= w < |p.workers| ==> p.workers[w].Finished? || p.workers[w].Rejected?))
      && ((forall w :: 0 <= w < |p.workers| ==> p.workers[w].Finished?) ==>
            if concurrency >= 1 || items == []
            then |run| == |p.workers| + |items|
                 && forall i :: 0 <= i < |items| ==> i in p.results && p.results[i] == mapper(items[i])
            else run == [] && p.results == map[])
  {
    RunKeepsInv(items, concurrency, mapper, run);
    var p := After(items, concurrency, mapper, run);
    ActiveBound(p.workers);
    if w :| 0 <= w < |p.workers| && !p.workers[w].Finished? && !p.workers[w].Rejected? {
      assert Enabled(p, if p.workers[w].Fresh? then Start(w) else Resolve(w));
    }
    if (concurrency >= 1 || items == []) && forall w :: 0 <= w < |p.workers| ==> p.workers[w].Finished? {
      if items != [] { assert p.workers[0].Finished?; }
    }
    NoWorkersNoSteps(items, concurrency, mapper, run);
  }

  lemma {:induction false} NoWorkersNoSteps<T, U>(items: seq<T>, concurrency: int, mapper: T -> U, run: seq<Step>)
    requires IsRun(items, concurrency, mapper, run)
    ensures concurrency <= 0 ==> run == []
  {
    if run != [] {
      RunKeepsInv(items, concurrency, mapper, run[..|run| - 1]);
      assert Enabled(After(items, concurrency, mapper, run[..|run| - 1]), run[|run| - 1]);
    }
  }
}
