/** What the assembled blocks of a stream are, for every interleaving of its block events. */
module StreamTheorems {
  import opened Bytes
  import opened Ordering
  import opened CanonicalJson
  import opened BedrockEvents
  import opened StreamAssembler
  import SpyTables
  import opened BlockIds

  // ----- every touched index is finished exactly once -----

  predicate FinishesOnce(plan: seq<Output>) {
    forall i, j :: 0 <= i < j < |plan| && plan[i].Finish? && plan[j].Finish? ==> plan[i].k != plan[j].k
  }

  lemma {:induction false} LiveFinishesOnce(es: seq<Action>)
    ensures FinishesOnce(Live(es)) && forall k :: k in Finished(Live(es)) ==> Touched(es, k)
    ensures forall i :: 0 <= i < |Live(es)| ==> Live(es)[i].at < |es|
  {
    if es != [] {
      var n := |es| - 1;
      var before := es[..n];
      LiveFinishesOnce(before);
      forall k | Touched(before, k) ensures Touched(es, k) { TouchedPrefix(es, n, k); }
      hide Touched; hide RoleAfter;
      if es[n].Stop? {
        var k := es[n].index;
        assert k !in Finished(Live(before)) ==>
          forall i :: 0 <= i < |Live(before)| && Live(before)[i].Finish? ==> Live(before)[i].k != k;
      }
    }
  }

  lemma {:induction false} FlushFinishes(ks: seq<Text>, done: set<Text>, at: nat)
    requires forall i, j :: 0 <= i < j < |ks| ==> ks[i] != ks[j]
    ensures var f := Flush(ks, done, at);
      && FinishesOnce(f)
      && (forall i :: 0 <= i < |f| ==> f[i].Finish? && f[i].at == at && f[i].k in ks && f[i].k !in done)
      && (forall k :: k in ks && k !in done ==> Finish(k, at) in f)
  {
    if ks != [] {
      var rest := Flush(ks[1..], done, at);
      FlushFinishes(ks[1..], done, at);
      assert Flush(ks, done, at) == (if ks[0] in done then [] else [Finish(ks[0], at)]) + rest;
      assert ks == [ks[0]] + ks[1..];
      assert forall i :: 0 <= i < |rest| ==> rest[i].k != ks[0];
      hide Flush;
    }
  }

  /** The plan finishes every touched index, each exactly once, and no other. */
  lemma {:induction false} FinishedExactlyOnce(es: seq<Action>)
    ensures FinishesOnce(Plan(es))
    ensures forall k :: Touched(es, k) <==> exists at :: Finish(k, at) in Plan(es)
    ensures forall o :: o in Plan(es) && o.Finish? ==> o.at <= |es|
  {
    var live, ks := Live(es), TouchOrder(es);
    var rest := Flush(ks, Finished(live), |es|);
    LiveFinishesOnce(es);
    FlushFinishes(ks, Finished(live), |es|);
    hide Live; hide Flush; hide TouchOrder; hide Touched;
    assert Plan(es) == live + rest;
    forall k ensures Touched(es, k) <==> exists at :: Finish(k, at) in Plan(es) {
      if Touched(es, k) {
        if k in Finished(live) {
          var o :| o in live && o.Finish? && o.k == k;
          assert Finish(k, o.at) in Plan(es);
        } else {
          assert Finish(k, |es|) in rest;
          assert Finish(k, |es|) in Plan(es);
        }
      }
      if at :| Finish(k, at) in Plan(es) {
        if Finish(k, at) in live { assert k in Finished(live); }
      }
    }
    forall i, j | 0 <= i < j < |Plan(es)| && Plan(es)[i].Finish? && Plan(es)[j].Finish?
      ensures Plan(es)[i].k != Plan(es)[j].k
    {
      if i < |live| && j >= |live| {
        assert live[i] in live;
        assert rest[j - |live|].k !in Finished(live);
      }
    }
  }

  // ----- a finished block holds exactly its own pieces -----

  /** No touch of `k` from event `at` on brings a piece. */
  predicate Quiet(es: seq<Action>, k: Text, at: nat) {
    forall i :: at <= i < |es| && es[i].Touch? && es[i].index == k ==> es[i].pieces == []
  }

  lemma {:induction false} QuietStep(es: seq<Action>, k: Text, at: nat)
    requires at < |es|
    ensures Quiet(es, k, at) <==> Quiet(es, k, at + 1) && (es[at].Touch? && es[at].index == k ==> es[at].pieces == [])
  {}

  /** The pieces before event `at` are all of them exactly when `k` is quiet from there on. */
  lemma {:induction false} PrefixIsAllIffQuiet(es: seq<Action>, k: Text, at: nat)
    requires at <= |es|
    ensures PiecesFor(es[..at], k) <= PiecesFor(es, k)
    ensures PiecesFor(es[..at], k) == PiecesFor(es, k) <==> Quiet(es, k, at)
    decreases |es| - at
  {
    if at == |es| {
      assert es[..at] == es;
    } else {
      PrefixIsAllIffQuiet(es, k, at + 1);
      StepFor(es, at, k);
      QuietStep(es, k, at);
      var e := es[at];
      hide PiecesFor; hide Quiet;
      if e.Touch? && e.index == k && e.pieces != [] {
        assert |PiecesFor(es[..at], k)| < |PiecesFor(es[..at + 1], k)| <= |PiecesFor(es, k)|;
      } else {
        assert PiecesFor(es[..at], k) + [] == PiecesFor(es[..at], k);
      }
    }
  }

  // ----- when an index is finished -----

  /** Event `i` stops `k`, which was touched before. */
  predicate Stops(es: seq<Action>, k: Text, i: nat) {
    i < |es| && es[i] == Stop(k) && Touched(es[..i], k)
  }

  /** The first stop of `k` after a touch of it, or the end of the stream. */
  function FinishAt(es: seq<Action>, k: Text): (at: nat)
    ensures at <= |es|
    ensures at < |es| ==> Stops(es, k, at)
    ensures forall i: nat :: i < at ==> !Stops(es, k, i)
  {
    if es == [] then 0
    else
      var n := |es| - 1;
      var at := FinishAt(es[..n], k);
      assert forall i: nat :: i < n ==> (Stops(es, k, i) <==> Stops(es[..n], k, i)) by {
        forall i: nat | i < n ensures Stops(es, k, i) <==> Stops(es[..n], k, i) { assert es[..n][..i] == es[..i]; }
      }
      if at < n then at else if Stops(es, k, n) then n else n + 1
  }

  /** The plan finishes an index where its events say. */
  lemma {:induction false} LiveFinishesAt(es: seq<Action>, k: Text)
    ensures k in Finished(Live(es)) <==> FinishAt(es, k) < |es|
    ensures FinishAt(es, k) < |es| ==> Finish(k, FinishAt(es, k)) in Live(es)
  {
    if es != [] {
      var n := |es| - 1;
      LiveFinishesAt(es[..n], k);
      hide Touched;
    }
  }

  lemma {:induction false} PlanFinishesAt(es: seq<Action>, k: Text)
    requires Touched(es, k)
    ensures Finish(k, FinishAt(es, k)) in Plan(es)
  {
    LiveFinishesAt(es, k);
    var rest := Flush(TouchOrder(es), Finished(Live(es)), |es|);
    FlushFinishes(TouchOrder(es), Finished(Live(es)), |es|);
    hide Live; hide Flush; hide FinishAt;
    assert Plan(es) == Live(es) + rest;
  }

  // ----- the blocks -----

  lemma {:induction false} RenderedAt(es: seq<Action>, plan: seq<Output>, i: nat)
    requires i < |plan|
    ensures var n := |RenderPlan(es, plan[..i])|;
      var part := RenderOutput(es, plan[i], n);
      n + |part| <= |RenderPlan(es, plan)| && RenderPlan(es, plan)[n..n + |part|] == part
    decreases |plan|
  {
    hide RenderOutput;
    var m := |plan| - 1;
    var before := RenderPlan(es, plan[..m]);
    var last := RenderOutput(es, plan[m], |before|);
    assert RenderPlan(es, plan) == before + last;
    if i < m {
      RenderedAt(es, plan[..m], i);
      assert plan[..m][..i] == plan[..i];
      hide RenderPlan;
      var n := |RenderPlan(es, plan[..i])|;
      var k := |RenderOutput(es, plan[i], n)|;
      assert (before + last)[n..n + k] == before[n..n + k];
    }
  }

  /** Ordinals are 0, 1, 2, ... in order. */
  lemma {:induction false} OrdinalsAreDense(es: seq<Action>)
    ensures forall i :: 0 <= i < |Assemble(es)| ==> Assemble(es)[i].ordinal == i
  {
    hide Plan;
  }

  /** For every interleaving, the blocks of a touched index stand together in the output and hold the
      concatenation of its pieces up to its first stop. These are all of its pieces if and only if
      none arrives later: a late piece is lost, and nothing else is. */
  lemma {:induction false} FilterThenConcatenate(es: seq<Action>, k: Text) returns (n: nat)
    requires Touched(es, k)
    ensures var at := FinishAt(es, k);
      var part := FinalBlocks(es[..at], k, n);
      && n + |part| <= |Assemble(es)| && Assemble(es)[n..n + |part|] == part
      && PiecesFor(es[..at], k) <= PiecesFor(es, k)
      && (PiecesFor(es[..at], k) == PiecesFor(es, k) <==> Quiet(es, k, at))
  {
    hide *;
    var at := FinishAt(es, k);
    PlanFinishesAt(es, k);
    n := InOutput(es, Finish(k, at));
    FinishIsRendered(es, k, at, n);
    PrefixIsAllIffQuiet(es, k, at);
  }

  /** Every planned step has its blocks in the output. */
  lemma {:induction false} InOutput(es: seq<Action>, o: Output) returns (n: nat)
    requires o in Plan(es)
    ensures var part := RenderOutput(es, o, n); n + |part| <= |Assemble(es)| && Assemble(es)[n..n + |part|] == part
  {
    hide Plan; hide RenderPlan; hide RenderOutput;
    var i :| 0 <= i < |Plan(es)| && Plan(es)[i] == o;
    n := |RenderPlan(es, Plan(es)[..i])|;
    RenderedAt(es, Plan(es), i);
  }

  lemma {:induction false} FinishIsRendered(es: seq<Action>, k: Text, at: nat, n: nat)
    requires at <= |es|
    ensures RenderOutput(es, Finish(k, at), n) == FinalBlocks(es[..at], k, n)
  {
    hide FinalBlocks;
  }

  /** A stream that loses a delta: the second text comes after the stop of its block. */
  lemma {:induction false} LateDeltaIsLost(k: Text, a: Text, b: Text)
    ensures var es := [Touch(k, [TextPart(a)]), Stop(k), Touch(k, [TextPart(b)])];
      && PiecesFor(es, k) == [TextPart(a), TextPart(b)]
      && Assemble(es) == [Block(0, AssistantOutput, 0, None, Some(a), NoJson)]
      && !Quiet(es, k, FinishAt(es, k))
  {
    var es := [Touch(k, [TextPart(a)]), Stop(k), Touch(k, [TextPart(b)])];
    LatePrefixes(k, a, b);
    LatePlan(k, a, b);
    hide PiecesFor; hide Live; hide TouchOrder; hide FirstTouch; hide TouchRole; hide RoleAfter;
    assert FinishAt(es, k) == 1 by {
      assert Stops(es, k, 1) by { assert es[..1][0].Touch? && es[..1][0].index == k; }
      assert !Stops(es, k, 0);
    }
    hide FinishAt;
    assert es[..3] == es;
    assert Flush([k], {k}, 3) == [] by { assert [k][1..] == []; }
    assert Finished([Finish(k, 1)]) == {k};
    assert Plan(es) == [Finish(k, 1)];
    assert RenderPlan(es, [Finish(k, 1)]) == FinalBlocks(es[..1], k, 0) by {
      assert [Finish(k, 1)][..0] == [];
      FinishIsRendered(es, k, 1, 0);
    }
    OneText(a, 0, 0);
    assert FinalBlocks(es[..1], k, 0) == [Block(0, AssistantOutput, 0, None, Some(a), NoJson)];
    hide Plan; hide FinalBlocks; hide RenderPlan;
    assert !Quiet(es, k, 1) by { assert es[2].Touch? && es[2].index == k && es[2].pieces != []; }
  }

  /** What the reference values are along that stream. */
  lemma {:induction false} LatePrefixes(k: Text, a: Text, b: Text)
    ensures var es := [Touch(k, [TextPart(a)]), Stop(k), Touch(k, [TextPart(b)])];
      && PiecesFor(es[..1], k) == [TextPart(a)] && PiecesFor(es[..3], k) == [TextPart(a), TextPart(b)]
      && FirstTouch(es[..1], k) == 0 && TouchRole(es[..1], k) == None && RoleAfter(es[..1]) == None
  {
    var es := [Touch(k, [TextPart(a)]), Stop(k), Touch(k, [TextPart(b)])];
    assert es[..0] == [];
    NothingSeen(k);
    StepFor(es, 0, k);
    StepFor(es, 1, k);
    StepFor(es, 2, k);
    OrderStep(es, 0);
    hide PiecesFor; hide Live; hide TouchOrder; hide FirstTouch; hide TouchRole; hide RoleAfter; hide Touched;
    assert [] + [TextPart(a)] == [TextPart(a)] && [TextPart(a)] + [] == [TextPart(a)];
  }

  lemma {:induction false} LatePlan(k: Text, a: Text, b: Text)
    ensures var es := [Touch(k, [TextPart(a)]), Stop(k), Touch(k, [TextPart(b)])];
      Live(es[..3]) == [Finish(k, 1)] && TouchOrder(es[..3]) == [k]
  {
    hide PiecesFor; hide Live; hide TouchOrder; hide FirstTouch; hide TouchRole; hide RoleAfter; hide Touched;
    var es := [Touch(k, [TextPart(a)]), Stop(k), Touch(k, [TextPart(b)])];
    assert es[..0] == [];
    NothingSeen(k);
    assert Live(es[..1]) == [] && TouchOrder(es[..1]) == [k] by { OrderStep(es, 0); assert [] + [k] == [k]; }
    assert Live(es[..2]) == [Finish(k, 1)] && TouchOrder(es[..2]) == [k] by {
      OrderStep(es, 1);
      assert k in [k];
      assert [] + [Finish(k, 1)] == [Finish(k, 1)] && Finished([]) == {};
    }
    OrderStep(es, 2);
  }

  lemma {:induction false} NothingSeen(k: Text)
    ensures PiecesFor([], k) == [] && TouchRole([], k) == None && RoleAfter([]) == None
    ensures Live([]) == [] && TouchOrder([]) == [] && !Touched([], k)
  {}

  lemma {:induction false} OneText(a: Text, origin: nat, n: nat)
    ensures Render(PartsOf([TextPart(a)]), origin, None, n)
      == [Block(n, AssistantOutput, origin, None, Some(a), NoJson)]
  {
    NoParts();
    PushParts([], TextPart(a));
    assert [] + [TextPart(a)] == [TextPart(a)] && [] + [a] == [a];
    hide PartsOf;
    assert Concat([a]) == a by {
      assert [a][1..] == [] && Concat<CodeUnit>([]) == [];
      assert a + [] == a;
    }
    var p := PartsOf([TextPart(a)]);
    assert RenderRest(p, origin, None, n + 1) == [];
  }

  // ----- what else is interleaved does not matter -----

  /** The touches of `k`. */
  function Own(es: seq<Action>, k: Text): seq<Action> {
    if es == [] then []
    else
      var n := |es| - 1;
      Own(es[..n], k) + (if es[n].Touch? && es[n].index == k then [es[n]] else [])
  }

  lemma {:induction false} OwnPieces(es: seq<Action>, k: Text)
    ensures PiecesFor(Own(es, k), k) == PiecesFor(es, k)
  {
    if es != [] {
      var n := |es| - 1;
      OwnPieces(es[..n], k);
      var own := Own(es[..n], k);
      if es[n].Touch? && es[n].index == k {
        assert (own + [es[n]])[..|own|] == own;
      } else {
        assert own + [] == own;
        assert PiecesFor(es[..n], k) + [] == PiecesFor(es[..n], k);
      }
    }
  }

  /** The pieces of `k` that make it into its blocks. */
  function Kept(es: seq<Action>, k: Text): seq<Piece> {
    PiecesFor(es[..FinishAt(es, k)], k)
  }

  /** Blocks alike but for the role, the provider path and the numbering. */
  predicate SameContent(bs: seq<Block>, cs: seq<Block>) {
    |bs| == |cs| && forall i :: 0 <= i < |bs| ==>
      bs[i].kind == cs[i].kind && bs[i].text == cs[i].text && bs[i].content == cs[i].content
  }

  lemma {:induction false} AppendAlike(bs: seq<Block>, bs': seq<Block>, cs: seq<Block>, cs': seq<Block>)
    requires SameContent(bs, cs) && SameContent(bs', cs')
    ensures SameContent(bs + bs', cs + cs')
  {}

  lemma {:induction false} RenderAlike(p: Parts, origin: nat, role: Option<Text>, n: nat, origin': nat,
                                       role': Option<Text>, n': nat)
    ensures SameContent(Render(p, origin, role, n), Render(p, origin', role', n'))
  {
    hide SameContent; hide TextBlock; hide ThinkingBlock; hide ToolBlock; hide UnknownBlock;
    var b1, c1 := TextBlock(p, origin, role, n), TextBlock(p, origin', role', n');
    var i, j := n + |b1|, n' + |c1|;
    var b2, c2 := ThinkingBlock(p, origin, role, i), ThinkingBlock(p, origin', role', j);
    var k, l := i + |b2|, j + |c2|;
    var b3, c3 := ToolBlock(p, origin, role, k), ToolBlock(p, origin', role', l);
    var b4, c4 := UnknownBlock(p, origin, role, k + |b3|), UnknownBlock(p, origin', role', l + |c3|);
    EachAlike(p, origin, role, n, origin', role', n');
    EachAlike(p, origin, role, i, origin', role', j);
    EachAlike(p, origin, role, k, origin', role', l);
    EachAlike(p, origin, role, k + |b3|, origin', role', l + |c3|);
    AppendAlike(b2, b3, c2, c3);
    AppendAlike(b2 + b3, b4, c2 + c3, c4);
    AppendAlike(b1, b2 + b3 + b4, c1, c2 + c3 + c4);
  }

  lemma {:induction false} EachAlike(p: Parts, origin: nat, role: Option<Text>, n: nat, origin': nat,
                                     role': Option<Text>, n': nat)
    ensures SameContent(TextBlock(p, origin, role, n), TextBlock(p, origin', role', n'))
    ensures SameContent(ThinkingBlock(p, origin, role, n), ThinkingBlock(p, origin', role', n'))
    ensures SameContent(ToolBlock(p, origin, role, n), ToolBlock(p, origin', role', n'))
    ensures SameContent(UnknownBlock(p, origin, role, n), UnknownBlock(p, origin', role', n'))
  {
    hide Concat;
  }

  lemma {:induction false} FinalAlike(es: seq<Action>, fs: seq<Action>, k: Text, m: nat, n: nat)
    requires PiecesFor(es, k) == PiecesFor(fs, k)
    ensures SameContent(FinalBlocks(es, k, m), FinalBlocks(fs, k, n))
  {
    hide SameContent; hide Render; hide PartsOf; hide PiecesFor; hide TouchRole; hide RoleAfter; hide FirstTouch;
    RenderAlike(PartsOf(PiecesFor(es, k)), FirstTouch(es, k), Or(TouchRole(es, k), RoleAfter(es)), m,
                FirstTouch(fs, k), Or(TouchRole(fs, k), RoleAfter(fs)), n);
  }

  /** Two streams that keep the same pieces of `k` give it the same block contents, wherever the
      blocks stand in their outputs. */
  lemma {:induction false} KeptDecides(es: seq<Action>, fs: seq<Action>, k: Text) returns (m: nat, n: nat, size: nat)
    requires Touched(es, k) && Touched(fs, k) && Kept(es, k) == Kept(fs, k)
    ensures m + size <= |Assemble(es)| && n + size <= |Assemble(fs)|
    ensures Assemble(es)[m..m + size] == FinalBlocks(es[..FinishAt(es, k)], k, m)
    ensures Assemble(fs)[n..n + size] == FinalBlocks(fs[..FinishAt(fs, k)], k, n)
    ensures SameContent(Assemble(es)[m..m + size], Assemble(fs)[n..n + size])
  {
    hide Assemble; hide FinalBlocks; hide FinishAt; hide PiecesFor; hide Touched; hide Quiet; hide SameContent;
    m := FilterThenConcatenate(es, k);
    n := FilterThenConcatenate(fs, k);
    var e, f := es[..FinishAt(es, k)], fs[..FinishAt(fs, k)];
    size := |FinalBlocks(e, k, m)|;
    FinalAlike(e, f, k, m, n);
    assert |FinalBlocks(f, k, n)| == size by { SameSize(FinalBlocks(e, k, m), FinalBlocks(f, k, n)); }
  }

  lemma {:induction false} SameSize(bs: seq<Block>, cs: seq<Block>)
    requires SameContent(bs, cs)
    ensures |bs| == |cs|
  {}

  lemma {:induction false} OwnTouched(es: seq<Action>, k: Text)
    ensures Touched(es, k) <==> Own(es, k) != []
  {
    if es != [] {
      var n := |es| - 1;
      OwnTouched(es[..n], k);
      if Touched(es[..n], k) { TouchedPrefix(es, n, k); }
      if es[n].Touch? && es[n].index == k { assert Touched(es, k); }
      if Touched(es, k) && !(es[n].Touch? && es[n].index == k) {
        var i :| 0 <= i < |es| && es[i].Touch? && es[i].index == k;
        assert es[..n][i].Touch?;
      }
    }
  }

  /** Interleavings of the same touches of `k`, none late, give it the same block contents. */
  lemma {:induction false} InterleavingsAgree(es: seq<Action>, fs: seq<Action>, k: Text)
    returns (m: nat, n: nat, size: nat)
    requires Touched(es, k) && Own(es, k) == Own(fs, k)
    requires Quiet(es, k, FinishAt(es, k)) && Quiet(fs, k, FinishAt(fs, k))
    ensures m + size <= |Assemble(es)| && n + size <= |Assemble(fs)|
    ensures Assemble(es)[m..m + size] == FinalBlocks(es[..FinishAt(es, k)], k, m)
    ensures Assemble(fs)[n..n + size] == FinalBlocks(fs[..FinishAt(fs, k)], k, n)
    ensures SameContent(Assemble(es)[m..m + size], Assemble(fs)[n..n + size])
  {
    OwnPieces(es, k);
    OwnPieces(fs, k);
    OwnTouched(es, k);
    OwnTouched(fs, k);
    PrefixIsAllIffQuiet(es, k, FinishAt(es, k));
    PrefixIsAllIffQuiet(fs, k, FinishAt(fs, k));
    hide FinishAt; hide PiecesFor; hide Assemble; hide Quiet; hide Own;
    m, n, size := KeptDecides(es, fs, k);
  }

  /** The touches and stops of `k`. */
  function OwnWithStops(es: seq<Action>, k: Text): seq<Action> {
    if es == [] then []
    else
      var n := |es| - 1;
      var e := es[n];
      OwnWithStops(es[..n], k) + (if (e.Touch? || e.Stop?) && e.index == k then [e] else [])
  }

  lemma {:induction false} KeptStep(es: seq<Action>, k: Text)
    requires es != []
    ensures var n := |es| - 1;
      var e, before := es[n], es[..n];
      && (Touched(es, k) <==> Touched(before, k) || (e.Touch? && e.index == k))
      && (FinishAt(es, k) < |es| <==> FinishAt(before, k) < n || (e == Stop(k) && Touched(before, k)))
      && Kept(es, k) == Kept(before, k)
           + (if FinishAt(before, k) == n && e.Touch? && e.index == k then e.pieces else [])
  {
    var n := |es| - 1;
    var at := FinishAt(es[..n], k);
    assert Touched(es, k) <==> Touched(es[..n], k) || (es[n].Touch? && es[n].index == k) by {
      assert forall x :: x in TouchOrder(es) <==> Touched(es, x);
      hide TouchOrder;
      OrderStep(es, n);
      assert es[..n + 1] == es;
    }
    hide Touched; hide PiecesFor;
    if at < n {
      assert es[..n][..at] == es[..at];
      assert Kept(es[..n], k) + [] == Kept(es[..n], k);
    } else {
      assert es[..n][..n] == es[..n];
      StepFor(es, n, k);
      assert es[..n + 1] == es;
      assert PiecesFor(es[..n], k) + [] == PiecesFor(es[..n], k);
    }
  }

  lemma {:induction false} OwnKept(es: seq<Action>, k: Text)
    ensures var own := OwnWithStops(es, k);
      && Kept(own, k) == Kept(es, k) && (Touched(own, k) <==> Touched(es, k))
      && (FinishAt(own, k) < |own| <==> FinishAt(es, k) < |es|)
  {
    if es != [] {
      hide Kept; hide Touched; hide FinishAt;
      var n := |es| - 1;
      var own, e := OwnWithStops(es[..n], k), es[n];
      OwnKept(es[..n], k);
      KeptStep(es, k);
      if (e.Touch? || e.Stop?) && e.index == k {
        assert (own + [e])[..|own|] == own;
        KeptStep(own + [e], k);
      } else {
        assert own + [] == own;
        assert Kept(es[..n], k) + [] == Kept(es[..n], k);
      }
    }
  }

  /** With the stops of `k` in the same places among its touches, nothing else is needed: its block
      contents depend on no other event. */
  lemma {:induction false} OwnEventsDecide(es: seq<Action>, fs: seq<Action>, k: Text)
    returns (m: nat, n: nat, size: nat)
    requires Touched(es, k) && OwnWithStops(es, k) == OwnWithStops(fs, k)
    ensures m + size <= |Assemble(es)| && n + size <= |Assemble(fs)|
    ensures Assemble(es)[m..m + size] == FinalBlocks(es[..FinishAt(es, k)], k, m)
    ensures Assemble(fs)[n..n + size] == FinalBlocks(fs[..FinishAt(fs, k)], k, n)
    ensures SameContent(Assemble(es)[m..m + size], Assemble(fs)[n..n + size])
  {
    OwnKept(es, k);
    OwnKept(fs, k);
    hide FinishAt; hide PiecesFor; hide Assemble; hide Kept; hide OwnWithStops;
    m, n, size := KeptDecides(es, fs, k);
  }

  // ----- block identifiers -----

  /** No two blocks of a stream have the same identifier. */
  lemma {:induction false} BlockIdsDistinct(digest: string -> string, callId: string, es: seq<Action>, i: nat, j: nat)
    requires Clean(callId) && (forall v :: Clean(digest(v))) && i < |Assemble(es)| && j < |Assemble(es)|
    requires BlockId(digest, callId, SpyTables.Response, Assemble(es)[i].ordinal)
      == BlockId(digest, callId, SpyTables.Response, Assemble(es)[j].ordinal)
    ensures i == j
  {
    OrdinalsAreDense(es);
    hide Assemble; hide BlockId;
    BlockIdsInjective(digest, callId, SpyTables.Response, i, callId, SpyTables.Response, j);
  }
}
