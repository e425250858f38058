/** The streaming block assembler of both Bedrock normalizers: interleaved block events in,
    numbered blocks out. */
module StreamAssembler {
  import opened Bytes
  import opened Ordering
  import opened CanonicalJson
  import opened BedrockEvents

  datatype Content =
    | NoJson
    | Values(vs: seq<Json>)
    | ToolUse(start: Json, inputText: Text)
    | Payload(v: Json)

  /** `origin` is the event the provider path names. */
  datatype Block = Block(
    ordinal: nat, kind: Kind, origin: nat, role: Option<Text>, text: Option<Text>, content: Content)

  // ----- the reference: filter by index, then concatenate -----

  /** Everything the events contributed to block `k`, in arrival order. */
  function PiecesFor(es: seq<Action>, k: Text): seq<Piece> {
    if es == [] then []
    else
      var e := es[|es| - 1];
      PiecesFor(es[..|es| - 1], k) + (if e.Touch? && e.index == k then e.pieces else [])
  }

  function TextParts(ps: seq<Piece>): seq<Text> {
    if ps == [] then []
    else TextParts(ps[..|ps| - 1]) + (match ps[|ps| - 1] case TextPart(t) => [t] case _ => [])
  }

  function ThinkingParts(ps: seq<Piece>): seq<Text> {
    if ps == [] then []
    else ThinkingParts(ps[..|ps| - 1]) + (match ps[|ps| - 1] case ThinkingPart(t) => [t] case _ => [])
  }

  function ThinkingValues(ps: seq<Piece>): seq<Json> {
    if ps == [] then []
    else ThinkingValues(ps[..|ps| - 1]) + (match ps[|ps| - 1] case ThinkingValue(v) => [v] case _ => [])
  }

  function ToolInputs(ps: seq<Piece>): seq<Text> {
    if ps == [] then []
    else ToolInputs(ps[..|ps| - 1]) + (match ps[|ps| - 1] case ToolInput(t) => [t] case _ => [])
  }

  function UnknownValues(ps: seq<Piece>): seq<Json> {
    if ps == [] then []
    else UnknownValues(ps[..|ps| - 1]) + (match ps[|ps| - 1] case UnknownValue(v) => [v] case _ => [])
  }

  /** The last tool start wins. */
  function LastTool(ps: seq<Piece>): Option<Json> {
    if ps == [] then None
    else match ps[|ps| - 1]
      case ToolStart(v) => Some(v)
      case _ => LastTool(ps[..|ps| - 1])
  }

  /** The role announced last. */
  function RoleAfter(es: seq<Action>): Option<Text> {
    if es == [] then None
    else
      var e := es[|es| - 1];
      var before := RoleAfter(es[..|es| - 1]);
      if e.SetRole? && e.role.Some? then e.role else before
  }

  predicate Touched(es: seq<Action>, k: Text) {
    exists i :: 0 <= i < |es| && es[i].Touch? && es[i].index == k
  }

  /** The indexes in order of first touch, as a JavaScript Map keeps its keys. */
  function TouchOrder(es: seq<Action>): (ks: seq<Text>)
    ensures forall k :: k in ks <==> Touched(es, k)
    ensures forall i, j :: 0 <= i < j < |ks| ==> ks[i] != ks[j]
  {
    if es == [] then []
    else
      var n := |es| - 1;
      var ks := TouchOrder(es[..n]);
      assert forall k :: Touched(es, k) <==> Touched(es[..n], k) || (es[n].Touch? && es[n].index == k) by {
        forall k ensures Touched(es, k) <==> Touched(es[..n], k) || (es[n].Touch? && es[n].index == k) {
          if Touched(es[..n], k) {
            var i :| 0 <= i < n && es[..n][i].Touch? && es[..n][i].index == k;
            assert es[i].Touch? && es[i].index == k;
          }
          if Touched(es, k) {
            var i :| 0 <= i < |es| && es[i].Touch? && es[i].index == k;
            if i < n { assert es[..n][i].Touch? && es[..n][i].index == k; }
          }
        }
      }
      if es[n].Touch? && es[n].index !in ks then ks + [es[n].index] else ks
  }

  /** The event that first touched `k`. */
  function FirstTouch(es: seq<Action>, k: Text): nat {
    if es == [] then 0
    else
      var n := |es| - 1;
      if Touched(es[..n], k) then FirstTouch(es[..n], k) else n
  }

  /** The role of block `k`: the first one known while it was being touched. */
  function TouchRole(es: seq<Action>, k: Text): Option<Text> {
    if es == [] then None
    else
      var n := |es| - 1;
      var before := TouchRole(es[..n], k);
      if before.None? && es[n].Touch? && es[n].index == k then RoleAfter(es[..n]) else before
  }

  /** What a content block is made of, sorted by kind and in arrival order. */
  datatype Parts = Parts(
    text: seq<Text>, thinking: seq<Text>, thinkingValues: seq<Json>,
    toolStart: Option<Json>, toolInput: seq<Text>, unknown: seq<Json>)

  function PartsOf(ps: seq<Piece>): Parts {
    Parts(TextParts(ps), ThinkingParts(ps), ThinkingValues(ps), LastTool(ps), ToolInputs(ps), UnknownValues(ps))
  }

  function TextBlock(p: Parts, origin: nat, role: Option<Text>, n: nat): seq<Block> {
    if p.text == [] then [] else [Block(n, AssistantOutput, origin, role, Some(Concat(p.text)), NoJson)]
  }

  function ThinkingBlock(p: Parts, origin: nat, role: Option<Text>, n: nat): seq<Block> {
    if p.thinking == [] && p.thinkingValues == [] then []
    else [Block(n, Thinking, origin, role, if p.thinking == [] then None else Some(Concat(p.thinking)),
                if p.thinkingValues == [] then NoJson else Values(p.thinkingValues))]
  }

  function ToolBlock(p: Parts, origin: nat, role: Option<Text>, n: nat): seq<Block> {
    if p.toolStart.None? then []
    else [Block(n, ToolCallBlock, origin, role, None, ToolUse(p.toolStart.value, Concat(p.toolInput)))]
  }

  function UnknownBlock(p: Parts, origin: nat, role: Option<Text>, n: nat): seq<Block> {
    if p.unknown == [] then [] else [Block(n, Unknown, origin, role, None, Values(p.unknown))]
  }

  /** The blocks of one index, numbered from `n`. */
  function Render(p: Parts, origin: nat, role: Option<Text>, n: nat): (bs: seq<Block>)
    ensures forall i :: 0 <= i < |bs| ==> bs[i].ordinal == n + i
  {
    var b1 := TextBlock(p, origin, role, n);
    b1 + RenderRest(p, origin, role, n + |b1|)
  }

  function RenderRest(p: Parts, origin: nat, role: Option<Text>, n: nat): (bs: seq<Block>)
    ensures forall i :: 0 <= i < |bs| ==> bs[i].ordinal == n + i
  {
    var b2 := ThinkingBlock(p, origin, role, n);
    var b3 := ToolBlock(p, origin, role, n + |b2|);
    b2 + b3 + UnknownBlock(p, origin, role, n + |b2| + |b3|)
  }

  /** The blocks of index `k` once the events `es` have been seen. */
  function FinalBlocks(es: seq<Action>, k: Text, n: nat): (bs: seq<Block>)
    ensures forall i :: 0 <= i < |bs| ==> bs[i].ordinal == n + i
  {
    Render(PartsOf(PiecesFor(es, k)), FirstTouch(es, k), Or(TouchRole(es, k), RoleAfter(es)), n)
  }

  // ----- when blocks come out -----

  /** An output step: the envelope of event `at`, or index `k` finished on the events before `at`. */
  datatype Output = Envelope(at: nat) | Finish(k: Text, at: nat)

  function Finished(plan: seq<Output>): (ks: set<Text>) {
    set o | o in plan && o.Finish? :: o.k
  }

  /** The outputs caused by the events themselves. */
  function Live(es: seq<Action>): seq<Output> {
    if es == [] then []
    else
      var n := |es| - 1;
      var plan := Live(es[..n]);
      match es[n]
      case Stop(k) => if Touched(es[..n], k) && k !in Finished(plan) then plan + [Finish(k, n)] else plan
      case Emit(_, _, _) => plan + [Envelope(n)]
      case _ => plan
  }

  /** The outputs of the closing pass over the builders, in map order. */
  function Flush(ks: seq<Text>, done: set<Text>, at: nat): seq<Output> {
    if ks == [] then []
    else (if ks[0] in done then [] else [Finish(ks[0], at)]) + Flush(ks[1..], done, at)
  }

  function Plan(es: seq<Action>): seq<Output> {
    Live(es) + Flush(TouchOrder(es), Finished(Live(es)), |es|)
  }

  function RenderOutput(es: seq<Action>, o: Output, ordinal: nat): (bs: seq<Block>)
    ensures forall i :: 0 <= i < |bs| ==> bs[i].ordinal == ordinal + i
  {
    match o
    case Envelope(at) =>
      if at < |es| && es[at].Emit? then
        [Block(ordinal, es[at].kind, at, RoleAfter(es[..at]), es[at].text, Payload(es[at].payload))]
      else []
    case Finish(k, at) => FinalBlocks(if at <= |es| then es[..at] else es, k, ordinal)
  }

  function RenderPlan(es: seq<Action>, plan: seq<Output>): (bs: seq<Block>)
    ensures forall i :: 0 <= i < |bs| ==> bs[i].ordinal == i
  {
    if plan == [] then []
    else
      var bs := RenderPlan(es, plan[..|plan| - 1]);
      bs + RenderOutput(es, plan[|plan| - 1], |bs|)
  }

  /** What the normalizers return for a stream. */
  function Assemble(es: seq<Action>): seq<Block> {
    RenderPlan(es, Plan(es))
  }

  // ----- the state machine -----

  datatype Builder = Builder(origin: nat, role: Option<Text>, parts: Parts)

  const NO_PARTS: Parts := Parts([], [], [], None, [], [])

  function Push(b: Parts, p: Piece): Parts {
    match p
    case TextPart(t) => b.(text := b.text + [t])
    case ThinkingPart(t) => b.(thinking := b.thinking + [t])
    case ThinkingValue(v) => b.(thinkingValues := b.thinkingValues + [v])
    case ToolStart(v) => b.(toolStart := Some(v))
    case ToolInput(t) => b.(toolInput := b.toolInput + [t])
    case UnknownValue(v) => b.(unknown := b.unknown + [v])
  }

  lemma {:induction false} PushParts(ps: seq<Piece>, p: Piece)
    ensures PartsOf(ps + [p]) == Push(PartsOf(ps), p)
  {
    assert (ps + [p])[..|ps + [p]| - 1] == ps;
  }

  function PushAll(b: Parts, pieces: seq<Piece>): Parts {
    if pieces == [] then b else Push(PushAll(b, pieces[..|pieces| - 1]), pieces[|pieces| - 1])
  }

  lemma {:induction false} PushAllParts(ps: seq<Piece>, pieces: seq<Piece>)
    ensures PushAll(PartsOf(ps), pieces) == PartsOf(ps + pieces)
  {
    if pieces == [] {
      assert ps + pieces == ps;
    } else {
      var init, p := pieces[..|pieces| - 1], pieces[|pieces| - 1];
      PushAllParts(ps, init);
      PushParts(ps + init, p);
      assert ps + pieces == (ps + init) + [p];
    }
  }

  /** The local variables of the normalizer. */
  datatype Locals = Locals(
    blocks: seq<Block>, builders: map<Text, Builder>, keys: seq<Text>, finalized: set<Text>, role: Option<Text>)

  /** The builder of `k` after the events `es`. */
  function BuilderOf(es: seq<Action>, k: Text): Builder {
    Builder(FirstTouch(es, k), TouchRole(es, k), PartsOf(PiecesFor(es, k)))
  }

  /** The locals after `es`, having produced the outputs `plan` of the stream `all`. */
  ghost predicate Reflects(l: Locals, es: seq<Action>, all: seq<Action>, plan: seq<Output>) {
    && l.role == RoleAfter(es)
    && l.keys == TouchOrder(es)
    && (forall k :: k in l.builders <==> k in l.keys)
    && (forall k :: k in l.builders ==> l.builders[k] == BuilderOf(es, k))
    && l.finalized == Finished(plan)
    && l.blocks == RenderPlan(all, plan)
  }

  class Assembler {
    var blocks: seq<Block>
    var builders: map<Text, Builder>
    var keys: seq<Text>
    var finalized: set<Text>
    var ordinal: nat
    var responseRole: Option<Text>

    ghost function State(): Locals
      reads this
    {
      Locals(blocks, builders, keys, finalized, responseRole)
    }

    constructor ()
      ensures State() == Locals([], map[], [], {}, None) && ordinal == 0
    {
      blocks, builders, keys, finalized, ordinal, responseRole := [], map[], [], {}, 0, None;
    }

    method AddBlock(kind: Kind, origin: nat, role: Option<Text>, text: Option<Text>, content: Content)
      requires ordinal == |blocks|
      modifies this`blocks, this`ordinal
      ensures blocks == old(blocks) + [Block(|old(blocks)|, kind, origin, role, text, content)]
      ensures ordinal == |blocks|
    {
      blocks := blocks + [Block(ordinal, kind, origin, role, text, content)];
      ordinal := ordinal + 1;
    }

    method FinalizeBuilder(index: Text)
      requires ordinal == |blocks|
      modifies this`blocks, this`ordinal, this`finalized
      ensures ordinal == |blocks|
      ensures State() == Closing(old(State()), index)
    {
      if index in finalized || index !in builders {
        return;
      }
      var builder := builders[index];
      finalized := finalized + {index};
      AddParts(builder.parts, builder.origin, Or(builder.role, responseRole));
    }

    method AddParts(p: Parts, origin: nat, role: Option<Text>)
      requires ordinal == |blocks|
      modifies this`blocks, this`ordinal
      ensures ordinal == |blocks|
      ensures blocks == old(blocks) + Render(p, origin, role, |old(blocks)|)
    {
      hide TextBlock; hide RenderRest;
      ghost var was, n := blocks, ordinal;
      AddText(p, origin, role);
      ghost var b1 := TextBlock(p, origin, role, n);
      AddRest(p, origin, role);
      JoinAll(was, b1, RenderRest(p, origin, role, n + |b1|));
    }

    method AddText(p: Parts, origin: nat, role: Option<Text>)
      requires ordinal == |blocks|
      modifies this`blocks, this`ordinal
      ensures ordinal == |blocks|
      ensures blocks == old(blocks) + TextBlock(p, origin, role, |old(blocks)|)
    {
      if |p.text| > 0 {
        AddBlock(AssistantOutput, origin, role, Some(Concat(p.text)), NoJson);
      }
    }

    method AddRest(p: Parts, origin: nat, role: Option<Text>)
      requires ordinal == |blocks|
      modifies this`blocks, this`ordinal
      ensures ordinal == |blocks|
      ensures blocks == old(blocks) + RenderRest(p, origin, role, |old(blocks)|)
    {
      hide Concat;
      if |p.thinking| > 0 || |p.thinkingValues| > 0 {
        AddBlock(Thinking, origin, role, if |p.thinking| > 0 then Some(Concat(p.thinking)) else None,
                 if |p.thinkingValues| > 0 then Values(p.thinkingValues) else NoJson);
      }
      assert blocks == old(blocks) + ThinkingBlock(p, origin, role, |old(blocks)|);
      if p.toolStart.Some? {
        AddBlock(ToolCallBlock, origin, role, None, ToolUse(p.toolStart.value, Concat(p.toolInput)));
      }
      if |p.unknown| > 0 {
        AddBlock(Unknown, origin, role, None, Values(p.unknown));
      }
    }

    /** `getBuilder`, the role a touch adopts, and the pieces it pushes. */
    method TouchBuilder(index: Text, origin: nat, pieces: seq<Piece>)
      modifies this`builders, this`keys
      ensures State() == Touching(old(State()), index, origin, pieces)
    {
      if index !in builders {
        builders := builders[index := Builder(origin, responseRole, NO_PARTS)];
        keys := keys + [index];
      }
      var b := builders[index];
      if b.role.None? && responseRole.Some? {
        b := b.(role := responseRole);
      }
      ghost var start := b;
      var i := 0;
      while i < |pieces|
        invariant 0 <= i <= |pieces|
        invariant b == start.(parts := PushAll(start.parts, pieces[..i]))
      {
        assert pieces[..i + 1][..i] == pieces[..i];
        b := b.(parts := Push(b.parts, pieces[i]));
        i := i + 1;
      }
      assert pieces[..i] == pieces;
      builders := builders[index := b];
    }

    /** One turn of the event loop. */
    method Handle(e: Action, at: nat, ghost all: seq<Action>)
      requires at < |all| && all[at] == e
      requires Reflects(State(), all[..at], all, Live(all[..at])) && ordinal == |blocks|
      modifies this
      ensures Reflects(State(), all[..at + 1], all, Live(all[..at + 1])) && ordinal == |blocks|
    {
      hide RenderPlan; hide Reflects; hide Render; hide Live;
      ghost var before := State();
      match e {
        case SetRole(role) =>
          if role.Some? { responseRole := role; }
          RoleReflected(before, all, at);
        case Touch(index, pieces) =>
          TouchBuilder(index, at, pieces);
          TouchReflected(before, all, at);
        case Stop(index) =>
          FinalizeBuilder(index);
          StopReflected(before, all, at);
        case Emit(kind, text, payload) =>
          AddBlock(kind, at, responseRole, text, Payload(payload));
          EmitReflected(before, all, at);
        case Ignore =>
          IgnoreReflected(before, all, at);
      }
    }

    /** The closing pass over the builders, in map order. */
    method FinalizeAll(ghost es: seq<Action>)
      requires Reflects(State(), es, es, Live(es)) && ordinal == |blocks|
      modifies this
      ensures blocks == Assemble(es)
    {
      ghost var ks, done, plan := keys, finalized, Live(es);
      assert ks == TouchOrder(es) && done == Finished(Live(es));
      hide Reflects; hide RenderPlan; hide Live; hide TouchOrder; hide Closing; hide Finished;
      var j := 0;
      assert ks[0..] == ks;
      while j < |keys|
        invariant 0 <= j <= |keys| && keys == ks
        invariant Reflects(State(), es, es, plan) && ordinal == |blocks|
        invariant plan + Flush(ks[j..], done, |es|) == Live(es) + Flush(ks, done, |es|)
        invariant forall i :: j <= i < |ks| ==> (ks[i] in finalized <==> ks[i] in done)
      {
        ghost var before, k := State(), keys[j];
        FinalizeBuilder(keys[j]);
        FlushReflected(before, es, plan, k);
        ClosingEffect(before, k);
        FlushStep(es, ks, j, done, plan);
        TouchOrderDistinct(es);
        if k !in before.finalized {
          plan := plan + [Finish(k, |es|)];
        }
        j := j + 1;
      }
      assert plan + [] == plan;
      assert Reflects(State(), es, es, Plan(es));
      ReflectedBlocks(State(), es, Plan(es));
    }

    /** The whole normalizer: the event loop, then the closing pass. */
    method Run(es: seq<Action>)
      requires State() == Locals([], map[], [], {}, None) && ordinal == 0
      modifies this
      ensures blocks == Assemble(es)
    {
      var i := 0;
      assert es[..0] == [];
      NothingReflected(es);
      hide Reflects; hide Live; hide Assemble;
      while i < |es|
        invariant 0 <= i <= |es|
        invariant Reflects(State(), es[..i], es, Live(es[..i])) && ordinal == |blocks|
      {
        Handle(es[i], i, es);
        i := i + 1;
      }
      assert es[..i] == es;
      FinalizeAll(es);
    }
  }

  lemma {:induction false} NothingReflected(es: seq<Action>)
    ensures Reflects(Locals([], map[], [], {}, None), [], es, Live([]))
  {}

  lemma {:induction false} ReflectedBlocks(l: Locals, es: seq<Action>, plan: seq<Output>)
    requires Reflects(l, es, es, plan)
    ensures l.blocks == RenderPlan(es, plan)
  {}

  lemma {:induction false} ClosingEffect(l: Locals, k: Text)
    ensures Closing(l, k).keys == l.keys
    ensures forall x :: x != k ==> (x in Closing(l, k).finalized <==> x in l.finalized)
  {}

  lemma {:induction false} TouchOrderDistinct(es: seq<Action>)
    ensures forall i, j :: 0 <= i < j < |TouchOrder(es)| ==> TouchOrder(es)[i] != TouchOrder(es)[j]
  {}

  lemma {:induction false} FlushStep(es: seq<Action>, ks: seq<Text>, j: nat, done: set<Text>, plan: seq<Output>)
    requires j < |ks|
    ensures ks[j] in done ==> plan + Flush(ks[j + 1..], done, |es|) == plan + Flush(ks[j..], done, |es|)
    ensures ks[j] !in done ==>
      (plan + [Finish(ks[j], |es|)]) + Flush(ks[j + 1..], done, |es|) == plan + Flush(ks[j..], done, |es|)
  {
    assert ks[j..][1..] == ks[j + 1..];
    assert [] + Flush(ks[j + 1..], done, |es|) == Flush(ks[j + 1..], done, |es|);
  }

  lemma {:induction false} JoinAll(a: seq<Block>, b: seq<Block>, c: seq<Block>)
    ensures (a + b) + c == a + (b + c)
  {}

  function Touching(l: Locals, index: Text, origin: nat, pieces: seq<Piece>): Locals {
    var b := if index in l.builders then l.builders[index] else Builder(origin, l.role, NO_PARTS);
    l.(keys := if index in l.builders then l.keys else l.keys + [index],
       builders := l.builders[index := Builder(b.origin, Or(b.role, l.role), PushAll(b.parts, pieces))])
  }

  /** What finishing `index` does to the locals. */
  function Closing(l: Locals, index: Text): Locals {
    if index in l.finalized || index !in l.builders then l
    else
      var b := l.builders[index];
      l.(finalized := l.finalized + {index},
         blocks := l.blocks + Render(b.parts, b.origin, Or(b.role, l.role), |l.blocks|))
  }

  // ----- one event more -----

  lemma {:induction false} TouchedPrefix(es: seq<Action>, n: nat, k: Text)
    requires n <= |es| && Touched(es[..n], k)
    ensures Touched(es, k)
  {
    var i :| 0 <= i < n && es[..n][i].Touch? && es[..n][i].index == k;
    assert es[i].Touch? && es[i].index == k;
  }

  lemma {:induction false} UntouchedIsEmpty(es: seq<Action>, k: Text)
    requires !Touched(es, k)
    ensures PiecesFor(es, k) == [] && TouchRole(es, k) == None
  {
    if es != [] {
      var n := |es| - 1;
      if Touched(es[..n], k) { TouchedPrefix(es, n, k); }
      else { UntouchedIsEmpty(es[..n], k); }
    }
  }

  /** How one more event moves the reference values. */
  lemma {:induction false} StepFor(all: seq<Action>, at: nat, k: Text)
    requires at < |all|
    ensures var es, es', e := all[..at], all[..at + 1], all[at];
      && PiecesFor(es', k) == PiecesFor(es, k) + (if e.Touch? && e.index == k then e.pieces else [])
      && TouchRole(es', k) ==
           (if TouchRole(es, k).None? && e.Touch? && e.index == k then RoleAfter(es) else TouchRole(es, k))
      && FirstTouch(es', k) == (if Touched(es, k) then FirstTouch(es, k) else at)
  {
    assert all[..at + 1][..at] == all[..at];
  }

  lemma {:induction false} OrderStep(all: seq<Action>, at: nat)
    requires at < |all|
    ensures var es, es', e := all[..at], all[..at + 1], all[at];
      && RoleAfter(es') == (if e.SetRole? && e.role.Some? then e.role else RoleAfter(es))
      && TouchOrder(es')
         == (if e.Touch? && e.index !in TouchOrder(es) then TouchOrder(es) + [e.index] else TouchOrder(es))
      && Live(es') == match e
           case Stop(k) =>
             if Touched(es, k) && k !in Finished(Live(es)) then Live(es) + [Finish(k, at)] else Live(es)
           case Emit(_, _, _) => Live(es) + [Envelope(at)]
           case _ => Live(es)
  {
    assert all[..at + 1][..at] == all[..at];
  }

  /** Events other than touches leave every builder as it is. */
  lemma {:induction false} BuildersKept(all: seq<Action>, at: nat)
    requires at < |all| && !all[at].Touch?
    ensures forall k :: k in TouchOrder(all[..at]) ==> BuilderOf(all[..at + 1], k) == BuilderOf(all[..at], k)
  {
    forall k | k in TouchOrder(all[..at]) ensures BuilderOf(all[..at + 1], k) == BuilderOf(all[..at], k) {
      StepFor(all, at, k);
      assert PiecesFor(all[..at], k) + [] == PiecesFor(all[..at], k);
    }
  }

  lemma {:induction false} IgnoreReflected(l: Locals, all: seq<Action>, at: nat)
    requires at < |all| && all[at].Ignore?
    requires Reflects(l, all[..at], all, Live(all[..at]))
    ensures Reflects(l, all[..at + 1], all, Live(all[..at + 1]))
  {
    hide RenderPlan; hide Live; hide TouchOrder; hide BuilderOf; hide RoleAfter;
    OrderStep(all, at);
    BuildersKept(all, at);
  }

  lemma {:induction false} RoleReflected(l: Locals, all: seq<Action>, at: nat)
    requires at < |all| && all[at].SetRole?
    requires Reflects(l, all[..at], all, Live(all[..at]))
    ensures Reflects(l.(role := Or(all[at].role, l.role)), all[..at + 1], all, Live(all[..at + 1]))
  {
    hide RenderPlan; hide Live; hide TouchOrder; hide BuilderOf; hide RoleAfter;
    OrderStep(all, at);
    BuildersKept(all, at);
  }

  lemma {:induction false} TouchReflected(l: Locals, all: seq<Action>, at: nat)
    requires at < |all| && all[at].Touch?
    requires Reflects(l, all[..at], all, Live(all[..at]))
    ensures Reflects(Touching(l, all[at].index, at, all[at].pieces), all[..at + 1], all, Live(all[..at + 1]))
  {
    hide RenderPlan; hide Live; hide TouchOrder; hide RoleAfter; hide PiecesFor; hide TouchRole; hide FirstTouch;
    hide PartsOf; hide PushAll;
    var es, es', e := all[..at], all[..at + 1], all[at];
    var l' := Touching(l, e.index, at, e.pieces);
    OrderStep(all, at);
    forall k | k in l'.builders ensures l'.builders[k] == BuilderOf(es', k) {
      StepFor(all, at, k);
      if k == e.index {
        PushAllParts(PiecesFor(es, k), e.pieces);
        if k !in l.builders { UntouchedIsEmpty(es, k); NoParts(); }
      } else {
        assert PiecesFor(es, k) + [] == PiecesFor(es, k);
      }
    }
  }

  lemma {:induction false} NoParts()
    ensures PartsOf([]) == NO_PARTS
  {}

  /** Finishing an index the plan has not finished adds exactly its blocks. */
  lemma {:induction false} FinishRenders(l: Locals, es: seq<Action>, all: seq<Action>, plan: seq<Output>, k: Text)
    requires Reflects(l, es, all, plan) && |es| <= |all| && all[..|es|] == es
    ensures k in l.builders && k !in l.finalized ==> Reflects(Closing(l, k), es, all, plan + [Finish(k, |es|)])
    ensures k !in l.builders || k in l.finalized ==> Closing(l, k) == l
  {
    hide TouchOrder; hide RoleAfter; hide PiecesFor; hide TouchRole; hide FirstTouch; hide PartsOf; hide Render;
    var plan' := plan + [Finish(k, |es|)];
    assert plan'[..|plan'| - 1] == plan;
    assert Finished(plan') == Finished(plan) + {k};
  }

  lemma {:induction false} StopReflected(l: Locals, all: seq<Action>, at: nat)
    requires at < |all| && all[at].Stop?
    requires Reflects(l, all[..at], all, Live(all[..at]))
    ensures Reflects(Closing(l, all[at].index), all[..at + 1], all, Live(all[..at + 1]))
  {
    hide RenderPlan; hide Live; hide TouchOrder; hide BuilderOf; hide RoleAfter; hide Render;
    OrderStep(all, at);
    BuildersKept(all, at);
    FinishRenders(l, all[..at], all, Live(all[..at]), all[at].index);
  }

  lemma {:induction false} EmitReflected(l: Locals, all: seq<Action>, at: nat)
    requires at < |all| && all[at].Emit?
    requires Reflects(l, all[..at], all, Live(all[..at]))
    ensures var e := all[at];
      Reflects(l.(blocks := l.blocks + [Block(|l.blocks|, e.kind, at, l.role, e.text, Payload(e.payload))]),
               all[..at + 1], all, Live(all[..at + 1]))
  {
    hide Live; hide TouchOrder; hide BuilderOf; hide RoleAfter; hide FinalBlocks;
    OrderStep(all, at);
    BuildersKept(all, at);
    var plan := Live(all[..at]);
    var plan' := plan + [Envelope(at)];
    assert plan'[..|plan'| - 1] == plan;
    assert Finished(plan') == Finished(plan);
  }

  lemma {:induction false} FlushReflected(l: Locals, es: seq<Action>, plan: seq<Output>, k: Text)
    requires Reflects(l, es, es, plan) && k in l.keys
    ensures Reflects(Closing(l, k), es, es, if k in l.finalized then plan else plan + [Finish(k, |es|)])
  {
    hide RenderPlan; hide TouchOrder; hide BuilderOf; hide RoleAfter; hide Render;
    assert es[..|es|] == es;
    FinishRenders(l, es, es, plan, k);
  }
}
