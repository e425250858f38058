/** The output of the block assembler, field by field: which blocks there are, what each of them holds,
    and in which order they stand. */
module StreamOutput {
  import opened Bytes
  import opened Ordering
  import opened CanonicalJson
  import opened BedrockEvents
  import opened StreamAssembler
  import opened StreamTheorems

  // ----- what the events brought -----

  predicate Touches(e: Action, k: Text) {
    e.Touch? && e.index == k
  }

  /** The pieces brought for `k`, from the first event on. */
  function Brought(es: seq<Action>, k: Text): seq<Piece> {
    if es == [] then [] else (if Touches(es[0], k) then es[0].pieces else []) + Brought(es[1..], k)
  }

  /** What each piece gives, joined in order. */
  function Joined<T>(ps: seq<Piece>, part: Piece -> seq<T>): seq<T> {
    if ps == [] then [] else part(ps[0]) + Joined(ps[1..], part)
  }

  function TextOf(p: Piece): Text {
    if p.TextPart? then p.t else []
  }

  function ThoughtOf(p: Piece): Text {
    if p.ThinkingPart? then p.t else []
  }

  function InputOf(p: Piece): Text {
    if p.ToolInput? then p.t else []
  }

  function ThoughtJson(p: Piece): seq<Json> {
    if p.ThinkingValue? then [p.v] else []
  }

  function UnknownJson(p: Piece): seq<Json> {
    if p.UnknownValue? then [p.v] else []
  }

  ghost predicate LastStart(ps: seq<Piece>, v: Json) {
    exists i :: 0 <= i < |ps| && ps[i] == ToolStart(v) && forall j :: i < j < |ps| ==> !ps[j].ToolStart?
  }

  // ----- roles and origins -----

  predicate Announces(e: Action) {
    e.SetRole? && e.role.Some?
  }

  /** `r` is the role announced last before event `at`. */
  ghost predicate RoleIs(es: seq<Action>, at: nat, r: Option<Text>)
    requires at <= |es|
  {
    match r
    case None => forall i :: 0 <= i < at ==> !Announces(es[i])
    case Some(_) =>
      exists i :: 0 <= i < at && es[i] == SetRole(r) && forall j :: i < j < at ==> !Announces(es[j])
  }

  /** Event `i` touches `k` while a role is known. */
  ghost predicate Adopts(es: seq<Action>, k: Text, i: nat) {
    i < |es| && Touches(es[i], k) && exists j :: 0 <= j < i && Announces(es[j])
  }

  /** The role of a block of `k` that is finished before event `at`: that of the first touch that knows
      one, else the one known at the end. */
  ghost predicate StretchRole(es: seq<Action>, k: Text, at: nat, r: Option<Text>)
    requires at <= |es|
  {
    || (exists i: nat :: i < at && Adopts(es, k, i) && RoleIs(es, i, r) && forall j: nat :: j < i ==> !Adopts(es, k, j))
    || (RoleIs(es, at, r) && forall j: nat :: j < at ==> !Adopts(es, k, j))
  }

  predicate FirstTouched(es: seq<Action>, k: Text, i: nat) {
    i < |es| && Touches(es[i], k) && forall j :: 0 <= j < i ==> !Touches(es[j], k)
  }

  // ----- one index -----

  predicate Has(ps: seq<Piece>, kind: Kind) {
    exists p :: p in ps && KindOf(p) == Some(kind)
  }

  predicate HasThoughtText(ps: seq<Piece>) {
    exists p :: p in ps && p.ThinkingPart?
  }

  predicate HasThoughtJson(ps: seq<Piece>) {
    exists p :: p in ps && p.ThinkingValue?
  }

  /** The kind of block a piece makes there be; tool input alone makes none. */
  function KindOf(p: Piece): Option<Kind> {
    match p
    case TextPart(_) => Some(AssistantOutput)
    case ThinkingPart(_) => Some(Thinking)
    case ThinkingValue(_) => Some(Thinking)
    case ToolStart(_) => Some(ToolCallBlock)
    case ToolInput(_) => None
    case UnknownValue(_) => Some(Unknown)
  }

  /** The kinds of blocks of one index, in order. */
  function Kinds(ps: seq<Piece>): seq<Kind> {
    (if Has(ps, AssistantOutput) then [AssistantOutput] else []) + (if Has(ps, Thinking) then [Thinking] else [])
      + (if Has(ps, ToolCallBlock) then [ToolCallBlock] else []) + (if Has(ps, Unknown) then [Unknown] else [])
  }

  /** The block holds all pieces of its kind, in the order in which they came. */
  ghost predicate Shows(b: Block, ps: seq<Piece>) {
    match b.kind
    case AssistantOutput => b.text == Some(Joined(ps, TextOf)) && b.content == NoJson
    case Thinking =>
      && b.text == (if HasThoughtText(ps) then Some(Joined(ps, ThoughtOf)) else None)
      && b.content == (if HasThoughtJson(ps) then Values(Joined(ps, ThoughtJson)) else NoJson)
    case ToolCallBlock =>
      && b.text == None && b.content.ToolUse?
      && LastStart(ps, b.content.start) && b.content.inputText == Joined(ps, InputOf)
    case Unknown => b.text == None && b.content == Values(Joined(ps, UnknownJson))
    case ProviderEnvelope => false
  }

  /** The blocks of `k`, finished on the events before `at`. */
  ghost predicate IsStretch(es: seq<Action>, k: Text, at: nat, bs: seq<Block>)
    requires at <= |es|
  {
    var ps := Brought(es[..at], k);
    && |bs| == |Kinds(ps)|
    && forall i :: 0 <= i < |bs| ==>
         && bs[i].kind == Kinds(ps)[i] && Shows(bs[i], ps)
         && FirstTouched(es, k, bs[i].origin) && StretchRole(es, k, at, bs[i].role)
  }

  // ----- one event that is a block by itself -----

  ghost predicate IsEnvelope(es: seq<Action>, at: nat, bs: seq<Block>) {
    && at < |es| && es[at].Emit? && |bs| == 1
    && bs[0].kind == es[at].kind && bs[0].text == es[at].text && bs[0].content == Payload(es[at].payload)
    && bs[0].origin == at && RoleIs(es, at, bs[0].role)
  }

  // ----- the order of the output -----

  /** `at` is the first stop of `k` after a touch of it, or the end of the stream. */
  ghost predicate IsFinish(es: seq<Action>, k: Text, at: nat) {
    && at <= |es| && (at < |es| ==> Stops(es, k, at)) && forall i: nat :: i < at ==> !Stops(es, k, i)
  }

  /** By the event that causes them; indexes still open in the end come in the order of first touch. */
  ghost predicate Before(es: seq<Action>, o: Output, o': Output) {
    || o.at < o'.at
    || (o.at == o'.at == |es| && o.Finish? && o'.Finish?
        && exists i: nat, j: nat :: i < j && FirstTouched(es, o.k, i) && FirstTouched(es, o'.k, j))
  }

  /** Every event that is a block by itself, and every touched index when it is finished; once, in order. */
  ghost predicate Schedule(es: seq<Action>, plan: seq<Output>) {
    && (forall o :: o in plan && o.Envelope? ==> o.at < |es| && es[o.at].Emit?)
    && (forall i :: 0 <= i < |es| && es[i].Emit? ==> Envelope(i) in plan)
    && (forall o :: o in plan && o.Finish? ==> Touched(es, o.k) && IsFinish(es, o.k, o.at))
    && (forall k :: Touched(es, k) ==> exists o :: o in plan && o.Finish? && o.k == k)
    && forall i, j :: 0 <= i < j < |plan| ==> Before(es, plan[i], plan[j])
  }

  ghost predicate IsPart(es: seq<Action>, o: Output, bs: seq<Block>) {
    o.at <= |es| && if o.Envelope? then IsEnvelope(es, o.at, bs) else IsStretch(es, o.k, o.at, bs)
  }

  // ----- the reference values are these -----

  lemma {:induction false} BroughtMore(es: seq<Action>, e: Action, k: Text)
    ensures Brought(es + [e], k) == Brought(es, k) + (if Touches(e, k) then e.pieces else [])
    decreases |es|
  {
    if es == [] {
      assert [e][1..] == [];
      assert es + [e] == [e];
    } else {
      assert (es + [e])[0] == es[0] && (es + [e])[1..] == es[1..] + [e];
      BroughtMore(es[1..], e, k);
    }
  }

  lemma {:induction false} BroughtIs(es: seq<Action>, k: Text)
    ensures Brought(es, k) == PiecesFor(es, k)
  {
    if es != [] {
      var n := |es| - 1;
      BroughtIs(es[..n], k);
      BroughtMore(es[..n], es[n], k);
      assert es[..n] + [es[n]] == es;
    }
  }

  lemma {:induction false} JoinedMore<T>(ps: seq<Piece>, p: Piece, part: Piece -> seq<T>)
    ensures Joined(ps + [p], part) == Joined(ps, part) + part(p)
    decreases |ps|
  {
    if ps == [] {
      assert [p][1..] == [] && ps + [p] == [p];
    } else {
      assert (ps + [p])[0] == ps[0] && (ps + [p])[1..] == ps[1..] + [p];
      JoinedMore(ps[1..], p, part);
    }
  }

  lemma {:induction false} ConcatOne(xs: seq<Text>, x: Text)
    ensures Concat(xs + [x]) == Concat(xs) + x && Concat(xs + []) == Concat(xs)
  {
    ConcatAppend(xs, [x]);
    assert [x][1..] == [] && x + [] == x;
    assert Concat([x]) == x;
    assert xs + [] == xs;
  }

  lemma {:induction false} JoinedIs(ps: seq<Piece>)
    ensures Joined(ps, TextOf) == Concat(TextParts(ps)) && Joined(ps, ThoughtOf) == Concat(ThinkingParts(ps))
    ensures Joined(ps, InputOf) == Concat(ToolInputs(ps))
    ensures Joined(ps, ThoughtJson) == ThinkingValues(ps) && Joined(ps, UnknownJson) == UnknownValues(ps)
  {
    if ps != [] {
      var n := |ps| - 1;
      var p := ps[n];
      JoinedIs(ps[..n]);
      assert ps[..n] + [p] == ps;
      JoinedMore(ps[..n], p, TextOf);
      JoinedMore(ps[..n], p, ThoughtOf);
      JoinedMore(ps[..n], p, InputOf);
      JoinedMore(ps[..n], p, ThoughtJson);
      JoinedMore(ps[..n], p, UnknownJson);
      ConcatOne(TextParts(ps[..n]), TextOf(p));
      ConcatOne(ThinkingParts(ps[..n]), ThoughtOf(p));
      ConcatOne(ToolInputs(ps[..n]), InputOf(p));
      hide Joined; hide Concat;
    }
  }

  /** What there is of each kind. */
  ghost predicate PartsHave(ps: seq<Piece>) {
    && (TextParts(ps) != [] <==> Has(ps, AssistantOutput))
    && (ThinkingParts(ps) != [] <==> HasThoughtText(ps))
    && (ThinkingValues(ps) != [] <==> HasThoughtJson(ps))
    && (Has(ps, Thinking) <==> ThinkingParts(ps) != [] || ThinkingValues(ps) != [])
    && (UnknownValues(ps) != [] <==> Has(ps, Unknown))
  }

  lemma {:induction false} HasMore(ps: seq<Piece>, p: Piece, kind: Kind)
    ensures Has(ps + [p], kind) <==> Has(ps, kind) || KindOf(p) == Some(kind)
  {
    assert p in ps + [p];
    assert forall q :: q in ps + [p] <==> q in ps || q == p;
  }

  lemma {:induction false} SomeMore(ps: seq<Piece>, p: Piece)
    ensures HasThoughtText(ps + [p]) <==> HasThoughtText(ps) || p.ThinkingPart?
    ensures HasThoughtJson(ps + [p]) <==> HasThoughtJson(ps) || p.ThinkingValue?
  {
    assert p in ps + [p];
    assert forall q :: q in ps + [p] <==> q in ps || q == p;
  }

  lemma {:induction false} TextPresent(ps: seq<Piece>)
    ensures TextParts(ps) != [] <==> Has(ps, AssistantOutput)
    ensures UnknownValues(ps) != [] <==> Has(ps, Unknown)
  {
    if ps != [] {
      var n := |ps| - 1;
      TextPresent(ps[..n]);
      assert ps[..n] + [ps[n]] == ps;
      HasMore(ps[..n], ps[n], AssistantOutput);
      HasMore(ps[..n], ps[n], Unknown);
      hide Has;
    }
  }

  lemma {:induction false} ThoughtPresent(ps: seq<Piece>)
    ensures ThinkingParts(ps) != [] <==> HasThoughtText(ps)
    ensures ThinkingValues(ps) != [] <==> HasThoughtJson(ps)
  {
    hide HasThoughtText; hide HasThoughtJson;
    if ps == [] {
      NoThought();
    } else {
      var n := |ps| - 1;
      ThoughtPresent(ps[..n]);
      assert ps[..n] + [ps[n]] == ps;
      SomeMore(ps[..n], ps[n]);
    }
  }

  lemma {:induction false} NoThought()
    ensures !HasThoughtText([]) && !HasThoughtJson([])
  {}

  lemma {:induction false} PartsPresent(ps: seq<Piece>)
    ensures PartsHave(ps)
  {
    TextPresent(ps);
    ThoughtPresent(ps);
    assert forall p :: p in ps && KindOf(p) == Some(Thinking) ==> p.ThinkingPart? || p.ThinkingValue?;
    assert forall p :: p in ps && p.ThinkingPart? ==> KindOf(p) == Some(Thinking);
    assert forall p :: p in ps && p.ThinkingValue? ==> KindOf(p) == Some(Thinking);
    hide TextParts; hide ThinkingParts; hide ThinkingValues; hide UnknownValues;
  }

  lemma {:induction false} LastToolIs(ps: seq<Piece>)
    ensures LastTool(ps).Some? <==> Has(ps, ToolCallBlock)
    ensures LastTool(ps).Some? ==> LastStart(ps, LastTool(ps).value)
  {
    if ps != [] {
      var n := |ps| - 1;
      var p := ps[n];
      LastToolIs(ps[..n]);
      assert ps[..n] + [p] == ps;
      HasMore(ps[..n], p, ToolCallBlock);
      hide Has;
      if p.ToolStart? {
        assert LastStart(ps, p.v);
      } else if LastTool(ps).Some? {
        StillLast(ps[..n], p, LastTool(ps).value);
      }
    }
  }

  lemma {:induction false} StillLast(ps: seq<Piece>, p: Piece, v: Json)
    requires LastStart(ps, v) && !p.ToolStart?
    ensures LastStart(ps + [p], v)
  {
    var i :| 0 <= i < |ps| && ps[i] == ToolStart(v) && forall j :: i < j < |ps| ==> !ps[j].ToolStart?;
    assert (ps + [p])[i] == ToolStart(v);
    assert forall j :: i < j < |ps| + 1 ==> !(ps + [p])[j].ToolStart?;
  }

  // ----- the blocks of one index -----

  /** Part of a stretch: blocks of these kinds, with this origin and role. */
  ghost predicate Run(bs: seq<Block>, kinds: seq<Kind>, ps: seq<Piece>, origin: nat, role: Option<Text>) {
    |bs| == |kinds| && forall i :: 0 <= i < |bs| ==>
      bs[i].kind == kinds[i] && Shows(bs[i], ps) && bs[i].origin == origin && bs[i].role == role
  }

  lemma {:induction false} RunsJoin(bs: seq<Block>, bs': seq<Block>, kinds: seq<Kind>, kinds': seq<Kind>,
                                    ps: seq<Piece>, origin: nat, role: Option<Text>)
    requires Run(bs, kinds, ps, origin, role) && Run(bs', kinds', ps, origin, role)
    ensures Run(bs + bs', kinds + kinds', ps, origin, role)
  {
    hide Shows;
  }

  lemma {:induction false} EachBlock(ps: seq<Piece>, origin: nat, role: Option<Text>, n: nat)
    ensures var p := PartsOf(ps);
      && Run(TextBlock(p, origin, role, n), if Has(ps, AssistantOutput) then [AssistantOutput] else [], ps, origin,
             role)
      && Run(ThinkingBlock(p, origin, role, n), if Has(ps, Thinking) then [Thinking] else [], ps, origin, role)
      && Run(ToolBlock(p, origin, role, n), if Has(ps, ToolCallBlock) then [ToolCallBlock] else [], ps, origin, role)
      && Run(UnknownBlock(p, origin, role, n), if Has(ps, Unknown) then [Unknown] else [], ps, origin, role)
  {
    JoinedIs(ps);
    PartsPresent(ps);
    LastToolIs(ps);
    hide Has; hide HasThoughtText; hide HasThoughtJson; hide Joined; hide Concat; hide TextParts; hide ThinkingParts;
    hide ThinkingValues; hide ToolInputs; hide UnknownValues; hide LastTool; hide LastStart;
  }

  lemma {:induction false} RenderRuns(ps: seq<Piece>, origin: nat, role: Option<Text>, n: nat)
    ensures Run(Render(PartsOf(ps), origin, role, n), Kinds(ps), ps, origin, role)
  {
    hide Run; hide Has; hide PartsOf; hide TextBlock; hide ThinkingBlock; hide ToolBlock; hide UnknownBlock;
    var p := PartsOf(ps);
    var b1 := TextBlock(p, origin, role, n);
    var b2 := ThinkingBlock(p, origin, role, n + |b1|);
    var b3 := ToolBlock(p, origin, role, n + |b1| + |b2|);
    var b4 := UnknownBlock(p, origin, role, n + |b1| + |b2| + |b3|);
    EachBlock(ps, origin, role, n);
    EachBlock(ps, origin, role, n + |b1|);
    EachBlock(ps, origin, role, n + |b1| + |b2|);
    EachBlock(ps, origin, role, n + |b1| + |b2| + |b3|);
    var k1 := if Has(ps, AssistantOutput) then [AssistantOutput] else [];
    var k2 := if Has(ps, Thinking) then [Thinking] else [];
    var k3 := if Has(ps, ToolCallBlock) then [ToolCallBlock] else [];
    var k4 := if Has(ps, Unknown) then [Unknown] else [];
    RunsJoin(b1, b2, k1, k2, ps, origin, role);
    RunsJoin(b1 + b2, b3, k1 + k2, k3, ps, origin, role);
    RunsJoin(b1 + b2 + b3, b4, k1 + k2 + k3, k4, ps, origin, role);
    assert b1 + b2 + b3 + b4 == b1 + (b2 + b3 + b4);
  }

  // ----- roles and origins -----

  lemma {:induction false} RoleAfterIs(es: seq<Action>, at: nat)
    requires at <= |es|
    ensures RoleIs(es, at, RoleAfter(es[..at]))
  {
    if at == 0 {
    } else {
      RoleAfterIs(es, at - 1);
      assert es[..at][..at - 1] == es[..at - 1] && es[..at][at - 1] == es[at - 1];
      var r := RoleAfter(es[..at - 1]);
      if Announces(es[at - 1]) {
        assert es[at - 1] == SetRole(es[at - 1].role);
      } else if r.Some? {
        var i :| 0 <= i < at - 1 && es[i] == SetRole(r) && forall j :: i < j < at - 1 ==> !Announces(es[j]);
        assert es[i] == SetRole(r) && forall j :: i < j < at ==> !Announces(es[j]);
      }
    }
  }

  lemma {:induction false} AdoptsIff(es: seq<Action>, k: Text, i: nat)
    requires i < |es|
    ensures Adopts(es, k, i) <==> Touches(es[i], k) && RoleAfter(es[..i]).Some?
  {
    RoleAfterIs(es, i);
    hide RoleAfter;
  }

  /** What `TouchRole` holds before event `at`. */
  lemma {:induction false} TouchRoleIs(es: seq<Action>, k: Text, at: nat)
    requires at <= |es|
    ensures var r := TouchRole(es[..at], k);
      if r.Some? then
        exists i: nat ::
          i < at && Adopts(es, k, i) && RoleIs(es, i, r) && forall j: nat :: j < i ==> !Adopts(es, k, j)
      else forall j: nat :: j < at ==> !Adopts(es, k, j)
  {
    if at > 0 {
      var n := at - 1;
      TouchRoleIs(es, k, n);
      AdoptsIff(es, k, n);
      RoleAfterIs(es, n);
      assert es[..at][..n] == es[..n] && es[..at][n] == es[n];
      hide Adopts; hide RoleIs; hide RoleAfter;
      if TouchRole(es[..n], k).Some? {
        assert TouchRole(es[..at], k) == TouchRole(es[..n], k);
      }
    }
  }

  lemma {:induction false} StretchRoleIs(es: seq<Action>, k: Text, at: nat)
    requires at <= |es|
    ensures StretchRole(es, k, at, Or(TouchRole(es[..at], k), RoleAfter(es[..at])))
  {
    hide Adopts; hide RoleIs; hide RoleAfter; hide TouchRole;
    TouchRoleIs(es, k, at);
    RoleAfterIs(es, at);
  }

  lemma {:induction false} LastTouches(es: seq<Action>, k: Text)
    requires Touched(es, k)
    ensures es != [] && (Touched(es[..|es| - 1], k) || Touches(es[|es| - 1], k))
  {
    hide Kept; hide FinishAt;
    KeptStep(es, k);
  }

  lemma {:induction false} FirstTouchIs(es: seq<Action>, k: Text, at: nat)
    requires at <= |es| && Touched(es[..at], k)
    ensures FirstTouched(es, k, FirstTouch(es[..at], k))
    decreases at
  {
    LastTouches(es[..at], k);
    var n := at - 1;
    assert es[..at][..n] == es[..n] && es[..at][n] == es[n];
    if Touched(es[..n], k) {
      hide Touched; hide FirstTouched;
      FirstTouchIs(es, k, n);
    } else {
      forall j | 0 <= j < n ensures !Touches(es[j], k) { assert es[..n][j] == es[j]; }
    }
  }

  lemma {:induction false} StretchIs(es: seq<Action>, k: Text, at: nat, n: nat)
    requires at <= |es| && Touched(es[..at], k)
    ensures IsStretch(es, k, at, FinalBlocks(es[..at], k, n))
  {
    hide Kinds; hide Shows; hide PartsOf; hide Render; hide StretchRole; hide FirstTouched; hide TouchRole;
    hide RoleAfter;
    hide FirstTouch; hide Touched;
    var ps := Brought(es[..at], k);
    BroughtIs(es[..at], k);
    RenderRuns(ps, FirstTouch(es[..at], k), Or(TouchRole(es[..at], k), RoleAfter(es[..at])), n);
    StretchRoleIs(es, k, at);
    FirstTouchIs(es, k, at);
  }

  // ----- the order -----

  lemma {:induction false} LiveOrder(es: seq<Action>)
    ensures forall o :: o in Live(es) ==> o.at < |es| && (o.Envelope? ==> es[o.at].Emit?)
    ensures forall i :: 0 <= i < |es| && es[i].Emit? ==> Envelope(i) in Live(es)
    ensures forall i, j :: 0 <= i < j < |Live(es)| ==> Live(es)[i].at < Live(es)[j].at
  {
    if es != [] {
      var n := |es| - 1;
      LiveOrder(es[..n]);
      hide Touched; hide Finished;
    }
  }

  lemma {:induction false} TouchOrderSorted(es: seq<Action>, i: nat, j: nat)
    requires i < j < |TouchOrder(es)|
    ensures TouchedInOrder(es, TouchOrder(es)[i], TouchOrder(es)[j])
  {
    var n := |es| - 1;
    var ks := TouchOrder(es[..n]);
    assert es[..n + 1] == es;
    OrderStep(es, n);
    assert forall k :: k in ks ==> Touched(es[..n], k);
    if j < |ks| {
      TouchOrderSorted(es[..n], i, j);
      var x: nat, y: nat :| x < y && FirstTouched(es[..n], ks[i], x) && FirstTouched(es[..n], ks[j], y);
      StillFirst(es, ks[i], x);
      StillFirst(es, ks[j], y);
    } else {
      NewlyTouched(es);
      assert Touched(es[..n], ks[i]);
      assert es[..n][..n] == es[..n];
      FirstTouchIs(es[..n], ks[i], n);
      StillFirst(es, ks[i], FirstTouch(es[..n], ks[i]));
    }
  }

  ghost predicate TouchedInOrder(es: seq<Action>, k: Text, k': Text) {
    exists i: nat, j: nat :: i < j && FirstTouched(es, k, i) && FirstTouched(es, k', j)
  }

  lemma {:induction false} StillFirst(es: seq<Action>, k: Text, i: nat)
    requires es != [] && FirstTouched(es[..|es| - 1], k, i)
    ensures FirstTouched(es, k, i) && i < |es| - 1
  {
    assert forall j :: 0 <= j <= i ==> es[..|es| - 1][j] == es[j];
  }

  lemma {:induction false} NewlyTouched(es: seq<Action>)
    requires es != [] && es[|es| - 1].Touch? && es[|es| - 1].index !in TouchOrder(es[..|es| - 1])
    ensures FirstTouched(es, es[|es| - 1].index, |es| - 1)
  {
    var n := |es| - 1;
    assert !Touched(es[..n], es[n].index);
    hide TouchOrder;
    forall j | 0 <= j < n ensures !Touches(es[j], es[n].index) { assert es[..n][j] == es[j]; }
  }

  lemma {:induction false} FlushOrder(ks: seq<Text>, done: set<Text>, at: nat)
    ensures forall o :: o in Flush(ks, done, at) ==> o.Finish? && o.at == at && o.k in ks
    ensures forall i, j :: 0 <= i < j < |Flush(ks, done, at)| ==>
      InSequence(ks, Flush(ks, done, at)[i].k, Flush(ks, done, at)[j].k)
    decreases |ks|
  {
    if ks != [] {
      var rest := Flush(ks[1..], done, at);
      FlushOrder(ks[1..], done, at);
      assert Flush(ks, done, at) == (if ks[0] in done then [] else [Finish(ks[0], at)]) + rest;
      hide Flush;
      forall k, k' | InSequence(ks[1..], k, k') ensures InSequence(ks, k, k') { LaterInSequence(ks, k, k'); }
      forall o | o in rest ensures InSequence(ks, ks[0], o.k) {
        var j :| 0 <= j < |ks[1..]| && ks[1..][j] == o.k;
        assert ks[j + 1] == o.k;
      }
    }
  }

  ghost predicate InSequence(ks: seq<Text>, k: Text, k': Text) {
    exists i, j :: 0 <= i < j < |ks| && ks[i] == k && ks[j] == k'
  }

  lemma {:induction false} LaterInSequence(ks: seq<Text>, k: Text, k': Text)
    requires ks != [] && InSequence(ks[1..], k, k')
    ensures InSequence(ks, k, k')
  {
    var i, j :| 0 <= i < j < |ks[1..]| && ks[1..][i] == k && ks[1..][j] == k';
    assert ks[i + 1] == k && ks[j + 1] == k';
  }

  lemma {:induction false} FlushedOrder(es: seq<Action>, rest: seq<Output>, i: nat, j: nat)
    requires rest == Flush(TouchOrder(es), Finished(Live(es)), |es|) && i < j < |rest|
    ensures Before(es, rest[i], rest[j])
  {
    var ks := TouchOrder(es);
    FlushOrder(ks, Finished(Live(es)), |es|);
    hide Live; hide TouchOrder; hide Flush; hide FirstTouched; hide Finished;
    assert rest[i] in rest && rest[j] in rest;
    var x, y :| 0 <= x < y < |ks| && ks[x] == rest[i].k && ks[y] == rest[j].k;
    TouchOrderSorted(es, x, y);
  }

  lemma {:induction false} PlanOrder(es: seq<Action>, i: nat, j: nat)
    requires i < j < |Plan(es)|
    ensures Before(es, Plan(es)[i], Plan(es)[j])
  {
    var live, rest := Live(es), Flush(TouchOrder(es), Finished(Live(es)), |es|);
    assert Plan(es) == live + rest;
    hide *;
    if j < |live| {
      LiveBefore(es, i, j);
    } else if i < |live| {
      LiveThenFlushed(es, live[i], rest[j - |live|]);
    } else {
      FlushedOrder(es, rest, i - |live|, j - |live|);
    }
  }

  lemma {:induction false} LiveBefore(es: seq<Action>, i: nat, j: nat)
    requires i < j < |Live(es)|
    ensures Before(es, Live(es)[i], Live(es)[j])
  {
    hide Live; hide FirstTouched;
    LiveOrder(es);
  }

  lemma {:induction false} LiveThenFlushed(es: seq<Action>, o: Output, o': Output)
    requires o in Live(es) && o' in Flush(TouchOrder(es), Finished(Live(es)), |es|)
    ensures Before(es, o, o')
  {
    hide Live; hide TouchOrder; hide Flush; hide FirstTouched; hide Finished; hide InSequence;
    LiveOrder(es);
    FlushOrder(TouchOrder(es), Finished(Live(es)), |es|);
  }

  lemma {:induction false} PlanIsSchedule(es: seq<Action>)
    ensures Schedule(es, Plan(es))
  {
    LiveOrder(es);
    var rest := Flush(TouchOrder(es), Finished(Live(es)), |es|);
    FlushOrder(TouchOrder(es), Finished(Live(es)), |es|);
    assert Plan(es) == Live(es) + rest;
    FinishedExactlyOnce(es);
    forall k | Touched(es, k) ensures Finish(k, FinishAt(es, k)) in Plan(es) { PlanFinishesAt(es, k); }
    forall i, j | 0 <= i < j < |Plan(es)| ensures Before(es, Plan(es)[i], Plan(es)[j]) { PlanOrder(es, i, j); }
    hide Live; hide Flush; hide Plan; hide TouchOrder; hide Touched; hide Stops; hide Before;
    forall o | o in Plan(es) && o.Finish? ensures IsFinish(es, o.k, o.at) {
      assert Touched(es, o.k);
      OneFinish(Plan(es), o, Finish(o.k, FinishAt(es, o.k)));
    }
  }

  lemma {:induction false} OneFinish(plan: seq<Output>, o: Output, o': Output)
    requires FinishesOnce(plan) && o in plan && o' in plan && o.Finish? && o'.Finish? && o.k == o'.k
    ensures o == o'
  {
    var i :| 0 <= i < |plan| && plan[i] == o;
    var j :| 0 <= j < |plan| && plan[j] == o';
  }

  // ----- the output -----

  /** The blocks of each step of a plan. */
  function Pieces(es: seq<Action>, plan: seq<Output>): (parts: seq<seq<Block>>)
    ensures |parts| == |plan|
  {
    if plan == [] then []
    else
      var n := |plan| - 1;
      Pieces(es, plan[..n]) + [RenderOutput(es, plan[n], |RenderPlan(es, plan[..n])|)]
  }

  lemma {:induction false} PiecesJoin(es: seq<Action>, plan: seq<Output>)
    ensures Concat(Pieces(es, plan)) == RenderPlan(es, plan)
  {
    hide RenderOutput;
    if plan != [] {
      var n := |plan| - 1;
      PiecesJoin(es, plan[..n]);
      var last := RenderOutput(es, plan[n], |RenderPlan(es, plan[..n])|);
      ConcatAppend(Pieces(es, plan[..n]), [last]);
      assert [last][1..] == [] && Concat([last]) == last + Concat<Block>([]);
    }
  }

  lemma {:induction false} PieceIs(es: seq<Action>, plan: seq<Output>, i: nat) returns (n: nat)
    requires i < |plan|
    ensures Pieces(es, plan)[i] == RenderOutput(es, plan[i], n)
    decreases |plan|
  {
    hide RenderOutput; hide RenderPlan;
    var m := |plan| - 1;
    if i < m {
      n := PieceIs(es, plan[..m], i);
    } else {
      n := |RenderPlan(es, plan[..m])|;
    }
  }

  lemma {:induction false} FinishTouched(es: seq<Action>, k: Text, at: nat)
    requires Touched(es, k) && IsFinish(es, k, at)
    ensures Touched(es[..at], k)
  {
    if at == |es| { assert es[..at] == es; }
    hide Touched;
  }

  lemma {:induction false} OutputIs(es: seq<Action>, o: Output, n: nat)
    requires o.at <= |es|
    requires if o.Envelope? then o.at < |es| && es[o.at].Emit? else Touched(es, o.k) && IsFinish(es, o.k, o.at)
    ensures IsPart(es, o, RenderOutput(es, o, n))
  {
    hide FinalBlocks; hide IsStretch; hide RoleIs; hide RoleAfter;
    RoleAfterIs(es, o.at);
    if o.Finish? {
      FinishTouched(es, o.k, o.at);
      StretchIs(es, o.k, o.at, n);
    }
    hide Touched; hide IsFinish;
  }

  /** For every stream: the output is made of one block for each event that is a block by itself and of
      the blocks of each touched index, in this order, each as its events say. */
  lemma {:induction false} OutputIsScheduled(es: seq<Action>) returns (plan: seq<Output>, parts: seq<seq<Block>>)
    ensures Schedule(es, plan) && |parts| == |plan| && Assemble(es) == Concat(parts)
    ensures forall i :: 0 <= i < |plan| ==> IsPart(es, plan[i], parts[i])
  {
    hide Plan; hide RenderPlan; hide RenderOutput; hide Touched; hide IsFinish; hide Before; hide Pieces; hide IsPart;
    plan, parts := Plan(es), Pieces(es, Plan(es));
    PlanIsSchedule(es);
    PiecesJoin(es, plan);
    FinishedExactlyOnce(es);
    forall i | 0 <= i < |plan| ensures IsPart(es, plan[i], parts[i]) {
      var n := PieceIs(es, plan, i);
      assert plan[i] in plan;
      OutputIs(es, plan[i], n);
    }
  }

  /** For every touched index, whatever is interleaved: its blocks stand together and hold all pieces
      brought for it up to its finish, which are all of them exactly when none comes later. */
  lemma {:induction false} IndexIsAssembled(es: seq<Action>, k: Text) returns (n: nat, at: nat, part: seq<Block>)
    requires Touched(es, k)
    ensures IsFinish(es, k, at) && IsStretch(es, k, at, part)
    ensures n + |part| <= |Assemble(es)| && Assemble(es)[n..n + |part|] == part
    ensures Brought(es[..at], k) == Brought(es, k) <==> Quiet(es, k, at)
  {
    hide Assemble; hide FinalBlocks; hide Touched; hide Stops; hide IsStretch; hide Quiet; hide PiecesFor; hide Brought;
    at := FinishAt(es, k);
    n := FilterThenConcatenate(es, k);
    FinishTouched(es, k, at);
    StretchIs(es, k, at, n);
    part := FinalBlocks(es[..at], k, n);
    BroughtIs(es[..at], k);
    BroughtIs(es, k);
  }
}
