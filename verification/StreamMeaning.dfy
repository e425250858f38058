/** From what a sender says to the blocks that come out: sent in either format, read, assembled. */
module StreamMeaning {
  import opened Bytes
  import opened Ordering
  import opened CanonicalJson
  import opened BedrockEvents
  import opened StreamFormats
  import opened StreamAssembler
  import opened StreamTheorems
  import opened StreamOutput

  predicate AllSendable(f: Format, xs: seq<Said>) {
    forall i :: 0 <= i < |xs| ==> Sendable(f, xs[i])
  }

  /** The events of a stream, as the format sends them. */
  function EventsOf(f: Format, xs: seq<Said>): (r: seq<Event>)
    requires AllSendable(f, xs)
    ensures |r| == |xs| && forall i :: 0 <= i < |xs| ==> r[i] == EventOf(f, xs[i])
  {
    seq(|xs|, i requires 0 <= i < |xs| => EventOf(f, xs[i]))
  }

  function Meanings(f: Format, xs: seq<Said>): (r: seq<Action>)
    requires AllSendable(f, xs)
    ensures |r| == |xs| && forall i :: 0 <= i < |xs| ==> r[i] == Meaning(f, xs[i])
  {
    seq(|xs|, i requires 0 <= i < |xs| => Meaning(f, xs[i]))
  }

  /** The blocks of a stream that was sent in format `f`. */
  function BlocksOf(f: Format, xs: seq<Said>): seq<Block>
    requires AllSendable(f, xs)
  {
    Assemble(ClassifyAll(f, EventsOf(f, xs)))
  }

  lemma {:induction false} ReadAsMeant(f: Format, xs: seq<Said>)
    requires AllSendable(f, xs)
    ensures ClassifyAll(f, EventsOf(f, xs)) == Meanings(f, xs)
  {
    hide Classify; hide EventOf; hide Meaning; hide Sendable;
    forall i | 0 <= i < |xs| ensures Classify(f, EventOf(f, xs[i])) == Meaning(f, xs[i]) { FormatsAreRead(f, xs[i]); }
  }

  // ----- what was said for one block -----

  /** The block a saying is for. */
  function BlockIndex(s: Said): Option<Text> {
    match s
    case Starts(i) => Some(i)
    case StartsText(i, _) => Some(i)
    case StartsThought(i, _) => Some(i)
    case StartsOther(i, _) => Some(i)
    case Says(i, _) => Some(i)
    case Thinks(i, _, _) => Some(i)
    case Signs(i, _) => Some(i)
    case Calls(i, _) => Some(i)
    case CallInput(i, _) => Some(i)
    case SaysAndCalls(i, _, _) => Some(i)
    case Cites(i, _) => Some(i)
    case _ => None
  }

  predicate SaidFor(s: Said, k: Text) {
    BlockIndex(s) == Some(k)
  }

  function TextSaid(s: Said): Text {
    match s
    case Says(_, t) => t
    case StartsText(_, t) => t
    case SaysAndCalls(_, t, _) => t
    case _ => []
  }

  function ThoughtSaid(s: Said): Text {
    match s
    case Thinks(_, t, _) => t
    case StartsThought(_, t) => t
    case _ => []
  }

  function InputSaid(s: Said): Text {
    match s
    case CallInput(_, t) => t
    case SaysAndCalls(_, _, input) => input
    case _ => []
  }

  /** The values recorded of a thought: reasoning content in a Converse stream, signatures in both. */
  function ThoughtJsonSaid(f: Format, s: Said): seq<Json> {
    match s
    case Thinks(_, t, way) =>
      if f.AnthropicFormat? || way.IsDirect() then [] else [Reasoning(ReasoningContent(t, way))]
    case Signs(_, signature) => [Signature(f, signature)]
    case _ => []
  }

  function UnknownJsonSaid(s: Said): seq<Json> {
    match s
    case StartsOther(_, v) => [Document(v)]
    case Cites(_, v) => [Citation(v)]
    case _ => []
  }

  /** What each saying for `k` gives, joined in order. */
  function JoinedSaid<T>(xs: seq<Said>, k: Text, part: Said -> seq<T>): seq<T> {
    if xs == [] then [] else (if SaidFor(xs[0], k) then part(xs[0]) else []) + JoinedSaid(xs[1..], k, part)
  }

  /** The saying makes there be a block of this kind. */
  predicate Makes(s: Said, kind: Kind) {
    match kind
    case AssistantOutput => s.Says? || s.StartsText? || s.SaysAndCalls?
    case Thinking => s.Thinks? || s.StartsThought? || s.Signs?
    case ToolCallBlock => s.Calls?
    case Unknown => s.StartsOther? || s.Cites?
    case ProviderEnvelope => false
  }

  predicate MadeFor(xs: seq<Said>, k: Text, kind: Kind) {
    exists i :: 0 <= i < |xs| && SaidFor(xs[i], k) && Makes(xs[i], kind)
  }

  function KindsSaid(xs: seq<Said>, k: Text): seq<Kind> {
    (if MadeFor(xs, k, AssistantOutput) then [AssistantOutput] else [])
      + (if MadeFor(xs, k, Thinking) then [Thinking] else [])
      + (if MadeFor(xs, k, ToolCallBlock) then [ToolCallBlock] else [])
      + (if MadeFor(xs, k, Unknown) then [Unknown] else [])
  }

  predicate ThoughtFor(xs: seq<Said>, k: Text) {
    exists i :: 0 <= i < |xs| && SaidFor(xs[i], k) && (xs[i].Thinks? || xs[i].StartsThought?)
  }

  ghost predicate CalledLast(f: Format, xs: seq<Said>, k: Text, v: Json) {
    exists i :: 0 <= i < |xs| && xs[i].Calls? && xs[i].index == k && v == ToolJson(f, xs[i].tool)
      && forall j :: i < j < |xs| ==> !(xs[j].Calls? && xs[j].index == k)
  }

  /** The block holds all that was said of its kind, in order. */
  ghost predicate Holds(f: Format, xs: seq<Said>, k: Text, b: Block) {
    match b.kind
    case AssistantOutput => b.text == Some(JoinedSaid(xs, k, TextSaid)) && b.content == NoJson
    case Thinking =>
      var values := JoinedSaid(xs, k, s => ThoughtJsonSaid(f, s));
      && b.text == (if ThoughtFor(xs, k) then Some(JoinedSaid(xs, k, ThoughtSaid)) else None)
      && b.content == (if values == [] then NoJson else Values(values))
    case ToolCallBlock =>
      && b.text == None && b.content.ToolUse? && CalledLast(f, xs, k, b.content.start)
      && b.content.inputText == JoinedSaid(xs, k, InputSaid)
    case Unknown => b.text == None && b.content == Values(JoinedSaid(xs, k, UnknownJsonSaid))
    case ProviderEnvelope => false
  }

  // ----- roles, ends, and the sayings that are blocks by themselves -----

  predicate NamesRole(s: Said) {
    s.Role? && s.role.Some?
  }

  /** `r` is the role named last before saying `at`. */
  ghost predicate RoleSaid(xs: seq<Said>, at: nat, r: Option<Text>)
    requires at <= |xs|
  {
    match r
    case None => forall i :: 0 <= i < at ==> !NamesRole(xs[i])
    case Some(_) => exists i :: 0 <= i < at && xs[i] == Role(r) && forall j :: i < j < at ==> !NamesRole(xs[j])
  }

  ghost predicate KnowsRole(xs: seq<Said>, k: Text, i: nat) {
    i < |xs| && SaidFor(xs[i], k) && exists j :: 0 <= j < i && NamesRole(xs[j])
  }

  /** The role of a block: the one known when something is said for it first with a role known, else the
      one known when it ends. */
  ghost predicate BlockRole(xs: seq<Said>, k: Text, at: nat, r: Option<Text>)
    requires at <= |xs|
  {
    || (exists i: nat :: i < at && KnowsRole(xs, k, i) && RoleSaid(xs, i, r)
                         && forall j: nat :: j < i ==> !KnowsRole(xs, k, j))
    || (RoleSaid(xs, at, r) && forall j: nat :: j < at ==> !KnowsRole(xs, k, j))
  }

  predicate FirstSaid(xs: seq<Said>, k: Text, i: nat) {
    i < |xs| && SaidFor(xs[i], k) && forall j :: 0 <= j < i ==> !SaidFor(xs[j], k)
  }

  predicate Spoke(xs: seq<Said>, k: Text) {
    exists i :: 0 <= i < |xs| && SaidFor(xs[i], k)
  }

  predicate EndsAt(xs: seq<Said>, k: Text, i: nat) {
    i < |xs| && xs[i] == Ends(k) && Spoke(xs[..i], k)
  }

  /** `at` is the first end of `k` after something was said for it, or the end of the stream. */
  predicate IsEnd(xs: seq<Said>, k: Text, at: nat) {
    && at <= |xs| && (at < |xs| ==> EndsAt(xs, k, at))
    && forall i: nat :: i < at ==> !EndsAt(xs, k, i)
  }

  /** Only an Anthropic stream shows events it does not know. */
  predicate Alone(f: Format, s: Said) {
    s.StopsFor? || s.Measures? || s.Closes? || (s.Strange? && f.AnthropicFormat?)
  }

  /** One block for the saying `at`: its kind, its literal text, the payload of its event, and the role then. */
  ghost predicate ShowsAlone(f: Format, xs: seq<Said>, at: nat, bs: seq<Block>)
    requires AllSendable(f, xs)
  {
    && at < |xs| && Alone(f, xs[at]) && |bs| == 1
    && bs[0].kind == (if xs[at].Strange? then Unknown else ProviderEnvelope) && bs[0].text == Label(f, xs[at])
    && bs[0].content == Payload(EventOf(f, xs[at]).payload) && bs[0].origin == at && RoleSaid(xs, at, bs[0].role)
  }

  /** The blocks of `k`, which ends at `at`: what was said for it, kind by kind. */
  ghost predicate ShowsBlock(f: Format, xs: seq<Said>, k: Text, at: nat, bs: seq<Block>)
    requires at <= |xs|
  {
    && |bs| == |KindsSaid(xs[..at], k)|
    && forall i :: 0 <= i < |bs| ==>
         && bs[i].kind == KindsSaid(xs[..at], k)[i] && Holds(f, xs[..at], k, bs[i])
         && FirstSaid(xs, k, bs[i].origin) && BlockRole(xs, k, at, bs[i].role)
  }

  /** In the order of the sayings that cause them; blocks still open in the end come as they began. */
  ghost predicate Sooner(xs: seq<Said>, o: Output, o': Output) {
    || o.at < o'.at
    || (o.at == o'.at == |xs| && o.Finish? && o'.Finish?
        && exists i: nat, j: nat :: i < j && FirstSaid(xs, o.k, i) && FirstSaid(xs, o'.k, j))
  }

  ghost predicate Order(f: Format, xs: seq<Said>, plan: seq<Output>) {
    && (forall o :: o in plan && o.Envelope? ==> o.at < |xs| && Alone(f, xs[o.at]))
    && (forall i :: 0 <= i < |xs| && Alone(f, xs[i]) ==> Envelope(i) in plan)
    && (forall o :: o in plan && o.Finish? ==> Spoke(xs, o.k) && IsEnd(xs, o.k, o.at))
    && (forall k :: Spoke(xs, k) ==> exists o :: o in plan && o.Finish? && o.k == k)
    && forall i, j :: 0 <= i < j < |plan| ==> Sooner(xs, plan[i], plan[j])
  }

  ghost predicate Shown(f: Format, xs: seq<Said>, o: Output, bs: seq<Block>)
    requires AllSendable(f, xs)
  {
    o.at <= |xs| && if o.Envelope? then ShowsAlone(f, xs, o.at, bs) else ShowsBlock(f, xs, o.k, o.at, bs)
  }

  // ----- saying by saying -----

  /** What the assembler does at a saying. */
  lemma {:induction false} MeaningOf(f: Format, s: Said, k: Text)
    requires Sendable(f, s)
    ensures var m := Meaning(f, s);
      && (SaidFor(s, k) <==> Touches(m, k)) && (m.Touch? <==> BlockIndex(s).Some?)
      && (s == Ends(k) <==> m == BedrockEvents.Stop(k)) && (m.Emit? <==> Alone(f, s))
      && (NamesRole(s) <==> Announces(m)) && (forall r :: s == Role(r) <==> m == SetRole(r))
      && (Alone(f, s) ==>
            && m.kind == (if s.Strange? then Unknown else ProviderEnvelope) && m.text == Label(f, s)
            && m.payload == EventOf(f, s).payload)
  {
    hide Name; hide KnownNames; hide StringField;
  }

  lemma {:induction false} TextMeant(f: Format, s: Said)
    requires Sendable(f, s) && Meaning(f, s).Touch?
    ensures Joined(Meaning(f, s).pieces, TextOf) == TextSaid(s)
    ensures Joined(Meaning(f, s).pieces, ThoughtOf) == ThoughtSaid(s)
    ensures Joined(Meaning(f, s).pieces, InputOf) == InputSaid(s)
  {
    hide Name; hide KnownNames; hide StringField; hide Signature; hide ToolJson; hide Document; hide Citation;
    hide Reasoning;
    FewPieces(Meaning(f, s).pieces, TextOf);
    FewPieces(Meaning(f, s).pieces, ThoughtOf);
    FewPieces(Meaning(f, s).pieces, InputOf);
    hide Joined;
  }

  lemma {:induction false} JsonMeant(f: Format, s: Said)
    requires Sendable(f, s) && Meaning(f, s).Touch?
    ensures Joined(Meaning(f, s).pieces, ThoughtJson) == ThoughtJsonSaid(f, s)
    ensures Joined(Meaning(f, s).pieces, UnknownJson) == UnknownJsonSaid(s)
  {
    hide Name; hide KnownNames; hide StringField; hide Signature; hide ToolJson; hide Document; hide Citation;
    hide Reasoning;
    FewPieces(Meaning(f, s).pieces, ThoughtJson);
    FewPieces(Meaning(f, s).pieces, UnknownJson);
    hide Joined;
  }

  lemma {:induction false} FewPieces<T>(ps: seq<Piece>, part: Piece -> seq<T>)
    ensures ps == [] ==> Joined(ps, part) == []
    ensures |ps| == 1 ==> Joined(ps, part) == part(ps[0])
    ensures |ps| == 2 ==> Joined(ps, part) == part(ps[0]) + part(ps[1])
  {
    if |ps| == 1 { assert ps[1..] == [] && part(ps[0]) + [] == part(ps[0]); }
    if |ps| == 2 {
      assert ps[1..][1..] == [] && part(ps[1]) + [] == part(ps[1]);
      assert Joined(ps[1..], part) == part(ps[1]);
    }
  }

  lemma {:induction false} FewKinds(ps: seq<Piece>, kind: Kind)
    requires |ps| <= 2
    ensures Has(ps, kind) <==> (|ps| > 0 && KindOf(ps[0]) == Some(kind)) || (|ps| > 1 && KindOf(ps[1]) == Some(kind))
    ensures HasThoughtText(ps) <==> (|ps| > 0 && ps[0].ThinkingPart?) || (|ps| > 1 && ps[1].ThinkingPart?)
    ensures HasThoughtJson(ps) <==> (|ps| > 0 && ps[0].ThinkingValue?) || (|ps| > 1 && ps[1].ThinkingValue?)
  {
    assert |ps| > 0 ==> ps[0] in ps;
    assert |ps| > 1 ==> ps[1] in ps;
  }

  lemma {:induction false} KindMeant(f: Format, s: Said, kind: Kind)
    requires Sendable(f, s) && Meaning(f, s).Touch?
    ensures Has(Meaning(f, s).pieces, kind) <==> Makes(s, kind)
    ensures HasThoughtText(Meaning(f, s).pieces) <==> s.Thinks? || s.StartsThought?
    ensures HasThoughtJson(Meaning(f, s).pieces) <==> ThoughtJsonSaid(f, s) != []
  {
    hide Name; hide KnownNames; hide StringField; hide Signature; hide ToolJson; hide Document; hide Citation;
    hide Reasoning;
    FewKinds(Meaning(f, s).pieces, kind);
    hide Has; hide HasThoughtText; hide HasThoughtJson;
  }

  // ----- whole streams -----

  lemma {:induction false} JoinedAppend<T>(ps: seq<Piece>, qs: seq<Piece>, part: Piece -> seq<T>)
    ensures Joined(ps + qs, part) == Joined(ps, part) + Joined(qs, part)
    decreases |ps|
  {
    if ps == [] {
      assert ps + qs == qs;
    } else {
      assert (ps + qs)[0] == ps[0] && (ps + qs)[1..] == ps[1..] + qs;
      JoinedAppend(ps[1..], qs, part);
    }
  }

  /** What the pieces give is what the sayings give. */
  ghost predicate Corresponds<T(!new)>(f: Format, part: Piece -> seq<T>, said: Said -> seq<T>) {
    forall s :: Sendable(f, s) && Meaning(f, s).Touch? ==> Joined(Meaning(f, s).pieces, part) == said(s)
  }

  lemma {:induction false} SaidJoined<T(!new)>(f: Format, xs: seq<Said>, k: Text, part: Piece -> seq<T>,
                                        said: Said -> seq<T>)
    requires AllSendable(f, xs) && Corresponds(f, part, said)
    ensures Joined(Brought(Meanings(f, xs), k), part) == JoinedSaid(xs, k, said)
    decreases |xs|
  {
    hide Meaning; hide SaidFor; hide Sendable;
    if xs != [] {
      var ms := Meanings(f, xs);
      assert ms[1..] == Meanings(f, xs[1..]);
      SaidJoined(f, xs[1..], k, part, said);
      MeaningOf(f, xs[0], k);
      JoinedAppend(if Touches(ms[0], k) then ms[0].pieces else [], Brought(ms[1..], k), part);
    }
  }

  lemma {:induction false} AllCorrespond(f: Format)
    ensures Corresponds(f, TextOf, TextSaid) && Corresponds(f, ThoughtOf, ThoughtSaid)
    ensures Corresponds(f, InputOf, InputSaid)
    ensures Corresponds(f, ThoughtJson, s => ThoughtJsonSaid(f, s)) && Corresponds(f, UnknownJson, UnknownJsonSaid)
  {
    forall s | Sendable(f, s) && Meaning(f, s).Touch?
      ensures Joined(Meaning(f, s).pieces, TextOf) == TextSaid(s)
      ensures Joined(Meaning(f, s).pieces, ThoughtOf) == ThoughtSaid(s)
      ensures Joined(Meaning(f, s).pieces, InputOf) == InputSaid(s)
      ensures Joined(Meaning(f, s).pieces, ThoughtJson) == ThoughtJsonSaid(f, s)
      ensures Joined(Meaning(f, s).pieces, UnknownJson) == UnknownJsonSaid(s)
    {
      TextMeant(f, s);
      JsonMeant(f, s);
    }
    hide Meaning; hide Sendable; hide Joined;
  }

  lemma {:induction false} BroughtHas(es: seq<Action>, k: Text, kind: Kind)
    ensures Has(Brought(es, k), kind) <==> exists i :: 0 <= i < |es| && Touches(es[i], k) && Has(es[i].pieces, kind)
    ensures HasThoughtText(Brought(es, k)) <==>
      exists i :: 0 <= i < |es| && Touches(es[i], k) && HasThoughtText(es[i].pieces)
    ensures HasThoughtJson(Brought(es, k)) <==>
      exists i :: 0 <= i < |es| && Touches(es[i], k) && HasThoughtJson(es[i].pieces)
  {
    if es != [] {
      BroughtHas(es[1..], k, kind);
      var now, later := if Touches(es[0], k) then es[0].pieces else [], Brought(es[1..], k);
      assert forall p :: p in now + later <==> p in now || p in later;
      assert forall i :: 0 <= i < |es[1..]| ==> es[1..][i] == es[i + 1];
    }
  }

  lemma {:induction false} MadeIs(f: Format, xs: seq<Said>, k: Text, kind: Kind)
    requires AllSendable(f, xs)
    ensures Has(Brought(Meanings(f, xs), k), kind) <==> MadeFor(xs, k, kind)
    ensures HasThoughtText(Brought(Meanings(f, xs), k)) <==> ThoughtFor(xs, k)
  {
    hide Meaning; hide SaidFor; hide Sendable; hide Has; hide HasThoughtText; hide HasThoughtJson; hide Makes;
    hide Brought;
    var ms := Meanings(f, xs);
    BroughtHas(ms, k, kind);
    forall i | 0 <= i < |xs|
      ensures SaidFor(xs[i], k) <==> Touches(ms[i], k)
      ensures Touches(ms[i], k) ==> (Has(ms[i].pieces, kind) <==> Makes(xs[i], kind))
      ensures Touches(ms[i], k) ==> (HasThoughtText(ms[i].pieces) <==> xs[i].Thinks? || xs[i].StartsThought?)
    {
      MeaningOf(f, xs[i], k);
      if Touches(ms[i], k) { KindMeant(f, xs[i], kind); }
    }
  }

  /** There is a value of a thought exactly when they are joined to something. */
  lemma {:induction false} ThoughtJsonIs(f: Format, xs: seq<Said>, k: Text)
    requires AllSendable(f, xs)
    ensures HasThoughtJson(Brought(Meanings(f, xs), k)) <==> JoinedSaid(xs, k, s => ThoughtJsonSaid(f, s)) != []
    ensures JoinedSaid(xs, k, s => ThoughtJsonSaid(f, s)) == Joined(Brought(Meanings(f, xs), k), ThoughtJson)
  {
    hide Meaning; hide Brought; hide Sendable; hide JoinedSaid;
    AllCorrespond(f);
    SaidJoined(f, xs, k, ThoughtJson, s => ThoughtJsonSaid(f, s));
    JsonPresent(Brought(Meanings(f, xs), k));
  }

  lemma {:induction false} JsonPresent(ps: seq<Piece>)
    ensures HasThoughtJson(ps) <==> Joined(ps, ThoughtJson) != []
  {
    JoinedIs(ps);
    ThoughtPresent(ps);
    hide Joined; hide HasThoughtJson;
  }

  lemma {:induction false} CallIs(f: Format, xs: seq<Said>, k: Text, v: Json)
    requires AllSendable(f, xs) && LastStart(Brought(Meanings(f, xs), k), v)
    ensures CalledLast(f, xs, k, v)
    decreases |xs|
  {
    hide Meaning; hide Sendable; hide LastStart; hide CalledLast;
    NoStart(v);
    if xs != [] {
      var n := |xs| - 1;
      var ms, before := Meanings(f, xs), Meanings(f, xs[..n]);
      assert ms == before + [ms[n]] && xs == xs[..n] + [xs[n]];
      BroughtMore(before, ms[n], k);
      MeaningOf(f, xs[n], k);
      assert Brought(before, k) + [] == Brought(before, k);
      if Touches(ms[n], k) { StartMeant(f, xs[n], Brought(before, k), v); }
      if xs[n].Calls? && SaidFor(xs[n], k) {
        CalledNow(f, xs[..n], xs[n], k, v);
      } else {
        CallIs(f, xs[..n], k, v);
        CalledBefore(f, xs[..n], xs[n], k, v);
      }
    }
  }

  lemma {:induction false} NoStart(v: Json)
    ensures !LastStart([], v)
  {}

  lemma {:induction false} StartMeant(f: Format, s: Said, ps: seq<Piece>, v: Json)
    requires Sendable(f, s) && Meaning(f, s).Touch? && LastStart(ps + Meaning(f, s).pieces, v)
    ensures if s.Calls? then v == ToolJson(f, s.tool) else LastStart(ps, v)
  {
    hide Name; hide KnownNames; hide StringField; hide Signature; hide ToolJson; hide Document; hide Citation;
    hide Reasoning;
    var qs := Meaning(f, s).pieces;
    var i :| 0 <= i < |ps + qs| && (ps + qs)[i] == ToolStart(v)
             && forall j :: i < j < |ps + qs| ==> !(ps + qs)[j].ToolStart?;
    if s.Calls? {
      assert (ps + qs)[|ps|] == qs[0];
    } else {
      assert forall j :: 0 <= j < |qs| ==> !qs[j].ToolStart?;
      assert i < |ps| && ps[i] == ToolStart(v);
      assert forall j :: i < j < |ps| ==> ps[j] == (ps + qs)[j];
    }
  }

  lemma {:induction false} CalledNow(f: Format, xs: seq<Said>, s: Said, k: Text, v: Json)
    requires s.Calls? && s.index == k && v == ToolJson(f, s.tool)
    ensures CalledLast(f, xs + [s], k, v)
  {
    assert (xs + [s])[|xs|] == s;
  }

  lemma {:induction false} CalledBefore(f: Format, xs: seq<Said>, s: Said, k: Text, v: Json)
    requires CalledLast(f, xs, k, v) && !(s.Calls? && s.index == k)
    ensures CalledLast(f, xs + [s], k, v)
  {
    var i :| 0 <= i < |xs| && xs[i].Calls? && xs[i].index == k && v == ToolJson(f, xs[i].tool)
      && forall j :: i < j < |xs| ==> !(xs[j].Calls? && xs[j].index == k);
    assert (xs + [s])[i] == xs[i];
  }

  lemma {:induction false} HoldsSaid(f: Format, xs: seq<Said>, k: Text, b: Block)
    requires AllSendable(f, xs) && Shows(b, Brought(Meanings(f, xs), k))
    ensures Holds(f, xs, k, b)
  {
    hide Meaning; hide Sendable; hide LastStart; hide CalledLast; hide Brought; hide JoinedSaid; hide Joined;
    hide HasThoughtText;
    hide HasThoughtJson; hide ThoughtFor; hide Corresponds;
    AllCorrespond(f);
    SaidJoined(f, xs, k, TextOf, TextSaid);
    SaidJoined(f, xs, k, ThoughtOf, ThoughtSaid);
    SaidJoined(f, xs, k, InputOf, InputSaid);
    SaidJoined(f, xs, k, UnknownJson, UnknownJsonSaid);
    ThoughtJsonIs(f, xs, k);
    MadeIs(f, xs, k, b.kind);
    if b.kind.ToolCallBlock? { CallIs(f, xs, k, b.content.start); }
  }

  // ----- roles, ends and order carry over -----

  /** The actions say of roles, blocks and ends what the sayings say. */
  lemma {:induction false} RoleCarries(f: Format, xs: seq<Said>, at: nat, r: Option<Text>)
    requires AllSendable(f, xs) && at <= |xs|
    ensures RoleIs(Meanings(f, xs), at, r) <==> RoleSaid(xs, at, r)
  {
    hide Meaning; hide Sendable; hide NamesRole; hide Announces;
    forall i | 0 <= i < |xs|
      ensures NamesRole(xs[i]) <==> Announces(Meanings(f, xs)[i])
      ensures xs[i] == Role(r) <==> Meanings(f, xs)[i] == SetRole(r)
    {
      MeaningOf(f, xs[i], []);
    }
  }

  lemma {:induction false} BlockRoleCarries(f: Format, xs: seq<Said>, k: Text, at: nat, r: Option<Text>)
    requires AllSendable(f, xs) && at <= |xs|
    ensures StretchRole(Meanings(f, xs), k, at, r) <==> BlockRole(xs, k, at, r)
  {
    hide Meaning; hide Sendable; hide NamesRole; hide Announces; hide RoleIs; hide RoleSaid; hide Touches; hide SaidFor;
    forall i | 0 <= i < |xs|
      ensures NamesRole(xs[i]) <==> Announces(Meanings(f, xs)[i])
      ensures SaidFor(xs[i], k) <==> Touches(Meanings(f, xs)[i], k)
    {
      MeaningOf(f, xs[i], k);
    }
    forall i: nat | i < |xs| ensures Adopts(Meanings(f, xs), k, i) <==> KnowsRole(xs, k, i) {}
    forall i: nat | i <= |xs| ensures RoleIs(Meanings(f, xs), i, r) <==> RoleSaid(xs, i, r) {
      RoleCarries(f, xs, i, r);
    }
    hide Adopts; hide KnowsRole;
  }

  lemma {:induction false} FirstCarries(f: Format, xs: seq<Said>, k: Text, i: nat)
    requires AllSendable(f, xs)
    ensures FirstTouched(Meanings(f, xs), k, i) <==> FirstSaid(xs, k, i)
    ensures Touched(Meanings(f, xs), k) <==> Spoke(xs, k)
  {
    hide Meaning; hide Sendable; hide SaidFor; hide Touches;
    forall j | 0 <= j < |xs| ensures SaidFor(xs[j], k) <==> Touches(Meanings(f, xs)[j], k) { MeaningOf(f, xs[j], k); }
    TouchedIs(Meanings(f, xs), k);
    hide Touched;
  }

  lemma {:induction false} TouchedIs(es: seq<Action>, k: Text)
    ensures Touched(es, k) <==> exists i :: 0 <= i < |es| && Touches(es[i], k)
  {}

  lemma {:induction false} EndCarries(f: Format, xs: seq<Said>, k: Text, i: nat)
    requires AllSendable(f, xs)
    ensures Stops(Meanings(f, xs), k, i) <==> EndsAt(xs, k, i)
  {
    hide Meaning; hide Sendable; hide Spoke; hide Touched;
    if i < |xs| {
      MeaningOf(f, xs[i], k);
      assert Meanings(f, xs)[..i] == Meanings(f, xs[..i]);
      FirstCarries(f, xs[..i], k, 0);
    }
  }

  lemma {:induction false} FinishCarries(f: Format, xs: seq<Said>, k: Text, at: nat)
    requires AllSendable(f, xs)
    ensures IsFinish(Meanings(f, xs), k, at) <==> IsEnd(xs, k, at)
  {
    hide Stops; hide EndsAt; hide Meaning; hide Sendable;
    forall i: nat ensures Stops(Meanings(f, xs), k, i) <==> EndsAt(xs, k, i) { EndCarries(f, xs, k, i); }
  }

  lemma {:induction false} BlockCarries(f: Format, xs: seq<Said>, k: Text, at: nat, bs: seq<Block>)
    requires AllSendable(f, xs) && at <= |xs| && IsStretch(Meanings(f, xs), k, at, bs)
    ensures ShowsBlock(f, xs, k, at, bs)
  {
    hide Meaning; hide Sendable; hide Brought; hide Shows; hide Holds; hide StretchRole; hide BlockRole;
    hide FirstTouched;
    hide FirstSaid; hide Has; hide MadeFor;
    assert Meanings(f, xs)[..at] == Meanings(f, xs[..at]);
    MadeIs(f, xs[..at], k, AssistantOutput);
    MadeIs(f, xs[..at], k, Thinking);
    MadeIs(f, xs[..at], k, ToolCallBlock);
    MadeIs(f, xs[..at], k, Unknown);
    assert Kinds(Brought(Meanings(f, xs[..at]), k)) == KindsSaid(xs[..at], k);
    hide Kinds; hide KindsSaid;
    forall i | 0 <= i < |bs|
      ensures Holds(f, xs[..at], k, bs[i]) && FirstSaid(xs, k, bs[i].origin) && BlockRole(xs, k, at, bs[i].role)
    {
      HoldsSaid(f, xs[..at], k, bs[i]);
      FirstCarries(f, xs, k, bs[i].origin);
      BlockRoleCarries(f, xs, k, at, bs[i].role);
    }
  }

  lemma {:induction false} AloneCarries(f: Format, xs: seq<Said>, at: nat, bs: seq<Block>)
    requires AllSendable(f, xs) && at <= |xs| && IsEnvelope(Meanings(f, xs), at, bs)
    ensures ShowsAlone(f, xs, at, bs)
  {
    hide Meaning; hide Sendable; hide Alone; hide RoleIs; hide RoleSaid; hide Label; hide EventOf;
    MeaningOf(f, xs[at], []);
    RoleCarries(f, xs, at, bs[0].role);
  }

  lemma {:induction false} OrderCarries(f: Format, xs: seq<Said>, plan: seq<Output>)
    requires AllSendable(f, xs) && Schedule(Meanings(f, xs), plan)
    ensures Order(f, xs, plan)
  {
    hide Meaning; hide Sendable; hide Alone; hide Spoke; hide Touched; hide IsFinish; hide IsEnd; hide FirstTouched;
    hide FirstSaid;
    var ms := Meanings(f, xs);
    forall i | 0 <= i < |xs| ensures ms[i].Emit? <==> Alone(f, xs[i]) { MeaningOf(f, xs[i], []); }
    forall k, i: nat
      ensures FirstTouched(ms, k, i) <==> FirstSaid(xs, k, i)
      ensures Touched(ms, k) <==> Spoke(xs, k)
      ensures IsFinish(ms, k, i) <==> IsEnd(xs, k, i)
    {
      FirstCarries(f, xs, k, i);
      FinishCarries(f, xs, k, i);
    }
    forall i, j | 0 <= i < j < |plan| ensures Sooner(xs, plan[i], plan[j]) { assert Before(ms, plan[i], plan[j]); }
    hide Before; hide Sooner;
    forall k | Spoke(xs, k) ensures exists o :: o in plan && o.Finish? && o.k == k { FirstCarries(f, xs, k, 0); }
  }

  // ----- the theorems -----

  /** In either format: the output has one block for each saying that is a block by itself, with its
      literal text, and the blocks of each index that something was said for, with all that was said
      up to its end; in the order of these sayings and ends. */
  lemma {:induction false} SaidComesOut(f: Format, xs: seq<Said>) returns (plan: seq<Output>, parts: seq<seq<Block>>)
    requires AllSendable(f, xs)
    ensures Order(f, xs, plan) && |parts| == |plan| && BlocksOf(f, xs) == Concat(parts)
    ensures forall i :: 0 <= i < |plan| ==> Shown(f, xs, plan[i], parts[i])
  {
    hide Meaning; hide Sendable; hide Schedule; hide Order; hide Assemble; hide IsStretch; hide IsEnvelope;
    hide ShowsBlock;
    hide ShowsAlone; hide ClassifyAll;
    ReadAsMeant(f, xs);
    plan, parts := OutputIsScheduled(Meanings(f, xs));
    OrderCarries(f, xs, plan);
    forall i | 0 <= i < |plan| ensures Shown(f, xs, plan[i], parts[i]) {
      assert IsPart(Meanings(f, xs), plan[i], parts[i]);
      if plan[i].Envelope? { AloneCarries(f, xs, plan[i].at, parts[i]); }
      else { BlockCarries(f, xs, plan[i].k, plan[i].at, parts[i]); }
    }
  }

  /** Nothing but a start is said for `k` from `at` on. */
  predicate Silent(xs: seq<Said>, k: Text, at: nat) {
    forall i :: at <= i < |xs| && SaidFor(xs[i], k) ==> xs[i].Starts?
  }

  lemma {:induction false} QuietIffSilent(f: Format, xs: seq<Said>, k: Text, at: nat)
    requires AllSendable(f, xs)
    ensures Quiet(Meanings(f, xs), k, at) <==> Silent(xs, k, at)
  {
    hide Meaning; hide SaidFor; hide Sendable; hide Touches;
    forall i | 0 <= i < |xs|
      ensures SaidFor(xs[i], k) <==> Meanings(f, xs)[i].Touch? && Meanings(f, xs)[i].index == k
      ensures Meanings(f, xs)[i].Touch? ==> (Meanings(f, xs)[i].pieces == [] <==> xs[i].Starts?)
    {
      MeaningOf(f, xs[i], k);
      OnlyStarts(f, xs[i], k);
    }
  }

  lemma {:induction false} OnlyStarts(f: Format, s: Said, k: Text)
    requires Sendable(f, s)
    ensures Meaning(f, s).Touch? ==> (Meaning(f, s).pieces == [] <==> s.Starts?)
    ensures Touches(Meaning(f, s), k) <==> Meaning(f, s).Touch? && Meaning(f, s).index == k
  {
    hide Name; hide KnownNames; hide StringField;
  }

  /** The blocks of an index stand together and hold what was said for it up to its end; that is all that
      was said for it exactly when nothing but a start is said later. */
  lemma {:induction false} SaidIsAssembled(f: Format, xs: seq<Said>, k: Text)
    returns (n: nat, at: nat, part: seq<Block>)
    requires AllSendable(f, xs) && Spoke(xs, k)
    ensures IsEnd(xs, k, at) && ShowsBlock(f, xs, k, at, part)
    ensures n + |part| <= |BlocksOf(f, xs)| && BlocksOf(f, xs)[n..n + |part|] == part
    ensures PiecesFor(Meanings(f, xs[..at]), k) == PiecesFor(Meanings(f, xs), k) <==> Silent(xs, k, at)
  {
    hide Meaning; hide Sendable; hide FinishAt; hide Spoke; hide Touched; hide Assemble; hide FinalBlocks;
    hide PiecesFor;
    hide ClassifyAll; hide IsEnd; hide IsFinish; hide Quiet; hide Silent; hide IsStretch; hide ShowsBlock;
    var ms := Meanings(f, xs);
    ReadAsMeant(f, xs);
    FirstCarries(f, xs, k, 0);
    at := FinishAt(ms, k);
    FinishIs(ms, k);
    FinishCarries(f, xs, k, at);
    n := FilterThenConcatenate(ms, k);
    FinishTouched(ms, k, at);
    StretchIs(ms, k, at, n);
    part := FinalBlocks(ms[..at], k, n);
    BlockCarries(f, xs, k, at, part);
    assert ms[..at] == Meanings(f, xs[..at]);
    QuietIffSilent(f, xs, k, at);
  }

  lemma {:induction false} FinishIs(es: seq<Action>, k: Text)
    ensures IsFinish(es, k, FinishAt(es, k))
  {
    hide Stops;
  }

  // ----- the two formats -----

  predicate InBoth(xs: seq<Said>) {
    AllSendable(ConverseFormat, xs) && AllSendable(AnthropicFormat, xs)
  }

  predicate NoneStrange(xs: seq<Said>) {
    forall i :: 0 <= i < |xs| ==> !xs[i].Strange?
  }

  /** Blocks of the two formats: the same place, kind, role, text and tool input; a block that one saying
      makes by itself has the text of its format. */
  predicate Alike(b: Block, c: Block) {
    && b.ordinal == c.ordinal && b.kind == c.kind && b.origin == c.origin && b.role == c.role
    && (b.text == c.text || b.kind == ProviderEnvelope)
    && (b.content.ToolUse? <==> c.content.ToolUse?)
    && (b.content.ToolUse? ==> b.content.inputText == c.content.inputText)
  }

  predicate AllAlike(bs: seq<Block>, cs: seq<Block>) {
    |bs| == |cs| && forall i :: 0 <= i < |bs| ==> Alike(bs[i], cs[i])
  }

  /** Actions that differ at most in the pieces, texts and payloads they bring. */
  predicate Match(a: Action, b: Action) {
    match a
    case Touch(i, _) => b.Touch? && b.index == i
    case Emit(kind, _, _) => b.Emit? && b.kind == kind == ProviderEnvelope
    case _ => a == b
  }

  predicate AllMatch(es: seq<Action>, fs: seq<Action>) {
    |es| == |fs| && forall i :: 0 <= i < |es| ==> Match(es[i], fs[i])
  }

  lemma {:induction false} MatchTouched(es: seq<Action>, fs: seq<Action>, k: Text)
    requires AllMatch(es, fs)
    ensures Touched(es, k) <==> Touched(fs, k)
  {
    forall i | 0 <= i < |es| ensures es[i].Touch? && es[i].index == k <==> fs[i].Touch? && fs[i].index == k {
      assert Match(es[i], fs[i]);
    }
  }

  /** Everything but the pieces is decided by what matches. */
  lemma {:induction false} MatchDecides(es: seq<Action>, fs: seq<Action>, k: Text)
    requires AllMatch(es, fs)
    ensures TouchOrder(es) == TouchOrder(fs) && Live(es) == Live(fs) && RoleAfter(es) == RoleAfter(fs)
    ensures FirstTouch(es, k) == FirstTouch(fs, k) && TouchRole(es, k) == TouchRole(fs, k)
    decreases |es|
  {
    if es != [] {
      var n := |es| - 1;
      assert Match(es[n], fs[n]);
      forall i | 0 <= i < n ensures Match(es[..n][i], fs[..n][i]) { assert Match(es[i], fs[i]); }
      MatchDecides(es[..n], fs[..n], k);
      MatchTouched(es[..n], fs[..n], k);
      assert es[..n + 1] == es && fs[..n + 1] == fs;
      StepFor(es, n, k);
      StepFor(fs, n, k);
      OrderStep(es, n);
      OrderStep(fs, n);
      if es[n].Stop? { MatchTouched(es[..n], fs[..n], es[n].index); }
      hide TouchOrder; hide Live; hide RoleAfter; hide FirstTouch; hide TouchRole; hide Touched; hide Match;
    }
  }

  lemma {:induction false} MeaningsMatch(xs: seq<Said>)
    requires InBoth(xs) && NoneStrange(xs)
    ensures AllMatch(Meanings(ConverseFormat, xs), Meanings(AnthropicFormat, xs))
  {
    hide Sendable; hide Meaning; hide Match;
    forall i | 0 <= i < |xs| ensures Match(Meaning(ConverseFormat, xs[i]), Meaning(AnthropicFormat, xs[i])) {
      SayingMatches(xs[i]);
    }
  }

  lemma {:induction false} SayingMatches(s: Said)
    requires Sendable(ConverseFormat, s) && Sendable(AnthropicFormat, s) && !s.Strange?
    ensures Match(Meaning(ConverseFormat, s), Meaning(AnthropicFormat, s))
  {
    hide Name; hide KnownNames; hide StringField;
  }

  /** What the formats have in common of the parts of a block. */
  predicate PartsMatch(p: Parts, q: Parts) {
    && p.text == q.text && p.thinking == q.thinking
    && (p.thinking == [] && p.thinkingValues == [] <==> q.thinking == [] && q.thinkingValues == [])
    && (p.toolStart.Some? <==> q.toolStart.Some?) && p.toolInput == q.toolInput
    && (p.unknown == [] <==> q.unknown == [])
  }

  lemma {:induction false} MatchStep(p: Parts, q: Parts, s: Said)
    requires Sendable(ConverseFormat, s) && Sendable(AnthropicFormat, s) && !s.Strange? && PartsMatch(p, q)
    requires Meaning(ConverseFormat, s).Touch?
    ensures Meaning(AnthropicFormat, s).Touch?
    ensures PartsMatch(PushAll(p, Meaning(ConverseFormat, s).pieces), PushAll(q, Meaning(AnthropicFormat, s).pieces))
  {
    hide Name; hide KnownNames; hide StringField; hide Signature; hide ToolJson; hide Document; hide Citation;
    hide Reasoning; hide PushAll; hide Label; hide EventOf; hide Sendable; hide ReasoningContent;
    PushFew(p, Meaning(ConverseFormat, s).pieces);
    PushFew(q, Meaning(AnthropicFormat, s).pieces);
  }

  lemma {:induction false} PushFew(b: Parts, ps: seq<Piece>)
    requires |ps| <= 2
    ensures ps == [] ==> PushAll(b, ps) == b
    ensures |ps| == 1 ==> PushAll(b, ps) == Push(b, ps[0])
    ensures |ps| == 2 ==> PushAll(b, ps) == Push(Push(b, ps[0]), ps[1])
  {
    if |ps| == 1 { assert ps[..0] == []; }
    if |ps| == 2 {
      assert ps[..1][..0] == [] && ps[..1][0] == ps[0];
      assert PushAll(b, ps[..1]) == Push(b, ps[0]);
    }
  }

  lemma {:induction false} PartsMatchFor(xs: seq<Said>, k: Text)
    requires InBoth(xs) && NoneStrange(xs)
    ensures PartsMatch(PartsOf(PiecesFor(Meanings(ConverseFormat, xs), k)),
                       PartsOf(PiecesFor(Meanings(AnthropicFormat, xs), k)))
    decreases |xs|
  {
    if xs == [] {
      NoParts();
    } else {
      hide Meaning; hide PartsOf; hide PushAll; hide Sendable; hide PartsMatch;
      var n := |xs| - 1;
      PartsMatchFor(xs[..n], k);
      var c, a := Meanings(ConverseFormat, xs), Meanings(AnthropicFormat, xs);
      assert c[..n] == Meanings(ConverseFormat, xs[..n]) && a[..n] == Meanings(AnthropicFormat, xs[..n]);
      MeaningOf(ConverseFormat, xs[n], k);
      MeaningOf(AnthropicFormat, xs[n], k);
      PushAllParts(PiecesFor(c[..n], k), if Touches(c[n], k) then c[n].pieces else []);
      PushAllParts(PiecesFor(a[..n], k), if Touches(a[n], k) then a[n].pieces else []);
      PushFew(PartsOf(PiecesFor(c[..n], k)), []);
      PushFew(PartsOf(PiecesFor(a[..n], k)), []);
      if Touches(c[n], k) {
        MatchStep(PartsOf(PiecesFor(c[..n], k)), PartsOf(PiecesFor(a[..n], k)), xs[n]);
      }
    }
  }

  lemma {:induction false} AppendAllAlike(bs: seq<Block>, bs': seq<Block>, cs: seq<Block>, cs': seq<Block>)
    requires AllAlike(bs, cs) && AllAlike(bs', cs')
    ensures AllAlike(bs + bs', cs + cs') && |bs + bs'| == |cs + cs'|
  {
    hide Alike;
  }

  lemma {:induction false} PartsAlike(p: Parts, q: Parts, origin: nat, role: Option<Text>, n: nat)
    requires PartsMatch(p, q)
    ensures AllAlike(TextBlock(p, origin, role, n), TextBlock(q, origin, role, n))
    ensures AllAlike(ThinkingBlock(p, origin, role, n), ThinkingBlock(q, origin, role, n))
    ensures AllAlike(ToolBlock(p, origin, role, n), ToolBlock(q, origin, role, n))
    ensures AllAlike(UnknownBlock(p, origin, role, n), UnknownBlock(q, origin, role, n))
  {
    hide Concat;
  }

  lemma {:induction false} SameLength(bs: seq<Block>, cs: seq<Block>)
    requires AllAlike(bs, cs)
    ensures |bs| == |cs|
  {}

  lemma {:induction false} RenderAlikeFor(p: Parts, q: Parts, origin: nat, role: Option<Text>, n: nat)
    requires PartsMatch(p, q)
    ensures AllAlike(Render(p, origin, role, n), Render(q, origin, role, n))
  {
    hide TextBlock; hide ThinkingBlock; hide ToolBlock; hide UnknownBlock; hide PartsMatch; hide AllAlike;
    var b1, c1 := TextBlock(p, origin, role, n), TextBlock(q, origin, role, n);
    PartsAlike(p, q, origin, role, n);
    SameLength(b1, c1);
    var i := n + |b1|;
    var b2, c2 := ThinkingBlock(p, origin, role, i), ThinkingBlock(q, origin, role, i);
    PartsAlike(p, q, origin, role, i);
    SameLength(b2, c2);
    var b3, c3 := ToolBlock(p, origin, role, i + |b2|), ToolBlock(q, origin, role, i + |b2|);
    PartsAlike(p, q, origin, role, i + |b2|);
    SameLength(b3, c3);
    var m := i + |b2| + |b3|;
    var b4, c4 := UnknownBlock(p, origin, role, m), UnknownBlock(q, origin, role, m);
    PartsAlike(p, q, origin, role, m);
    AppendAllAlike(b2, b3, c2, c3);
    AppendAllAlike(b2 + b3, b4, c2 + c3, c4);
    AppendAllAlike(b1, b2 + b3 + b4, c1, c2 + c3 + c4);
  }

  lemma {:induction false} FinalAlikeFor(xs: seq<Said>, k: Text, n: nat)
    requires InBoth(xs) && NoneStrange(xs)
    ensures AllAlike(FinalBlocks(Meanings(ConverseFormat, xs), k, n), FinalBlocks(Meanings(AnthropicFormat, xs), k, n))
  {
    hide AllAlike; hide Render; hide PartsOf; hide PiecesFor; hide Meaning; hide AllMatch; hide PartsMatch;
    hide Sendable;
    hide TouchRole; hide RoleAfter; hide FirstTouch; hide TouchOrder; hide Live;
    var c, a := Meanings(ConverseFormat, xs), Meanings(AnthropicFormat, xs);
    PartsMatchFor(xs, k);
    MeaningsMatch(xs);
    MatchDecides(c, a, k);
    RenderAlikeFor(PartsOf(PiecesFor(c, k)), PartsOf(PiecesFor(a, k)), FirstTouch(c, k),
                   Or(TouchRole(c, k), RoleAfter(c)), n);
  }

  lemma {:induction false} OutputAlike(xs: seq<Said>, o: Output, n: nat)
    requires InBoth(xs) && NoneStrange(xs)
    ensures AllAlike(RenderOutput(Meanings(ConverseFormat, xs), o, n),
                     RenderOutput(Meanings(AnthropicFormat, xs), o, n))
  {
    hide FinalBlocks; hide Meaning; hide Sendable; hide RoleAfter; hide Live; hide TouchOrder; hide FirstTouch;
    hide TouchRole;
    var c, a := Meanings(ConverseFormat, xs), Meanings(AnthropicFormat, xs);
    var at := if o.at <= |xs| then o.at else |xs|;
    assert c[..at] == Meanings(ConverseFormat, xs[..at]) && a[..at] == Meanings(AnthropicFormat, xs[..at]);
    assert c[..|xs|] == c && a[..|xs|] == a;
    if o.Finish? {
      hide AllAlike;
      FinalAlikeFor(xs[..at], o.k, n);
    } else {
      MeaningsMatch(xs[..at]);
      MatchDecides(c[..at], a[..at], []);
      MeaningsMatch(xs);
      assert at < |xs| ==> Match(c[at], a[at]);
    }
  }

  lemma {:induction false} PlanAlike(xs: seq<Said>, plan: seq<Output>)
    requires InBoth(xs) && NoneStrange(xs)
    ensures AllAlike(RenderPlan(Meanings(ConverseFormat, xs), plan), RenderPlan(Meanings(AnthropicFormat, xs), plan))
    decreases |plan|
  {
    hide RenderOutput; hide Meanings;
    var c, a := Meanings(ConverseFormat, xs), Meanings(AnthropicFormat, xs);
    if plan != [] {
      hide AllAlike;
      var n := |plan| - 1;
      var bs, cs := RenderPlan(c, plan[..n]), RenderPlan(a, plan[..n]);
      PlanAlike(xs, plan[..n]);
      SameLength(bs, cs);
      OutputAlike(xs, plan[n], |bs|);
      AppendAllAlike(bs, RenderOutput(c, plan[n], |bs|), cs, RenderOutput(a, plan[n], |bs|));
    }
  }

  // ----- an event neither format knows -----

  lemma {:induction false} InConcat<T>(parts: seq<seq<T>>, x: T)
    ensures x in Concat(parts) <==> exists i :: 0 <= i < |parts| && x in parts[i]
    decreases |parts|
  {
    if parts != [] {
      InConcat(parts[1..], x);
      assert forall i :: 0 <= i < |parts[1..]| ==> parts[1..][i] == parts[i + 1];
      assert x in parts[0] + Concat(parts[1..]) <==> x in parts[0] || x in Concat(parts[1..]);
    }
  }

  /** Every block comes from something said for its index, or from a saying that is a block by itself. */
  lemma {:induction false} OriginsAreSaid(f: Format, xs: seq<Said>, b: Block)
    requires AllSendable(f, xs) && b in BlocksOf(f, xs)
    ensures b.origin < |xs| && (BlockIndex(xs[b.origin]).Some? || Alone(f, xs[b.origin]))
  {
    hide Sendable; hide Order; hide BlocksOf; hide Holds; hide KindsSaid; hide BlockRole; hide RoleSaid; hide Alone;
    hide BlockIndex;
    var plan, parts := SaidComesOut(f, xs);
    InConcat(parts, b);
    var i :| 0 <= i < |parts| && b in parts[i];
    assert Shown(f, xs, plan[i], parts[i]);
    var j :| 0 <= j < |parts[i]| && parts[i][j] == b;
  }

  lemma {:induction false} AloneIsShown(f: Format, xs: seq<Said>, i: nat) returns (b: Block)
    requires AllSendable(f, xs) && i < |xs| && Alone(f, xs[i])
    ensures b in BlocksOf(f, xs) && b.origin == i
  {
    hide Sendable; hide BlocksOf; hide Holds; hide KindsSaid; hide BlockRole; hide RoleSaid; hide Alone; hide Spoke;
    hide IsEnd;
    hide Sooner;
    var plan, parts := SaidComesOut(f, xs);
    assert Envelope(i) in plan;
    var j :| 0 <= j < |plan| && plan[j] == Envelope(i);
    assert Shown(f, xs, plan[j], parts[j]);
    b := parts[j][0];
    InConcat(parts, b);
  }

  lemma {:induction false} AlikeHasOrigin(bs: seq<Block>, cs: seq<Block>, c: Block)
    requires AllAlike(bs, cs) && c in cs
    ensures exists b :: b in bs && b.origin == c.origin
  {
    var i :| 0 <= i < |cs| && cs[i] == c;
    assert Alike(bs[i], cs[i]);
  }

  lemma {:induction false} StrangeDiffers(xs: seq<Said>, i: nat)
    requires InBoth(xs) && i < |xs| && xs[i].Strange?
    ensures !AllAlike(BlocksOf(ConverseFormat, xs), BlocksOf(AnthropicFormat, xs))
  {
    hide AllAlike; hide BlocksOf; hide Sendable;
    var b := AloneIsShown(AnthropicFormat, xs, i);
    if AllAlike(BlocksOf(ConverseFormat, xs), BlocksOf(AnthropicFormat, xs)) {
      AlikeHasOrigin(BlocksOf(ConverseFormat, xs), BlocksOf(AnthropicFormat, xs), b);
      var b' :| b' in BlocksOf(ConverseFormat, xs) && b'.origin == b.origin;
      OriginsAreSaid(ConverseFormat, xs, b');
    }
  }

  lemma {:induction false} KnownAlike(xs: seq<Said>)
    requires InBoth(xs) && NoneStrange(xs)
    ensures AllAlike(BlocksOf(ConverseFormat, xs), BlocksOf(AnthropicFormat, xs))
  {
    hide AllAlike; hide RenderPlan; hide Live; hide Flush; hide TouchOrder; hide Meaning; hide ClassifyAll;
    hide Sendable;
    hide AllMatch; hide FirstTouch; hide TouchRole; hide RoleAfter; hide Finished;
    var c, a := Meanings(ConverseFormat, xs), Meanings(AnthropicFormat, xs);
    ReadAsMeant(ConverseFormat, xs);
    ReadAsMeant(AnthropicFormat, xs);
    MeaningsMatch(xs);
    MatchDecides(c, a, []);
    PlanAlike(xs, Plan(c));
  }

  /** The same stream sent in the two formats gives the same blocks, in the same places, with the same
      kinds, roles, texts and tool inputs, exactly when no event in it is unknown. */
  lemma {:induction false} FormatsAssembleAlikeIff(xs: seq<Said>)
    requires InBoth(xs)
    ensures AllAlike(BlocksOf(ConverseFormat, xs), BlocksOf(AnthropicFormat, xs)) <==> NoneStrange(xs)
  {
    hide AllAlike; hide BlocksOf; hide Sendable;
    if NoneStrange(xs) {
      KnownAlike(xs);
    } else {
      var i :| 0 <= i < |xs| && xs[i].Strange?;
      StrangeDiffers(xs, i);
    }
  }
}
