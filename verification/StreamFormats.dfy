/** The events Bedrock sends, in either of its two stream formats, and what the normalizers read in
    them: the sender's meaning, and the same for both formats. */
module StreamFormats {
  import opened Bytes
  import opened Ordering
  import opened CanonicalJson
  import opened BedrockEvents

  /** How a Converse stream carries a thought: as reasoning content in one of three shapes, or directly, in
      one of two fields, of which `thinking` goes before `reasoning`. */
  datatype Way = ContentText | ContentString | ContentNested | Direct | DirectReasoning | DirectOver(reasoning: Text)
  {
    predicate IsDirect() {
      Direct? || DirectReasoning? || DirectOver?
    }
  }

  /** What a sender says, event by event; block indexes and latencies are number tokens. */
  datatype Said =
    | Role(role: Option<Text>)
    | Starts(index: Text)
    | StartsText(index: Text, t: Text)
    | StartsThought(index: Text, t: Text)
    | StartsOther(index: Text, v: Json)
    | Says(index: Text, t: Text)
    | Thinks(index: Text, t: Text, way: Way)
    | Signs(index: Text, signature: Text)
    | Calls(index: Text, tool: seq<Entry>)
    | CallInput(index: Text, t: Text)
    | SaysAndCalls(index: Text, t: Text, input: Text)
    | Cites(index: Text, v: Json)
    | Ends(index: Text)
    | StopsFor(reason: Option<Text>)
    | Measures(latency: Option<Text>)
    | Closes
    | Stray(t: Text)
    | StrayEnd
    | Strange(name: Option<Text>, payload: Json)

  /** The formats differ in some of the events they have. */
  predicate Sendable(f: Format, s: Said) {
    match s
    case StartsText(_, _) => f.AnthropicFormat?
    case StartsThought(_, _) => f.AnthropicFormat?
    case Closes => f.AnthropicFormat?
    case SaysAndCalls(_, _, _) => f.ConverseFormat?
    case Measures(_) => f.ConverseFormat?
    case Strange(name, payload) => (name.Some? ==> name.value !in KnownNames()) && StringField(payload, "type").None?
    case _ => true
  }

  function KnownNames(): set<Text> {
    {Name("messageStart"), Name("contentBlockStart"), Name("contentBlockDelta"), Name("contentBlockStop"),
     Name("messageStop"), Name("metadata"),
     Name("message_start"), Name("content_block_start"), Name("content_block_delta"), Name("content_block_stop"),
     Name("message_delta"), Name("message_stop")}
  }

  function Field(key: string, v: Json): Entry {
    Entry(Name(key), v)
  }

  function Given(key: string, v: Option<Text>): seq<Entry> {
    if v.Some? then [Field(key, Str(v.value))] else []
  }

  // ----- the events of a Converse stream -----

  function Sent(name: string, fields: seq<Entry>): Event {
    Event(Some(Name(name)), Obj(fields))
  }

  function ConverseDeltaEvent(index: Text, delta: Json): Event {
    Sent("contentBlockDelta", [Field("delta", delta), Field("contentBlockIndex", Num(index))])
  }

  function ConverseStartEvent(index: Text, start: Json): Event {
    Sent("contentBlockStart", [Field("start", start), Field("contentBlockIndex", Num(index))])
  }

  function ReasoningContent(t: Text, way: Way): Json {
    match way
    case ContentString => Obj([Field("reasoningText", Str(t))])
    case ContentNested => Obj([Field("reasoningText", Obj([Field("text", Str(t))]))])
    case _ => Obj([Field("text", Str(t))])
  }

  function Reasoning(content: Json): Json {
    Obj([Field("reasoningContent", content)])
  }

  function ThoughtDelta(t: Text, way: Way): Json {
    match way
    case Direct => Obj([Field("thinking", Str(t))])
    case DirectReasoning => Obj([Field("reasoning", Str(t))])
    case DirectOver(reasoning) => Obj([Field("reasoning", Str(reasoning)), Field("thinking", Str(t))])
    case _ => Reasoning(ReasoningContent(t, way))
  }

  function Signature(f: Format, signature: Text): Json {
    if f.ConverseFormat? then Reasoning(Obj([Field("signature", Str(signature))]))
    else Obj([Field("type", Str(Name("signature_delta"))), Field("signature", Str(signature))])
  }

  function Document(v: Json): Json {
    Obj([Field("document", v)])
  }

  function Citation(v: Json): Json {
    Obj([Field("citation", v)])
  }

  function ConverseEvent(s: Said): Event
    requires Sendable(ConverseFormat, s)
  {
    match s
    case Role(r) => Sent("messageStart", Given("role", r))
    case Starts(i) => Sent("contentBlockStart", [Field("contentBlockIndex", Num(i))])
    case StartsOther(i, v) => ConverseStartEvent(i, Document(v))
    case Says(i, t) => ConverseDeltaEvent(i, Obj([Field("text", Str(t))]))
    case Thinks(i, t, way) => ConverseDeltaEvent(i, ThoughtDelta(t, way))
    case Signs(i, signature) => ConverseDeltaEvent(i, Signature(ConverseFormat, signature))
    case Calls(i, tool) => ConverseStartEvent(i, Obj([Field("toolUse", Obj(tool))]))
    case CallInput(i, t) => ConverseDeltaEvent(i, Obj([Field("toolUse", Obj([Field("input", Str(t))]))]))
    case SaysAndCalls(i, t, input) =>
      ConverseDeltaEvent(i, Obj([Field("text", Str(t)), Field("toolUse", Obj([Field("input", Str(input))]))]))
    case Cites(i, v) => ConverseDeltaEvent(i, Citation(v))
    case Ends(i) => Sent("contentBlockStop", [Field("contentBlockIndex", Num(i))])
    case StopsFor(reason) => Sent("messageStop", Given("stopReason", reason))
    case Measures(latency) =>
      Sent("metadata", if latency.Some? then [Field("metrics", Obj([Field("latencyMs", Num(latency.value))]))] else [])
    case Stray(t) => Sent("contentBlockDelta", [Field("delta", Obj([Field("text", Str(t))]))])
    case StrayEnd => Sent("contentBlockStop", [])
    case Strange(name, payload) => Event(name, payload)
  }

  // ----- the events of an Anthropic Messages stream; the payload names the type -----

  function Chunk(name: string, fields: seq<Entry>): Event {
    Event(Some(Name("chunk")), Obj([Field("type", Str(Name(name)))] + fields))
  }

  function Typed(kind: string, fields: seq<Entry>): Json {
    Obj([Field("type", Str(Name(kind)))] + fields)
  }

  function AnthropicDeltaEvent(index: Text, delta: Json): Event {
    Chunk("content_block_delta", [Field("index", Num(index)), Field("delta", delta)])
  }

  function AnthropicStartEvent(index: Text, block: Json): Event {
    Chunk("content_block_start", [Field("index", Num(index)), Field("content_block", block)])
  }

  function AnthropicEvent(s: Said): Event
    requires Sendable(AnthropicFormat, s)
  {
    match s
    case Role(r) => Chunk("message_start", [Field("message", Obj(Given("role", r)))])
    case Starts(i) => AnthropicStartEvent(i, Typed("text", []))
    case StartsText(i, t) => AnthropicStartEvent(i, Typed("text", [Field("text", Str(t))]))
    case StartsThought(i, t) => AnthropicStartEvent(i, Typed("thinking", [Field("thinking", Str(t))]))
    case StartsOther(i, v) => AnthropicStartEvent(i, Document(v))
    case Says(i, t) => AnthropicDeltaEvent(i, Typed("text_delta", [Field("text", Str(t))]))
    case Thinks(i, t, _) => AnthropicDeltaEvent(i, Typed("thinking_delta", [Field("thinking", Str(t))]))
    case Signs(i, signature) => AnthropicDeltaEvent(i, Signature(AnthropicFormat, signature))
    case Calls(i, tool) => AnthropicStartEvent(i, Typed("tool_use", tool))
    case CallInput(i, t) => AnthropicDeltaEvent(i, Typed("input_json_delta", [Field("partial_json", Str(t))]))
    case Cites(i, v) => AnthropicDeltaEvent(i, Citation(v))
    case Ends(i) => Chunk("content_block_stop", [Field("index", Num(i))])
    case StopsFor(reason) => Chunk("message_delta", [Field("delta", Obj(Given("stop_reason", reason)))])
    case Closes => Chunk("message_stop", [])
    case Stray(t) => Chunk("content_block_delta", [Field("delta", Typed("text_delta", [Field("text", Str(t))]))])
    case StrayEnd => Chunk("content_block_stop", [])
    case Strange(name, payload) => Event(name, payload)
  }

  function EventOf(f: Format, s: Said): Event
    requires Sendable(f, s)
  {
    if f.ConverseFormat? then ConverseEvent(s) else AnthropicEvent(s)
  }

  // ----- what they mean to the assembler -----

  /** The text of the block that a saying makes by itself. */
  function Label(f: Format, s: Said): Option<Text> {
    match s
    case StopsFor(None) => Some(Name(if f.ConverseFormat? then "messageStop" else "message_delta"))
    case StopsFor(Some(reason)) => Some(Name(if f.ConverseFormat? then "stopReason:" else "stop_reason:") + reason)
    case Measures(None) => Some(Name("metadata"))
    case Measures(Some(latency)) => Some(Name("latencyMs:") + latency)
    case Closes => Some(Name("message_stop"))
    case _ => None
  }

  /** What the assembler is to do; the formats differ in what else they record of a tool or a thought. */
  function Meaning(f: Format, s: Said): Action
    requires Sendable(f, s)
  {
    match s
    case Role(r) => SetRole(r)
    case Starts(i) => Touch(i, [])
    case StartsText(i, t) => Touch(i, [TextPart(t)])
    case StartsThought(i, t) => Touch(i, [ThinkingPart(t)])
    case StartsOther(i, v) => Touch(i, [UnknownValue(Document(v))])
    case Says(i, t) => Touch(i, [TextPart(t)])
    case Thinks(i, t, way) => Touch(i, [ThinkingPart(t)] + ThoughtRecord(f, t, way))
    case Signs(i, signature) => Touch(i, [ThinkingValue(Signature(f, signature))])
    case Calls(i, tool) => Touch(i, [ToolStart(ToolJson(f, tool))])
    case CallInput(i, t) => Touch(i, [ToolInput(t)])
    case SaysAndCalls(i, t, input) => Touch(i, [TextPart(t), ToolInput(input)])
    case Cites(i, v) => Touch(i, [UnknownValue(Citation(v))])
    case Ends(i) => BedrockEvents.Stop(i)
    case StopsFor(_) => Emit(ProviderEnvelope, Label(f, s), EventOf(f, s).payload)
    case Measures(_) => Emit(ProviderEnvelope, Label(f, s), EventOf(f, s).payload)
    case Closes => Emit(ProviderEnvelope, Label(f, s), EventOf(f, s).payload)
    case Stray(_) => Ignore
    case StrayEnd => Ignore
    case Strange(_, payload) => if f.ConverseFormat? then Ignore else Emit(Unknown, None, payload)
  }

  /** Reasoning content is recorded as a value too. */
  function ThoughtRecord(f: Format, t: Text, way: Way): seq<Piece> {
    if f.AnthropicFormat? || way.IsDirect() then []
    else [ThinkingValue(Reasoning(ReasoningContent(t, way)))]
  }

  function ToolJson(f: Format, tool: seq<Entry>): Json {
    if f.ConverseFormat? then Obj(tool) else Typed("tool_use", tool)
  }

  // ----- reading fields by name -----

  predicate Ascii(s: string) {
    forall i :: 0 <= i < |s| ==> s[i] as int < 128
  }

  /** Field and event names are told apart. */
  lemma {:induction false} NamesDiffer(x: string, y: string)
    requires Ascii(x) && Ascii(y) && x != y
    ensures Name(x) != Name(y)
  {
    if |x| == |y| {
      var i :| 0 <= i < |x| && x[i] != y[i];
      assert Name(x)[i] == (x[i] as int) as CodeUnit && Name(y)[i] == (y[i] as int) as CodeUnit;
    }
  }

  lemma {:induction false} LookupCons(e: Entry, rest: seq<Entry>, key: Text)
    ensures Lookup([e] + rest, key) == if e.key == key then e.value else Lookup(rest, key)
    ensures Lookup([], key) == Opaque
  {
    assert ([e] + rest)[1..] == rest;
  }

  /** The first field, or what the others say. */
  lemma {:induction false} FirstField(key: string, v: Json, rest: seq<Entry>, other: string)
    requires Ascii(key) && Ascii(other)
    ensures Child(Obj([Field(key, v)] + rest), other) == if other == key then v else Child(Obj(rest), other)
  {
    if other != key { NamesDiffer(key, other); }
    hide Name; hide Lookup;
    LookupCons(Field(key, v), rest, Name(other));
  }

  lemma {:induction false} NoField(other: string)
    ensures Child(Obj([]), other) == Opaque && Child(Opaque, other) == Opaque
  {}

  /** A record with one field, and with two. */
  lemma {:induction false} OneField(key: string, v: Json, other: string)
    requires Ascii(key) && Ascii(other)
    ensures Child(Obj([Field(key, v)]), other) == if other == key then v else Opaque
  {
    FirstField(key, v, [], other);
    NoField(other);
    hide Child; hide Name;
    assert [Field(key, v)] + [] == [Field(key, v)];
  }

  lemma {:induction false} TwoFields(key: string, v: Json, key': string, v': Json, other: string)
    requires Ascii(key) && Ascii(key') && Ascii(other)
    ensures Child(Obj([Field(key, v), Field(key', v')]), other)
         == if other == key then v else if other == key' then v' else Opaque
  {
    FirstField(key, v, [Field(key', v')], other);
    OneField(key', v', other);
    hide Child; hide Name;
    assert [Field(key, v)] + [Field(key', v')] == [Field(key, v), Field(key', v')];
  }

  lemma {:induction false} GivenField(key: string, v: Option<Text>, other: string)
    requires Ascii(key) && Ascii(other)
    ensures StringField(Obj(Given(key, v)), other) == if other == key then v else None
  {
    hide Child; hide Name;
    if v.Some? { OneField(key, Str(v.value), other); } else { NoField(other); }
  }

  /** A typed record: its type, and the fields after it. */
  lemma {:induction false} TypedField(kind: string, fields: seq<Entry>, other: string)
    requires Ascii(other)
    ensures Child(Typed(kind, fields), other) == if other == "type" then Str(Name(kind)) else Child(Obj(fields), other)
  {
    hide Child; hide Name;
    FirstField("type", Str(Name(kind)), fields, other);
  }

  lemma {:induction false} TypedOne(kind: string, key: string, v: Json, other: string)
    requires Ascii(key) && Ascii(other)
    ensures Child(Typed(kind, [Field(key, v)]), other)
         == if other == "type" then Str(Name(kind)) else if other == key then v else Opaque
  {
    hide Child; hide Name; hide Typed;
    TypedField(kind, [Field(key, v)], other);
    OneField(key, v, other);
  }

  // ----- Converse -----

  lemma {:induction false} ConverseNames()
    ensures Name("contentBlockStart") != Name("messageStart")
    ensures Name("contentBlockDelta") != Name("messageStart") && Name("contentBlockDelta") != Name("contentBlockStart")
    ensures Name("contentBlockStop") != Name("messageStart") && Name("contentBlockStop") != Name("contentBlockStart")
    ensures Name("contentBlockStop") != Name("contentBlockDelta")
    ensures Name("messageStop") != Name("messageStart") && Name("messageStop") != Name("contentBlockStart")
    ensures Name("messageStop") != Name("contentBlockDelta") && Name("messageStop") != Name("contentBlockStop")
    ensures Name("metadata") != Name("messageStart") && Name("metadata") != Name("contentBlockStart")
    ensures Name("metadata") != Name("contentBlockDelta") && Name("metadata") != Name("contentBlockStop")
    ensures Name("metadata") != Name("messageStop")
  {
    hide Name;
    NamesDiffer("contentBlockStart", "messageStart");
    NamesDiffer("contentBlockDelta", "messageStart");
    NamesDiffer("contentBlockDelta", "contentBlockStart");
    NamesDiffer("contentBlockStop", "messageStart");
    NamesDiffer("contentBlockStop", "contentBlockStart");
    NamesDiffer("contentBlockStop", "contentBlockDelta");
    NamesDiffer("messageStop", "messageStart");
    NamesDiffer("messageStop", "contentBlockStart");
    NamesDiffer("messageStop", "contentBlockDelta");
    NamesDiffer("messageStop", "contentBlockStop");
    NamesDiffer("metadata", "messageStart");
    NamesDiffer("metadata", "contentBlockStart");
    NamesDiffer("metadata", "contentBlockDelta");
    NamesDiffer("metadata", "contentBlockStop");
    NamesDiffer("metadata", "messageStop");
  }

  lemma {:induction false} ConverseDeltaReads(index: Text, delta: Json)
    requires delta.Obj?
    ensures Converse(ConverseDeltaEvent(index, delta)) == Touch(index, ConverseDelta(delta))
  {
    hide Name; hide Child; hide ConverseDelta;
    ConverseNames();
    TwoFields("delta", delta, "contentBlockIndex", Num(index), "delta");
    TwoFields("delta", delta, "contentBlockIndex", Num(index), "contentBlockIndex");
  }

  lemma {:induction false} ConverseStartReads(index: Text, start: Json)
    requires start.Obj?
    ensures Converse(ConverseStartEvent(index, start)) == Touch(index,
      if Child(start, "toolUse").Obj? then [ToolStart(Child(start, "toolUse"))] else [UnknownValue(start)])
  {
    hide Name; hide Child;
    ConverseNames();
    TwoFields("start", start, "contentBlockIndex", Num(index), "start");
    TwoFields("start", start, "contentBlockIndex", Num(index), "contentBlockIndex");
  }

  /** A delta of one field, by what the field is called. */
  lemma {:induction false} DeltaOf(key: string, v: Json)
    requires Ascii(key)
    ensures var delta := Obj([Field(key, v)]);
      ConverseDelta(delta) ==
        if key == "text" && v.Str? then [TextPart(v.s)]
        else if key == "toolUse" && StringField(RecordField(delta, key), "input").Some?
        then [ToolInput(StringField(RecordField(delta, key), "input").value)]
        else if (key == "thinking" || key == "reasoning") && v.Str? then [ThinkingPart(v.s)]
        else if key == "reasoningContent" && v.Obj? then ReasoningPieces(v)
        else [UnknownValue(delta)]
  {
    hide Name; hide Child;
    OneField(key, v, "text");
    OneField(key, v, "toolUse");
    OneField(key, v, "thinking");
    OneField(key, v, "reasoning");
    OneField(key, v, "reasoningContent");
    NoField("input");
  }

  /** What reasoning content says, and that it is recorded. */
  function ReasoningPieces(content: Json): seq<Piece> {
    var text := Or(Or(StringField(content, "text"), StringField(content, "reasoningText")),
                   StringField(RecordField(content, "reasoningText"), "text"));
    One(text, t => ThinkingPart(t)) + [ThinkingValue(Reasoning(content))]
  }

  lemma {:induction false} ContentSays(t: Text, way: Way)
    requires !way.IsDirect()
    ensures ReasoningPieces(ReasoningContent(t, way))
         == [ThinkingPart(t), ThinkingValue(Reasoning(ReasoningContent(t, way)))]
  {
    hide Name; hide Child; hide Reasoning;
    var key, v := if way.ContentText? then "text" else "reasoningText",
                  if way.ContentNested? then Obj([Field("text", Str(t))]) else Str(t);
    OneField(key, v, "text");
    OneField(key, v, "reasoningText");
    OneField("text", Str(t), "text");
    NoField("text");
  }

  lemma {:induction false} SignatureSays(signature: Text)
    ensures var content := Obj([Field("signature", Str(signature))]);
      ReasoningPieces(content) == [ThinkingValue(Reasoning(content))]
  {
    hide Name; hide Child; hide Reasoning;
    OneField("signature", Str(signature), "text");
    OneField("signature", Str(signature), "reasoningText");
    NoField("text");
  }

  lemma {:induction false} ThoughtReads(t: Text, way: Way)
    ensures ConverseDelta(ThoughtDelta(t, way)) == [ThinkingPart(t)] + ThoughtRecord(ConverseFormat, t, way)
  {
    hide Name; hide Child; hide ConverseDelta; hide ReasoningPieces; hide ReasoningContent;
    match way {
      case Direct => DeltaOf("thinking", Str(t));
      case DirectReasoning => DeltaOf("reasoning", Str(t));
      case DirectOver(reasoning) => ThinkingGoesFirst(t, reasoning);
      case _ =>
        assert ReasoningContent(t, way).Obj? by { ContentIsRecord(t, way); }
        DeltaOf("reasoningContent", ReasoningContent(t, way));
        ContentSays(t, way);
    }
  }

  lemma {:induction false} ThinkingGoesFirst(t: Text, reasoning: Text)
    ensures ConverseDelta(ThoughtDelta(t, DirectOver(reasoning))) == [ThinkingPart(t)]
  {
    hide Name; hide Child;
    TwoFields("reasoning", Str(reasoning), "thinking", Str(t), "text");
    TwoFields("reasoning", Str(reasoning), "thinking", Str(t), "toolUse");
    TwoFields("reasoning", Str(reasoning), "thinking", Str(t), "thinking");
    NoField("input");
  }

  lemma {:induction false} ContentIsRecord(t: Text, way: Way)
    ensures ReasoningContent(t, way).Obj?
  {}

  lemma {:induction false} BothReads(t: Text, input: Text)
    ensures ConverseDelta(Obj([Field("text", Str(t)), Field("toolUse", Obj([Field("input", Str(input))]))]))
         == [TextPart(t), ToolInput(input)]
  {
    hide Name; hide Child;
    var v := Obj([Field("input", Str(input))]);
    TwoFields("text", Str(t), "toolUse", v, "text");
    TwoFields("text", Str(t), "toolUse", v, "toolUse");
    TwoFields("text", Str(t), "toolUse", v, "thinking");
    TwoFields("text", Str(t), "toolUse", v, "reasoning");
    TwoFields("text", Str(t), "toolUse", v, "reasoningContent");
    OneField("input", Str(input), "input");
    assert [TextPart(t)] + [ToolInput(input)] + [] == [TextPart(t), ToolInput(input)];
  }

  lemma {:induction false} StrangeToConverse(name: Option<Text>, payload: Json)
    requires name.Some? ==> name.value !in KnownNames()
    ensures Converse(Event(name, payload)) == Ignore
  {
    hide Name; hide Child;
    NamesDiffer("unknown", "messageStart");
    NamesDiffer("unknown", "contentBlockStart");
    NamesDiffer("unknown", "contentBlockDelta");
    NamesDiffer("unknown", "contentBlockStop");
    NamesDiffer("unknown", "messageStop");
    NamesDiffer("unknown", "metadata");
  }

  lemma {:induction false} ConverseEnvelopeReads(s: Said)
    requires s.StopsFor? || s.Measures?
    ensures Converse(ConverseEvent(s)) == Meaning(ConverseFormat, s)
  {
    hide Name; hide Child;
    ConverseNames();
    match s {
      case StopsFor(reason) =>
        hide Given;
        GivenField("stopReason", reason, "stopReason");
      case Measures(latency) =>
        NoField("metrics");
        NoField("latencyMs");
        if latency.Some? {
          OneField("metrics", Obj([Field("latencyMs", Num(latency.value))]), "metrics");
          OneField("latencyMs", Num(latency.value), "latencyMs");
        }
    }
  }

  lemma {:induction false} ConverseStrayReads(s: Said)
    requires s.Stray? || s.StrayEnd? || s.Starts? || s.Ends? || s.Role?
    ensures Converse(ConverseEvent(s)) == Meaning(ConverseFormat, s)
  {
    hide Name; hide Child;
    ConverseNames();
    match s {
      case Stray(t) => OneField("delta", Obj([Field("text", Str(t))]), "contentBlockIndex");
      case StrayEnd => NoField("contentBlockIndex");
      case Starts(i) =>
        OneField("contentBlockIndex", Num(i), "contentBlockIndex");
        OneField("contentBlockIndex", Num(i), "start");
        NoField("toolUse");
      case Ends(i) => OneField("contentBlockIndex", Num(i), "contentBlockIndex");
      case Role(r) =>
        hide Given;
        GivenField("role", r, "role");
    }
  }

  lemma {:induction false} ConverseReads(s: Said)
    requires Sendable(ConverseFormat, s)
    ensures Converse(ConverseEvent(s)) == Meaning(ConverseFormat, s)
  {
    hide Name; hide Child; hide ConverseDelta; hide Converse; hide ThoughtRecord; hide ReasoningPieces; hide KnownNames;
    hide ThoughtDelta;
    match s {
      case Says(i, t) =>
        ConverseDeltaReads(i, Obj([Field("text", Str(t))]));
        DeltaOf("text", Str(t));
      case Thinks(i, t, way) =>
        assert ThoughtDelta(t, way).Obj? by { DeltaIsRecord(t, way); }
        ConverseDeltaReads(i, ThoughtDelta(t, way));
        ThoughtReads(t, way);
      case Signs(i, signature) =>
        ConverseDeltaReads(i, Signature(ConverseFormat, signature));
        DeltaOf("reasoningContent", Obj([Field("signature", Str(signature))]));
        SignatureSays(signature);
      case Calls(i, tool) =>
        ConverseStartReads(i, Obj([Field("toolUse", Obj(tool))]));
        OneField("toolUse", Obj(tool), "toolUse");
      case StartsOther(i, v) =>
        ConverseStartReads(i, Document(v));
        OneField("document", v, "toolUse");
      case CallInput(i, t) =>
        var input := Obj([Field("input", Str(t))]);
        ConverseDeltaReads(i, Obj([Field("toolUse", input)]));
        DeltaOf("toolUse", input);
        OneField("toolUse", input, "toolUse");
        OneField("input", Str(t), "input");
      case SaysAndCalls(i, t, input) =>
        ConverseDeltaReads(i, Obj([Field("text", Str(t)), Field("toolUse", Obj([Field("input", Str(input))]))]));
        BothReads(t, input);
      case Cites(i, v) =>
        ConverseDeltaReads(i, Citation(v));
        DeltaOf("citation", v);
      case StopsFor(_) => ConverseEnvelopeReads(s);
      case Measures(_) => ConverseEnvelopeReads(s);
      case Strange(name, payload) => StrangeToConverse(name, payload);
      case _ => ConverseStrayReads(s);
    }
  }

  lemma {:induction false} DeltaIsRecord(t: Text, way: Way)
    ensures ThoughtDelta(t, way).Obj?
  {}

  // ----- Anthropic Messages -----

  lemma {:induction false} AnthropicNames()
    ensures Name("content_block_start") != Name("message_start")
    ensures Name("content_block_delta") != Name("message_start")
    ensures Name("content_block_delta") != Name("content_block_start")
    ensures Name("content_block_stop") != Name("message_start")
    ensures Name("content_block_stop") != Name("content_block_start")
    ensures Name("content_block_stop") != Name("content_block_delta")
    ensures Name("message_delta") != Name("message_start")
    ensures Name("message_delta") != Name("content_block_start")
    ensures Name("message_delta") != Name("content_block_delta")
    ensures Name("message_delta") != Name("content_block_stop")
    ensures Name("message_stop") != Name("message_start")
    ensures Name("message_stop") != Name("content_block_start")
    ensures Name("message_stop") != Name("content_block_delta")
    ensures Name("message_stop") != Name("content_block_stop")
    ensures Name("message_stop") != Name("message_delta")
  {
    hide Name;
    NamesDiffer("content_block_start", "message_start");
    NamesDiffer("content_block_delta", "message_start");
    NamesDiffer("content_block_delta", "content_block_start");
    NamesDiffer("content_block_stop", "message_start");
    NamesDiffer("content_block_stop", "content_block_start");
    NamesDiffer("content_block_stop", "content_block_delta");
    NamesDiffer("message_delta", "message_start");
    NamesDiffer("message_delta", "content_block_start");
    NamesDiffer("message_delta", "content_block_delta");
    NamesDiffer("message_delta", "content_block_stop");
    NamesDiffer("message_stop", "message_start");
    NamesDiffer("message_stop", "content_block_start");
    NamesDiffer("message_stop", "content_block_delta");
    NamesDiffer("message_stop", "content_block_stop");
    NamesDiffer("message_stop", "message_delta");
  }

  lemma {:induction false} AnthropicKinds()
    ensures Name("tool_use") != Name("text") && Name("tool_use") != Name("thinking") && Name("thinking") != Name("text")
    ensures Name("input_json_delta") != Name("text_delta")
    ensures Name("thinking_delta") != Name("text_delta") && Name("thinking_delta") != Name("input_json_delta")
    ensures Name("signature_delta") != Name("text_delta") && Name("signature_delta") != Name("input_json_delta")
    ensures Name("signature_delta") != Name("thinking_delta")
  {
    hide Name;
    NamesDiffer("tool_use", "text");
    NamesDiffer("tool_use", "thinking");
    NamesDiffer("thinking", "text");
    NamesDiffer("input_json_delta", "text_delta");
    NamesDiffer("thinking_delta", "text_delta");
    NamesDiffer("thinking_delta", "input_json_delta");
    NamesDiffer("signature_delta", "text_delta");
    NamesDiffer("signature_delta", "input_json_delta");
    NamesDiffer("signature_delta", "thinking_delta");
  }

  /** What a field of a two-field chunk says. */
  lemma {:induction false} ChunkFields(name: string, key: string, v: Json, key': string, v': Json, other: string)
    requires Ascii(key) && Ascii(key') && Ascii(other) && key != "type" && key' != "type"
    ensures Child(Chunk(name, [Field(key, v), Field(key', v')]).payload, other) ==
      if other == "type" then Str(Name(name)) else if other == key then v else if other == key' then v' else Opaque
  {
    hide Child; hide Name;
    TypedField(name, [Field(key, v), Field(key', v')], other);
    TwoFields(key, v, key', v', other);
  }

  lemma {:induction false} AnthropicDeltaReads(index: Text, delta: Json)
    requires delta.Obj?
    ensures Anthropic(AnthropicDeltaEvent(index, delta)) == Touch(index, AnthropicDelta(delta))
  {
    hide Name; hide Child; hide AnthropicDelta; hide AnthropicStart;
    AnthropicNames();
    ChunkFields("content_block_delta", "index", Num(index), "delta", delta, "type");
    ChunkFields("content_block_delta", "index", Num(index), "delta", delta, "index");
    ChunkFields("content_block_delta", "index", Num(index), "delta", delta, "delta");
  }

  lemma {:induction false} AnthropicStartReads(index: Text, block: Json)
    requires block.Obj?
    ensures Anthropic(AnthropicStartEvent(index, block)) == Touch(index, AnthropicStart(block))
  {
    hide Name; hide Child; hide AnthropicDelta; hide AnthropicStart;
    AnthropicNames();
    ChunkFields("content_block_start", "index", Num(index), "content_block", block, "type");
    ChunkFields("content_block_start", "index", Num(index), "content_block", block, "index");
    ChunkFields("content_block_start", "index", Num(index), "content_block", block, "content_block");
  }

  /** A delta of one field, by its type and what the field is called. */
  lemma {:induction false} TypedDelta(kind: string, key: string, t: Text)
    requires Ascii(key) && key != "type"
    ensures var delta := Typed(kind, [Field(key, Str(t))]);
      && (kind == "text_delta" && key == "text" ==> AnthropicDelta(delta) == [TextPart(t)])
      && (kind == "thinking_delta" && key == "thinking" ==> AnthropicDelta(delta) == [ThinkingPart(t)])
      && (kind == "input_json_delta" && key == "partial_json" ==> AnthropicDelta(delta) == [ToolInput(t)])
      && (kind == "signature_delta" && key == "signature" ==> AnthropicDelta(delta) == [ThinkingValue(delta)])
  {
    hide Name; hide Child; hide Typed;
    AnthropicKinds();
    TypedOne(kind, key, Str(t), "type");
    TypedOne(kind, key, Str(t), "text");
    TypedOne(kind, key, Str(t), "partial_json");
    TypedOne(kind, key, Str(t), "thinking");
  }

  lemma {:induction false} UntypedDelta(key: string, v: Json)
    requires Ascii(key) && key != "type"
    ensures var delta := Obj([Field(key, v)]); AnthropicDelta(delta) == [UnknownValue(delta)]
    ensures var block := Obj([Field(key, v)]); AnthropicStart(block) == [UnknownValue(block)]
  {
    hide Name; hide Child;
    OneField(key, v, "type");
  }

  lemma {:induction false} TypedStart(kind: string, fields: seq<Entry>)
    ensures var block := Typed(kind, fields);
      && (kind == "tool_use" ==> AnthropicStart(block) == [ToolStart(block)])
      && (kind == "text" ==> AnthropicStart(block) == One(StringField(Obj(fields), "text"), t => TextPart(t)))
      && (kind == "thinking" ==>
            AnthropicStart(block) == One(StringField(Obj(fields), "thinking"), t => ThinkingPart(t)))
  {
    hide Name; hide Child;
    AnthropicKinds();
    TypedField(kind, fields, "type");
    TypedField(kind, fields, "text");
    TypedField(kind, fields, "thinking");
  }

  lemma {:induction false} StrangeToAnthropic(name: Option<Text>, payload: Json)
    requires name.Some? ==> name.value !in KnownNames()
    requires StringField(payload, "type").None?
    ensures Anthropic(Event(name, payload)) == Emit(Unknown, None, payload)
  {
    hide Name; hide Child;
    NamesDiffer("unknown", "message_start");
    NamesDiffer("unknown", "content_block_start");
    NamesDiffer("unknown", "content_block_delta");
    NamesDiffer("unknown", "content_block_stop");
    NamesDiffer("unknown", "message_delta");
    NamesDiffer("unknown", "message_stop");
  }

  /** A chunk of at most one field. */
  lemma {:induction false} ChunkField(name: string, fields: seq<Entry>, key: string, v: Json, other: string)
    requires Ascii(key) && Ascii(other) && key != "type" && (fields == [] || fields == [Field(key, v)])
    ensures Child(Chunk(name, fields).payload, other) ==
      if other == "type" then Str(Name(name)) else if other == key && fields != [] then v else Opaque
  {
    hide Child; hide Name;
    TypedField(name, fields, other);
    OneField(key, v, other);
    NoField(other);
  }

  lemma {:induction false} AnthropicEnvelopeReads(s: Said)
    requires s.StopsFor? || s.Closes?
    ensures Anthropic(AnthropicEvent(s)) == Meaning(AnthropicFormat, s)
  {
    hide Name; hide Child; hide AnthropicDelta; hide AnthropicStart; hide Given;
    AnthropicNames();
    match s {
      case StopsFor(reason) =>
        var delta := Obj(Given("stop_reason", reason));
        ChunkField("message_delta", [Field("delta", delta)], "delta", delta, "type");
        ChunkField("message_delta", [Field("delta", delta)], "delta", delta, "delta");
        ChunkField("message_delta", [Field("delta", delta)], "delta", delta, "index");
        GivenField("stop_reason", reason, "stop_reason");
      case Closes =>
        ChunkField("message_stop", [], "delta", Null, "type");
    }
  }

  lemma {:induction false} AnthropicStrayReads(s: Said)
    requires s.Stray? || s.StrayEnd? || s.Ends? || s.Role?
    ensures Anthropic(AnthropicEvent(s)) == Meaning(AnthropicFormat, s)
  {
    hide Name; hide Child; hide AnthropicDelta; hide AnthropicStart; hide Given;
    AnthropicNames();
    match s {
      case Stray(t) =>
        var delta := Typed("text_delta", [Field("text", Str(t))]);
        ChunkField("content_block_delta", [Field("delta", delta)], "delta", delta, "type");
        ChunkField("content_block_delta", [Field("delta", delta)], "delta", delta, "index");
      case StrayEnd =>
        ChunkField("content_block_stop", [], "index", Null, "type");
        ChunkField("content_block_stop", [], "index", Null, "index");
      case Ends(i) =>
        ChunkField("content_block_stop", [Field("index", Num(i))], "index", Num(i), "type");
        ChunkField("content_block_stop", [Field("index", Num(i))], "index", Num(i), "index");
      case Role(r) =>
        var message := Obj(Given("role", r));
        ChunkField("message_start", [Field("message", message)], "message", message, "type");
        ChunkField("message_start", [Field("message", message)], "message", message, "message");
        GivenField("role", r, "role");
    }
  }

  lemma {:induction false} AnthropicStartsRead(s: Said)
    requires s.Starts? || s.StartsText? || s.StartsThought? || s.StartsOther? || s.Calls?
    ensures Anthropic(AnthropicEvent(s)) == Meaning(AnthropicFormat, s)
  {
    hide Name; hide Child; hide Anthropic; hide AnthropicStart; hide Typed;
    TypedIsRecord();
    match s {
      case Starts(i) =>
        AnthropicStartReads(i, Typed("text", []));
        TypedStart("text", []);
        NoField("text");
      case StartsText(i, t) =>
        AnthropicStartReads(i, Typed("text", [Field("text", Str(t))]));
        TypedStart("text", [Field("text", Str(t))]);
        OneField("text", Str(t), "text");
      case StartsThought(i, t) =>
        AnthropicStartReads(i, Typed("thinking", [Field("thinking", Str(t))]));
        TypedStart("thinking", [Field("thinking", Str(t))]);
        OneField("thinking", Str(t), "thinking");
      case StartsOther(i, v) =>
        AnthropicStartReads(i, Document(v));
        UntypedDelta("document", v);
      case Calls(i, tool) =>
        AnthropicStartReads(i, Typed("tool_use", tool));
        TypedStart("tool_use", tool);
    }
  }

  lemma {:induction false} AnthropicDeltasRead(s: Said)
    requires s.Says? || s.Thinks? || s.Signs? || s.CallInput? || s.Cites?
    ensures Anthropic(AnthropicEvent(s)) == Meaning(AnthropicFormat, s)
  {
    hide Name; hide Child; hide Anthropic; hide AnthropicDelta; hide Typed;
    TypedIsRecord();
    match s {
      case Says(i, t) =>
        AnthropicDeltaReads(i, Typed("text_delta", [Field("text", Str(t))]));
        TypedDelta("text_delta", "text", t);
      case Thinks(i, t, _) =>
        AnthropicDeltaReads(i, Typed("thinking_delta", [Field("thinking", Str(t))]));
        TypedDelta("thinking_delta", "thinking", t);
      case Signs(i, signature) =>
        SignatureIsTyped(signature);
        AnthropicDeltaReads(i, Signature(AnthropicFormat, signature));
        TypedDelta("signature_delta", "signature", signature);
      case CallInput(i, t) =>
        AnthropicDeltaReads(i, Typed("input_json_delta", [Field("partial_json", Str(t))]));
        TypedDelta("input_json_delta", "partial_json", t);
      case Cites(i, v) =>
        AnthropicDeltaReads(i, Citation(v));
        UntypedDelta("citation", v);
    }
  }

  lemma {:induction false} AnthropicReads(s: Said)
    requires Sendable(AnthropicFormat, s)
    ensures Anthropic(AnthropicEvent(s)) == Meaning(AnthropicFormat, s)
  {
    hide Name; hide Child; hide Anthropic; hide KnownNames; hide AnthropicEvent; hide Meaning;
    match s {
      case Starts(_) => AnthropicStartsRead(s);
      case StartsText(_, _) => AnthropicStartsRead(s);
      case StartsThought(_, _) => AnthropicStartsRead(s);
      case StartsOther(_, _) => AnthropicStartsRead(s);
      case Calls(_, _) => AnthropicStartsRead(s);
      case Says(_, _) => AnthropicDeltasRead(s);
      case Thinks(_, _, _) => AnthropicDeltasRead(s);
      case Signs(_, _) => AnthropicDeltasRead(s);
      case CallInput(_, _) => AnthropicDeltasRead(s);
      case Cites(_, _) => AnthropicDeltasRead(s);
      case StopsFor(_) => AnthropicEnvelopeReads(s);
      case Closes => AnthropicEnvelopeReads(s);
      case Strange(name, payload) => StrangeIsUnknown(name, payload);
      case _ => AnthropicStrayReads(s);
    }
  }

  lemma {:induction false} StrangeIsUnknown(name: Option<Text>, payload: Json)
    requires Sendable(AnthropicFormat, Strange(name, payload))
    ensures Anthropic(AnthropicEvent(Strange(name, payload))) == Meaning(AnthropicFormat, Strange(name, payload))
  {
    hide Anthropic; hide KnownNames; hide StringField;
    StrangeToAnthropic(name, payload);
  }

  lemma {:induction false} TypedIsRecord()
    ensures forall kind: string, fields :: Typed(kind, fields).Obj?
  {}

  lemma {:induction false} SignatureIsTyped(signature: Text)
    ensures Signature(AnthropicFormat, signature) == Typed("signature_delta", [Field("signature", Str(signature))])
  {
    assert [Field("type", Str(Name("signature_delta"))), Field("signature", Str(signature))]
      == [Field("type", Str(Name("signature_delta")))] + [Field("signature", Str(signature))];
  }

  /** In both formats the normalizer reads exactly what was meant. */
  lemma {:induction false} FormatsAreRead(f: Format, s: Said)
    requires Sendable(f, s)
    ensures Classify(f, EventOf(f, s)) == Meaning(f, s)
  {
    hide Converse; hide Anthropic; hide ConverseEvent; hide AnthropicEvent; hide Meaning; hide Sendable;
    if f.ConverseFormat? { ConverseReads(s); } else { AnthropicReads(s); }
  }
}
