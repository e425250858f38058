/** What the two Bedrock response formats say about one stream event. */
module BedrockEvents {
  import opened Bytes
  import opened Ordering
  import opened CanonicalJson

  /** A contribution to one content block. */
  datatype Piece =
    | TextPart(t: Text)
    | ThinkingPart(t: Text)
    | ThinkingValue(v: Json)
    | ToolStart(v: Json)
    | ToolInput(t: Text)
    | UnknownValue(v: Json)

  datatype Kind = AssistantOutput | Thinking | ToolCallBlock | Unknown | ProviderEnvelope

  /** The effect of an event; block indexes are known by their number token. */
  datatype Action =
    | SetRole(role: Option<Text>)
    | Touch(index: Text, pieces: seq<Piece>)
    | Stop(index: Text)
    | Emit(kind: Kind, text: Option<Text>, payload: Json)
    | Ignore

  datatype Event = Event(headerType: Option<Text>, payload: Json)

  function Name(s: string): Text {
    seq(|s|, i requires 0 <= i < |s| => if s[i] as int < 0x1_0000 then (s[i] as int) as CodeUnit else 0xFFFD)
  }

  // ----- field access; `Opaque` plays undefined -----

  function Lookup(es: seq<Entry>, key: Text): Json {
    if es == [] then Opaque else if es[0].key == key then es[0].value else Lookup(es[1..], key)
  }

  function Child(v: Json, key: string): Json {
    if v.Obj? then Lookup(v.entries, Name(key)) else Opaque
  }

  function StringField(v: Json, key: string): Option<Text> {
    var c := Child(v, key);
    if c.Str? then Some(c.s) else None
  }

  function NumberField(v: Json, key: string): Option<Text> {
    var c := Child(v, key);
    if c.Num? then Some(c.token) else None
  }

  function RecordField(v: Json, key: string): Json {
    var c := Child(v, key);
    if c.Obj? then c else Opaque
  }

  function Or(a: Option<Text>, b: Option<Text>): Option<Text> {
    if a.Some? then a else b
  }

  function One(t: Option<Text>, wrap: Text -> Piece): seq<Piece> {
    match t
    case Some(t) => [wrap(t)]
    case None => []
  }

  // ----- the Converse stream -----

  /** `thinkingDelta`: its text part, if any, then its value part, if any. */
  function ThinkingPieces(delta: Json): seq<Piece> {
    var direct := Or(StringField(delta, "thinking"), StringField(delta, "reasoning"));
    if direct.Some? then [ThinkingPart(direct.value)]
    else
      var content := RecordField(delta, "reasoningContent");
      if content.Opaque? then []
      else
        var text := Or(Or(StringField(content, "text"), StringField(content, "reasoningText")),
                       StringField(RecordField(content, "reasoningText"), "text"));
        One(text, t => ThinkingPart(t)) + [ThinkingValue(Obj([Entry(Name("reasoningContent"), content)]))]
  }

  function ConverseStart(payload: Json): seq<Piece> {
    var start := RecordField(payload, "start");
    var toolUse := RecordField(start, "toolUse");
    if !toolUse.Opaque? then [ToolStart(toolUse)]
    else if !start.Opaque? then [UnknownValue(start)]
    else []
  }

  function ConverseDelta(delta: Json): seq<Piece> {
    var pieces :=
      One(StringField(delta, "text"), t => TextPart(t))
      + One(StringField(RecordField(delta, "toolUse"), "input"), t => ToolInput(t))
      + ThinkingPieces(delta);
    if pieces == [] then [UnknownValue(delta)] else pieces
  }

  function Converse(e: Event): Action {
    var p := e.payload;
    var eventType := if e.headerType.Some? then e.headerType.value else Name("unknown");
    var index := NumberField(p, "contentBlockIndex");
    if eventType == Name("messageStart") && p.Obj? then SetRole(StringField(p, "role"))
    else if eventType == Name("contentBlockStart") && p.Obj? then
      if index.None? then Ignore else Touch(index.value, ConverseStart(p))
    else if eventType == Name("contentBlockDelta") && p.Obj? then
      var delta := RecordField(p, "delta");
      if index.None? || delta.Opaque? then Ignore else Touch(index.value, ConverseDelta(delta))
    else if eventType == Name("contentBlockStop") && p.Obj? then
      if index.None? then Ignore else Stop(index.value)
    else if eventType == Name("messageStop") then
      var reason := StringField(p, "stopReason");
      Emit(ProviderEnvelope, Some(if reason.None? then Name("messageStop") else Name("stopReason:") + reason.value), p)
    else if eventType == Name("metadata") then
      var latency := NumberField(RecordField(p, "metrics"), "latencyMs");
      Emit(ProviderEnvelope, Some(if latency.None? then Name("metadata") else Name("latencyMs:") + latency.value), p)
    else Ignore
  }

  // ----- the Anthropic Messages stream -----

  /** `seedAnthropicResponseBuilder`. */
  function AnthropicStart(block: Json): seq<Piece>
    requires block.Obj?
  {
    var kind := StringField(block, "type");
    if kind == Some(Name("text")) then One(StringField(block, "text"), t => TextPart(t))
    else if kind == Some(Name("thinking")) then One(StringField(block, "thinking"), t => ThinkingPart(t))
    else if kind == Some(Name("tool_use")) then [ToolStart(block)]
    else if block.entries != [] then [UnknownValue(block)]
    else []
  }

  /** `applyAnthropicResponseDelta`. */
  function AnthropicDelta(delta: Json): seq<Piece> {
    var kind := StringField(delta, "type");
    var text := StringField(delta, "text");
    var partialJson := StringField(delta, "partial_json");
    var thinking := StringField(delta, "thinking");
    if kind == Some(Name("text_delta")) && text.Some? then [TextPart(text.value)]
    else if kind == Some(Name("input_json_delta")) && partialJson.Some? then [ToolInput(partialJson.value)]
    else if kind == Some(Name("thinking_delta")) && thinking.Some? then [ThinkingPart(thinking.value)]
    else if kind == Some(Name("signature_delta")) then [ThinkingValue(delta)]
    else [UnknownValue(delta)]
  }

  function Anthropic(e: Event): Action {
    var p := e.payload;
    var named := Or(StringField(p, "type"), e.headerType);
    var eventType := if named.Some? then named.value else Name("unknown");
    var index := NumberField(p, "index");
    if eventType == Name("message_start") && p.Obj? then SetRole(StringField(RecordField(p, "message"), "role"))
    else if eventType == Name("content_block_start") && p.Obj? then
      var block := RecordField(p, "content_block");
      if index.None? || block.Opaque? then Ignore else Touch(index.value, AnthropicStart(block))
    else if eventType == Name("content_block_delta") && p.Obj? then
      var delta := RecordField(p, "delta");
      if index.None? || delta.Opaque? then Ignore else Touch(index.value, AnthropicDelta(delta))
    else if eventType == Name("content_block_stop") && p.Obj? then
      if index.None? then Ignore else Stop(index.value)
    else if eventType == Name("message_delta") && p.Obj? then
      var reason := StringField(RecordField(p, "delta"), "stop_reason");
      Emit(ProviderEnvelope,
           Some(if reason.None? then Name("message_delta") else Name("stop_reason:") + reason.value), p)
    else if eventType == Name("message_stop") then Emit(ProviderEnvelope, Some(Name("message_stop")), p)
    else Emit(Unknown, None, p)
  }

  datatype Format = ConverseFormat | AnthropicFormat

  function Classify(f: Format, e: Event): Action {
    if f.ConverseFormat? then Converse(e) else Anthropic(e)
  }

  function ClassifyAll(f: Format, es: seq<Event>): (r: seq<Action>)
    ensures |r| == |es| && forall i :: 0 <= i < |es| ==> r[i] == Classify(f, es[i])
  {
    seq(|es|, i requires 0 <= i < |es| => Classify(f, es[i]))
  }
}
