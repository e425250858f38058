/** The brace scanner that finds JSON objects inside arbitrary text. */
module JsonScanner {
  import opened Bytes
  import opened Ordering
  import opened CanonicalJson

  // ----- the scanner -----

  datatype State = State(depth: nat, inString: bool, escaped: bool)

  datatype Step = Continue(st: State) | Done

  function Advance(st: State, c: CodeUnit): Step {
    if st.inString then
      if st.escaped then Continue(st.(escaped := false))
      else if c == BACKSLASH then Continue(st.(escaped := true))
      else if c == QUOTE then Continue(st.(inString := false))
      else Continue(st)
    else if c == QUOTE then Continue(st.(inString := true))
    else if c == LBRACE then Continue(st.(depth := st.depth + 1))
    else if c != RBRACE || st.depth == 0 then Continue(st)
    else if st.depth == 1 then Done
    else Continue(st.(depth := st.depth - 1))
  }

  const START: State := State(0, false, false)

  function EndFrom(text: Text, index: nat, st: State): (r: Option<nat>)
    ensures r.Some? ==> index <= r.value < |text|
    decreases |text| - index
  {
    if index >= |text| then None
    else match Advance(st, text[index])
      case Done => Some(index)
      case Continue(st') => EndFrom(text, index + 1, st')
  }

  /** The loop of `jsonObjectEnd`. */
  method JsonObjectEnd(text: Text, start: nat) returns (r: Option<nat>)
    ensures r == EndFrom(text, start, START)
  {
    var depth: nat := 0;
    var inString, escaped := false, false;
    var index := start;
    while index < |text|
      invariant start <= index
      invariant EndFrom(text, index, State(depth, inString, escaped)) == EndFrom(text, start, START)
      decreases |text| - index
    {
      var c := text[index];
      if inString {
        if escaped {
          escaped := false;
        } else if c == BACKSLASH {
          escaped := true;
        } else if c == QUOTE {
          inString := false;
        }
        index := index + 1;
        continue;
      }
      if c == QUOTE {
        inString := true;
        index := index + 1;
        continue;
      }
      if c == LBRACE {
        depth := depth + 1;
        index := index + 1;
        continue;
      }
      if c != RBRACE || depth == 0 {
        index := index + 1;
        continue;
      }
      depth := depth - 1;
      if depth == 0 {
        return Some(index);
      }
      index := index + 1;
    }
    return None;
  }

  /** The objects found from `index` on, given what JSON.parse accepts. */
  function ValuesFrom<V>(parse: Text -> Option<V>, text: Text, index: nat): seq<V>
    decreases |text| - index
  {
    if index >= |text| then []
    else if text[index] != LBRACE then ValuesFrom(parse, text, index + 1)
    else match EndFrom(text, index, START)
      case None => ValuesFrom(parse, text, index + 1)
      case Some(end) =>
        match parse(text[index..end + 1])
        case None => ValuesFrom(parse, text, index + 1)
        case Some(v) => [v] + ValuesFrom(parse, text, end + 1)
  }

  /** The loop of `extractJsonValues`. */
  method ExtractJsonValues<V>(parse: Text -> Option<V>, text: Text) returns (values: seq<V>)
    ensures values == ValuesFrom(parse, text, 0)
  {
    hide EndFrom;
    values := [];
    var index := 0;
    while index < |text|
      invariant values + ValuesFrom(parse, text, index) == ValuesFrom(parse, text, 0)
      decreases |text| - index
    {
      if text[index] == LBRACE {
        var end := JsonObjectEnd(text, index);
        if end.Some? {
          var parsed := parse(text[index..end.value + 1]);
          if parsed.Some? {
            ghost var later := ValuesFrom(parse, text, end.value + 1);
            assert values + ([parsed.value] + later) == (values + [parsed.value]) + later;
            values := values + [parsed.value];
            index := end.value;
          }
        }
      }
      index := index + 1;
    }
  }

  // ----- documents: text whose strings and braces are well formed -----

  /** One unit of string content, or a backslash with the unit it escapes. */
  datatype StringItem = Plain(c: CodeUnit) | Escaped(c: CodeUnit)

  /** Every JSON text (RFC 8259, sections 2 to 7) is a run of these pieces: string tokens, the
      bodies of objects, and units that are neither quote nor brace. */
  datatype Piece = Other(c: CodeUnit) | Quoted(items: seq<StringItem>) | Braces(body: seq<Piece>)

  predicate ValidItems(items: seq<StringItem>) {
    forall i :: 0 <= i < |items| && items[i].Plain? ==> items[i].c != QUOTE && items[i].c != BACKSLASH
  }

  ghost predicate ValidPiece(p: Piece) {
    match p
    case Other(c) => c != QUOTE && c != LBRACE && c != RBRACE
    case Quoted(items) => ValidItems(items)
    case Braces(body) => ValidPieces(body)
  }

  ghost predicate ValidPieces(ps: seq<Piece>) {
    forall i :: 0 <= i < |ps| ==> ValidPiece(ps[i])
  }

  function ItemText(item: StringItem): Text {
    match item
    case Plain(c) => [c]
    case Escaped(c) => [BACKSLASH, c]
  }

  function ItemsText(items: seq<StringItem>): Text {
    if items == [] then [] else ItemText(items[0]) + ItemsText(items[1..])
  }

  function PieceText(p: Piece): (r: Text)
    ensures r != []
  {
    match p
    case Other(c) => [c]
    case Quoted(items) => [QUOTE] + ItemsText(items) + [QUOTE]
    case Braces(body) => [LBRACE] + PiecesText(body) + [RBRACE]
  }

  function PiecesText(ps: seq<Piece>): Text {
    if ps == [] then [] else PieceText(ps[0]) + PiecesText(ps[1..])
  }

  // ----- the scanner is right on every document -----

  /** The units of `part` stand in `text` at `at`. */
  predicate Holds(text: Text, at: nat, part: Text) {
    at + |part| <= |text| && text[at..at + |part|] == part
  }

  lemma {:induction false} HoldsSplit(text: Text, at: nat, a: Text, b: Text)
    requires Holds(text, at, a + b)
    ensures Holds(text, at, a) && Holds(text, at + |a|, b)
    ensures a != [] ==> text[at] == a[0]
  {
    var t := text[at..at + |a + b|];
    assert t == a + b;
    assert t[..|a|] == a && t[|a|..] == b;
  }

  lemma {:induction false} ScanItem(text: Text, at: nat, item: StringItem, depth: nat)
    requires ValidItems([item]) && Holds(text, at, ItemText(item))
    ensures EndFrom(text, at, State(depth, true, false))
         == EndFrom(text, at + |ItemText(item)|, State(depth, true, false))
  {
    hide EndFrom;
    assert [item][0] == item;
    match item {
      case Plain(c) =>
        HoldsSplit(text, at, [c], []);
        OneStep(text, at, State(depth, true, false), State(depth, true, false));
      case Escaped(c) =>
        assert ItemText(item) == [BACKSLASH] + [c];
        HoldsSplit(text, at, [BACKSLASH], [c]);
        HoldsSplit(text, at + 1, [c], []);
        OneStep(text, at, State(depth, true, false), State(depth, true, true));
        OneStep(text, at + 1, State(depth, true, true), State(depth, true, false));
    }
  }

  lemma {:induction false} ScanItems(text: Text, at: nat, items: seq<StringItem>, depth: nat)
    requires ValidItems(items) && Holds(text, at, ItemsText(items))
    ensures EndFrom(text, at, State(depth, true, false))
         == EndFrom(text, at + |ItemsText(items)|, State(depth, true, false))
    decreases |items|
  {
    hide EndFrom;
    if items != [] {
      HoldsSplit(text, at, ItemText(items[0]), ItemsText(items[1..]));
      ScanItem(text, at, items[0], depth);
      ScanItems(text, at + |ItemText(items[0])|, items[1..], depth);
    }
  }

  lemma {:induction false} ScanQuoted(text: Text, at: nat, items: seq<StringItem>, depth: nat)
    requires ValidItems(items) && Holds(text, at, PieceText(Quoted(items)))
    ensures EndFrom(text, at, State(depth, false, false))
         == EndFrom(text, at + |PieceText(Quoted(items))|, State(depth, false, false))
  {
    hide ItemsText; hide EndFrom;
    var body := ItemsText(items);
    assert PieceText(Quoted(items)) == [QUOTE] + (body + [QUOTE]);
    HoldsSplit(text, at, [QUOTE], body + [QUOTE]);
    HoldsSplit(text, at + 1, body, [QUOTE]);
    HoldsSplit(text, at + 1 + |body|, [QUOTE], []);
    OneStep(text, at, State(depth, false, false), State(depth, true, false));
    ScanItems(text, at + 1, items, depth);
    OneStep(text, at + 1 + |body|, State(depth, true, false), State(depth, false, false));
  }

  lemma {:induction false} OneStep(text: Text, at: nat, st: State, st': State)
    requires at < |text| && Advance(st, text[at]) == Continue(st')
    ensures EndFrom(text, at, st) == EndFrom(text, at + 1, st')
  {}

  /** Inside an object, a whole piece leaves the scanner where it was. */
  lemma {:induction false} ScanPiece(text: Text, at: nat, p: Piece, depth: nat)
    requires ValidPiece(p) && Holds(text, at, PieceText(p)) && depth >= 1
    ensures EndFrom(text, at, State(depth, false, false))
         == EndFrom(text, at + |PieceText(p)|, State(depth, false, false))
    decreases p, 0
  {
    hide EndFrom;
    match p {
      case Other(c) =>
        HoldsSplit(text, at, [c], []);
        OneStep(text, at, State(depth, false, false), State(depth, false, false));
      case Quoted(items) => ScanQuoted(text, at, items, depth);
      case Braces(body) =>
        OpenAndBody(text, at, body, depth);
        var close := at + 1 + |PiecesText(body)|;
        OneStep(text, close, State(depth + 1, false, false), State(depth, false, false));
    }
  }

  lemma {:induction false} OpenAndBody(text: Text, at: nat, body: seq<Piece>, depth: nat)
    requires ValidPieces(body) && Holds(text, at, PieceText(Braces(body)))
    ensures var close := at + 1 + |PiecesText(body)|;
      && close < |text| && text[close] == RBRACE
      && EndFrom(text, at, State(depth, false, false)) == EndFrom(text, close, State(depth + 1, false, false))
    decreases body, 2
  {
    hide EndFrom; hide PiecesText;
    var inner := PiecesText(body);
    assert PieceText(Braces(body)) == [LBRACE] + (inner + [RBRACE]);
    HoldsSplit(text, at, [LBRACE], inner + [RBRACE]);
    HoldsSplit(text, at + 1, inner, [RBRACE]);
    HoldsSplit(text, at + 1 + |inner|, [RBRACE], []);
    OneStep(text, at, State(depth, false, false), State(depth + 1, false, false));
    ScanPieces(text, at + 1, body, depth + 1);
  }

  lemma {:induction false} ScanPieces(text: Text, at: nat, ps: seq<Piece>, depth: nat)
    requires ValidPieces(ps) && Holds(text, at, PiecesText(ps)) && depth >= 1
    ensures EndFrom(text, at, State(depth, false, false))
         == EndFrom(text, at + |PiecesText(ps)|, State(depth, false, false))
    decreases ps, 1
  {
    hide EndFrom;
    if ps != [] {
      HoldsSplit(text, at, PieceText(ps[0]), PiecesText(ps[1..]));
      ScanPiece(text, at, ps[0], depth);
      ScanPieces(text, at + |PieceText(ps[0])|, ps[1..], depth);
    }
  }

  /** Wherever an object stands, and whatever follows it, the scanner returns its closing brace. */
  lemma {:induction false} ObjectEndCorrect(text: Text, start: nat, body: seq<Piece>)
    requires ValidPieces(body) && Holds(text, start, PieceText(Braces(body)))
    ensures EndFrom(text, start, START) == Some(start + |PieceText(Braces(body))| - 1)
    ensures text[start] == LBRACE
  {
    assert PieceText(Braces(body)) + [] == PieceText(Braces(body));
    HoldsSplit(text, start, PieceText(Braces(body)), []);
    OpenAndBody(text, start, body, 0);
  }

  // ----- extraction returns exactly the objects, in order -----

  /** Brace-free text, then an object. */
  datatype Segment = Segment(gap: Text, body: seq<Piece>) {
    function Object(): Text {
      PieceText(Braces(body))
    }
  }

  predicate OpensNothing(gap: Text) {
    forall i :: 0 <= i < |gap| ==> gap[i] != LBRACE
  }

  function Document(segments: seq<Segment>, tail: Text): Text {
    if segments == [] then tail
    else segments[0].gap + segments[0].Object() + Document(segments[1..], tail)
  }

  function ParsedObjects<V>(parse: Text -> Option<V>, segments: seq<Segment>): seq<V>
    requires forall i :: 0 <= i < |segments| ==> parse(segments[i].Object()).Some?
  {
    if segments == [] then []
    else [parse(segments[0].Object()).value] + ParsedObjects(parse, segments[1..])
  }

  lemma {:induction false} SkipGap<V>(parse: Text -> Option<V>, text: Text, at: nat, gap: Text)
    requires OpensNothing(gap) && Holds(text, at, gap)
    ensures ValuesFrom(parse, text, at) == ValuesFrom(parse, text, at + |gap|)
    decreases |gap|
  {
    if gap != [] {
      assert gap == [gap[0]] + gap[1..];
      HoldsSplit(text, at, [gap[0]], gap[1..]);
      SkipGap(parse, text, at + 1, gap[1..]);
    }
  }

  lemma {:induction false} NoValuesAtEnd<V>(parse: Text -> Option<V>, text: Text)
    ensures ValuesFrom(parse, text, |text|) == []
  {}

  lemma {:induction false} ValueFound<V>(parse: Text -> Option<V>, text: Text, start: nat, end: nat)
    requires start < end <= |text| && text[start] == LBRACE && EndFrom(text, start, START) == Some(end - 1)
    requires parse(text[start..end]).Some?
    ensures ValuesFrom(parse, text, start) == [parse(text[start..end]).value] + ValuesFrom(parse, text, end)
  {
    hide EndFrom;
  }

  lemma {:induction false} ExtractsObjects<V>(parse: Text -> Option<V>, text: Text, at: nat,
                                              segments: seq<Segment>, tail: Text)
    requires forall i :: 0 <= i < |segments| ==>
      parse(segments[i].Object()).Some? && OpensNothing(segments[i].gap) && ValidPieces(segments[i].body)
    requires OpensNothing(tail) && Holds(text, at, Document(segments, tail))
    requires at + |Document(segments, tail)| == |text|
    ensures ValuesFrom(parse, text, at) == ParsedObjects(parse, segments)
    decreases |segments|
  {
    hide EndFrom; hide PieceText; hide ValuesFrom; hide ValidPieces; hide OpensNothing;
    if segments == [] {
      assert ValuesFrom(parse, text, |text|) == [] by { NoValuesAtEnd(parse, text); }
      SkipGap(parse, text, at, tail);
    } else {
      var s := segments[0];
      var o, rest := s.Object(), Document(segments[1..], tail);
      assert Document(segments, tail) == s.gap + (o + rest);
      HoldsSplit(text, at, s.gap, o + rest);
      SkipGap(parse, text, at, s.gap);
      var start := at + |s.gap|;
      HoldsSplit(text, start, o, rest);
      ObjectEndCorrect(text, start, s.body);
      assert text[start..start + |o|] == o;
      ValueFound(parse, text, start, start + |o|);
      ExtractsObjects(parse, text, start + |o|, segments[1..], tail);
    }
  }

  /** On objects separated by text without an opening brace, exactly those objects are found. */
  lemma {:induction false} ExtractionCorrect<V>(parse: Text -> Option<V>, segments: seq<Segment>, tail: Text)
    requires forall i :: 0 <= i < |segments| ==>
      parse(segments[i].Object()).Some? && OpensNothing(segments[i].gap) && ValidPieces(segments[i].body)
    requires OpensNothing(tail)
    ensures ValuesFrom(parse, Document(segments, tail), 0) == ParsedObjects(parse, segments)
  {
    var text := Document(segments, tail);
    assert text[0..|text|] == text;
    ExtractsObjects(parse, text, 0, segments, tail);
  }

  // ----- printed JSON is such a document -----

  lemma {:induction false} PiecesAppend(a: seq<Piece>, b: seq<Piece>)
    ensures PiecesText(a + b) == PiecesText(a) + PiecesText(b)
    ensures ValidPieces(a) && ValidPieces(b) ==> ValidPieces(a + b)
  {
    if a == [] {
      assert a + b == b;
    } else {
      PiecesAppend(a[1..], b);
      assert (a + b)[0] == a[0] && (a + b)[1..] == a[1..] + b;
      Assoc(PieceText(a[0]), PiecesText(a[1..]), PiecesText(b));
    }
  }

  function Others(t: Text): (ps: seq<Piece>)
    ensures |ps| == |t| && forall i :: 0 <= i < |t| ==> ps[i] == Other(t[i])
  {
    seq(|t|, i requires 0 <= i < |t| => Other(t[i]))
  }

  lemma {:induction false} OthersText(t: Text)
    ensures PiecesText(Others(t)) == t
  {
    if t != [] {
      OthersText(t[1..]);
      assert Others(t)[1..] == Others(t[1..]);
      assert t == [t[0]] + t[1..];
    }
  }

  /** The items of one escape step: all but the first unit of an escape sequence is plain. */
  function HeadItems(s: Text): (items: seq<StringItem>)
    requires s != []
    ensures ValidItems(items)
  {
    var h := Head(s);
    if |h| == 6 then [Escaped(h[1]), Plain(h[2]), Plain(h[3]), Plain(h[4]), Plain(h[5])]
    else if h[0] == BACKSLASH then [Escaped(h[1])]
    else if |h| == 2 then [Plain(h[0]), Plain(h[1])]
    else [Plain(h[0])]
  }

  lemma {:induction false} HeadItemsText(s: Text)
    requires s != []
    ensures ItemsText(HeadItems(s)) == Head(s)
  {
    var h, items := Head(s), HeadItems(s);
    if |h| == 6 {
      FiveItems(items[0], items[1], items[2], items[3], items[4]);
    } else if |h| == 2 && h[0] != BACKSLASH {
      TwoItems(items[0], items[1]);
    } else {
      assert items[1..] == [];
    }
  }

  lemma {:induction false} TwoItems(a: StringItem, b: StringItem)
    ensures ItemsText([a, b]) == ItemText(a) + ItemText(b)
  {
    assert [a, b][1..] == [b] && [b][1..] == [];
    assert ItemsText([b]) == ItemText(b) + [];
  }

  lemma {:induction false} FiveItems(a: StringItem, b: StringItem, c: StringItem, d: StringItem, e: StringItem)
    ensures ItemsText([a, b, c, d, e]) == ItemText(a) + ItemText(b) + ItemText(c) + ItemText(d) + ItemText(e)
  {
    hide ItemText;
    var tail := [b, c] + [d, e];
    assert [a, b, c, d, e][1..] == tail;
    ItemsAppend([b, c], [d, e]);
    TwoItems(b, c);
    TwoItems(d, e);
    Assoc(ItemText(a), ItemText(b) + ItemText(c), ItemText(d) + ItemText(e));
    Assoc(ItemText(a), ItemText(b), ItemText(c));
    Assoc(ItemText(a) + ItemText(b) + ItemText(c), ItemText(d), ItemText(e));
  }

  function StringItems(s: Text): (items: seq<StringItem>)
    ensures ValidItems(items)
    decreases |s|
  {
    if s == [] then [] else HeadItems(s) + StringItems(s[HeadSize(s)..])
  }

  lemma {:induction false} StringItemsText(s: Text)
    ensures ItemsText(StringItems(s)) == Escape(s)
    decreases |s|
  {
    hide Head; hide HeadItems; hide HeadSize;
    if s != [] {
      HeadItemsText(s);
      StringItemsText(s[HeadSize(s)..]);
      ItemsAppend(HeadItems(s), StringItems(s[HeadSize(s)..]));
    }
  }

  lemma {:induction false} ItemsAppend(a: seq<StringItem>, b: seq<StringItem>)
    ensures ItemsText(a + b) == ItemsText(a) + ItemsText(b)
  {
    if a == [] {
      assert a + b == b;
    } else {
      ItemsAppend(a[1..], b);
      assert (a + b)[0] == a[0] && (a + b)[1..] == a[1..] + b;
      Assoc(ItemText(a[0]), ItemsText(a[1..]), ItemsText(b));
    }
  }

  lemma {:induction false} Bracketed(body: seq<Piece>)
    requires ValidPieces(body)
    ensures var ps := [Other(LBRACKET)] + body + [Other(RBRACKET)];
      ValidPieces(ps) && PiecesText(ps) == [LBRACKET] + PiecesText(body) + [RBRACKET]
  {
    PiecesAppend([Other(LBRACKET)] + body, [Other(RBRACKET)]);
    PiecesAppend([Other(LBRACKET)], body);
    OthersText([LBRACKET]);
    OthersText([RBRACKET]);
    assert Others([LBRACKET]) == [Other(LBRACKET)] && Others([RBRACKET]) == [Other(RBRACKET)];
  }

  /** The pieces of a printed value. */
  lemma {:induction false} PrintPieces(v: Json) returns (ps: seq<Piece>)
    requires Valid(v)
    ensures ValidPieces(ps) && PiecesText(ps) == Print(v)
    ensures v.Obj? ==> |ps| == 1 && ps[0].Braces?
    decreases v, 3
  {
    hide PrintItems; hide PrintEntries; hide Sort; hide Escape;
    match v {
      case Null | Opaque | Bool(_) | Num(_) =>
        ps := Others(Print(v));
        OthersText(Print(v));
      case Str(s) =>
        ps := [Quoted(StringItems(s))];
        StringItemsText(s);
      case Arr(items) =>
        var body := ItemsPieces(v, items);
        ps := [Other(LBRACKET)] + body + [Other(RBRACKET)];
        Bracketed(body);
      case Obj(entries) =>
        assert forall e :: e in Sort(entries) ==> e in entries;
        var body := EntriesPieces(v, Sort(entries));
        ps := [Braces(body)];
    }
  }

  lemma {:induction false} ItemsPieces(whole: Json, items: seq<Json>) returns (ps: seq<Piece>)
    requires forall i :: 0 <= i < |items| ==> items[i] < whole && Valid(items[i])
    ensures ValidPieces(ps) && PiecesText(ps) == PrintItems(whole, items)
    decreases whole, 0, |items|
  {
    hide Print;
    if items == [] {
      ps := [];
    } else {
      var first := PrintPieces(items[0]);
      if |items| == 1 {
        ps := first;
      } else {
        var rest := ItemsPieces(whole, items[1..]);
        ps := first + [Other(COMMA)] + rest;
        PiecesAppend(first + [Other(COMMA)], rest);
        PiecesAppend(first, [Other(COMMA)]);
      }
    }
  }

  lemma {:induction false} EntriesPieces(whole: Json, es: seq<Entry>) returns (ps: seq<Piece>)
    requires forall e :: e in es ==> e.value < whole && Valid(e.value)
    ensures ValidPieces(ps) && PiecesText(ps) == PrintEntries(whole, es)
    decreases whole, 0, |es|
  {
    hide Quote; hide Sort;
    if es == [] {
      ps := [];
    } else {
      var first := EntryPieces(whole, es[0]);
      if |es| == 1 {
        ps := first;
      } else {
        var rest := EntriesPieces(whole, es[1..]);
        ps := first + [Other(COMMA)] + rest;
        PiecesAppend(first + [Other(COMMA)], rest);
        PiecesAppend(first, [Other(COMMA)]);
      }
    }
  }

  lemma {:induction false} EntryPieces(whole: Json, e: Entry) returns (ps: seq<Piece>)
    requires e.value < whole && Valid(e.value)
    ensures ValidPieces(ps) && PiecesText(ps) == PrintEntry(whole, e)
    decreases e.value, 4
  {
    var value := PrintPieces(e.value);
    var head := [Quoted(StringItems(e.key)), Other(COLON)];
    KeyPieces(e.key);
    PiecesAppend(head, value);
    ps := head + value;
    assert PrintEntry(whole, e) == Quote(e.key) + [COLON] + Print(e.value);
    assert PiecesText(ps) == PrintEntry(whole, e);
  }

  lemma {:induction false} KeyPieces(key: Text)
    ensures var ps := [Quoted(StringItems(key)), Other(COLON)];
      ValidPieces(ps) && PiecesText(ps) == Quote(key) + [COLON]
  {
    var ps := [Quoted(StringItems(key)), Other(COLON)];
    StringItemsText(key);
    hide Escape; hide ItemsText; hide StringItems;
    assert ps[1..] == [Other(COLON)] && ps[1..][1..] == [];
    assert PieceText(ps[0]) == Quote(key);
    assert PieceText(ps[1]) == [COLON];
    assert PiecesText(ps[1..]) == [COLON] + [];
    assert PiecesText(ps) == PieceText(ps[0]) + PiecesText(ps[1..]);
  }

  /** Scanning any text from a printed object finds the end of exactly that object. */
  lemma {:induction false} PrintedObjectEnd(before: Text, v: Json, after: Text)
    requires v.Obj? && Valid(v)
    ensures EndFrom(before + Print(v) + after, |before|, START) == Some(|before| + |Print(v)| - 1)
  {
    var ps := PrintPieces(v);
    hide Print;
    assert ps[1..] == [] && PiecesText(ps) == PieceText(ps[0]);
    var text := before + Print(v) + after;
    assert text[|before|..|before| + |Print(v)|] == Print(v);
    ObjectEndCorrect(text, |before|, ps[0].body);
  }

  // ----- printed objects in a text -----

  /** Text without an opening brace, then a printed object. */
  datatype Printed = Printed(gap: Text, value: Json)

  function PrintedDocument(objects: seq<Printed>, tail: Text): Text {
    if objects == [] then tail
    else objects[0].gap + Print(objects[0].value) + PrintedDocument(objects[1..], tail)
  }

  ghost predicate PrintedObject(p: Printed) {
    OpensNothing(p.gap) && p.value.Obj? && Valid(p.value)
  }

  /** It is such a document of segments. */
  lemma {:induction false} PrintedSegments(objects: seq<Printed>, tail: Text) returns (segments: seq<Segment>)
    requires forall i :: 0 <= i < |objects| ==> PrintedObject(objects[i])
    ensures |segments| == |objects| && Document(segments, tail) == PrintedDocument(objects, tail)
    ensures forall i :: 0 <= i < |segments| ==>
      && segments[i].gap == objects[i].gap && ValidPieces(segments[i].body)
      && segments[i].Object() == Print(objects[i].value)
    decreases |objects|
  {
    hide Print; hide PieceText; hide OpensNothing; hide ValidPieces;
    if objects == [] {
      segments := [];
    } else {
      var first := PrintedSegment(objects[0]);
      var rest := PrintedSegments(objects[1..], tail);
      segments := [first] + rest;
      assert segments[1..] == rest;
    }
  }

  lemma {:induction false} PrintedSegment(p: Printed) returns (s: Segment)
    requires PrintedObject(p)
    ensures s.gap == p.gap && ValidPieces(s.body) && s.Object() == Print(p.value)
  {
    hide Print;
    var ps := PrintPieces(p.value);
    assert ps[1..] == [] && PiecesText(ps) == PieceText(ps[0]);
    s := Segment(p.gap, ps[0].body);
  }

  lemma {:induction false} ParsedEach<V>(parse: Text -> Option<V>, segments: seq<Segment>, i: nat)
    requires forall j :: 0 <= j < |segments| ==> parse(segments[j].Object()).Some?
    ensures |ParsedObjects(parse, segments)| == |segments|
    ensures i < |segments| ==> ParsedObjects(parse, segments)[i] == parse(segments[i].Object()).value
    decreases |segments|
  {
    hide PieceText;
    if segments != [] { ParsedEach(parse, segments[1..], if i == 0 then 0 else i - 1); }
  }

  /** From printed objects between text without an opening brace, extraction returns the value of each
      of them, in order, and nothing else. */
  lemma {:induction false} PrintedExtraction<V>(parse: Text -> Option<V>, objects: seq<Printed>, tail: Text)
    requires forall i :: 0 <= i < |objects| ==> PrintedObject(objects[i]) && parse(Print(objects[i].value)).Some?
    requires OpensNothing(tail)
    ensures var found := ValuesFrom(parse, PrintedDocument(objects, tail), 0);
      && |found| == |objects|
      && forall i :: 0 <= i < |objects| ==> found[i] == parse(Print(objects[i].value)).value
  {
    hide Print; hide PieceText; hide ValuesFrom; hide ValidPieces; hide OpensNothing; hide ParsedObjects;
    var segments := PrintedSegments(objects, tail);
    ExtractionCorrect(parse, segments, tail);
    ParsedEach(parse, segments, 0);
    forall i | 0 <= i < |objects|
      ensures ValuesFrom(parse, PrintedDocument(objects, tail), 0)[i] == parse(Print(objects[i].value)).value
    {
      ParsedEach(parse, segments, i);
    }
  }
}
