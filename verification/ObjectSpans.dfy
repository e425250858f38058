/** Where the brace scanner finds an object in any text whatever, and which objects extraction takes. */
module ObjectSpans {
  import opened Bytes
  import opened Ordering
  import opened CanonicalJson
  import opened JsonScanner

  // ----- what a scan that ends has read -----

  /** A string that is open is read to its closing quote. */
  lemma {:induction false} StringRead(text: Text, at: nat, depth: nat) returns (items: seq<StringItem>, close: nat)
    requires EndFrom(text, at, State(depth, true, false)).Some?
    ensures ValidItems(items) && at <= close < |text| && text[at..close] == ItemsText(items) && text[close] == QUOTE
    ensures EndFrom(text, at, State(depth, true, false)) == EndFrom(text, close + 1, State(depth, false, false))
    decreases |text| - at
  {
    var c := text[at];
    if c == QUOTE {
      items, close := [], at;
    } else {
      var item := if c == BACKSLASH then Escaped(text[at + 1]) else Plain(c);
      var next := if c == BACKSLASH then at + 2 else at + 1;
      assert EndFrom(text, at, State(depth, true, false)) == EndFrom(text, next, State(depth, true, false)) by {
        if c == BACKSLASH { OneStep(text, at + 1, State(depth, true, true), State(depth, true, false)); }
      }
      var rest;
      rest, close := StringRead(text, next, depth);
      items := [item] + rest;
      assert text[at..next] == ItemText(item) && text[at..close] == text[at..next] + text[next..close];
      assert items[1..] == rest;
    }
  }

  /** An object that is open is read to its closing brace. */
  lemma {:induction false} BodyRead(text: Text, at: nat, depth: nat) returns (ps: seq<Piece>, close: nat)
    requires depth >= 1 && EndFrom(text, at, State(depth, false, false)).Some?
    ensures ValidPieces(ps) && at <= close < |text| && text[at..close] == PiecesText(ps) && text[close] == RBRACE
    ensures EndFrom(text, at, State(depth, false, false))
      == if depth == 1 then Some(close) else EndFrom(text, close + 1, State(depth - 1, false, false))
    decreases |text| - at
  {
    var c := text[at];
    if c == RBRACE {
      ps, close := [], at;
    } else {
      var p, next := FirstPiece(text, at, depth);
      var rest;
      rest, close := BodyRead(text, next, depth);
      ps := [p] + rest;
      assert text[at..close] == text[at..next] + text[next..close];
      assert ps[1..] == rest;
    }
  }

  lemma {:induction false} StepTaken(text: Text, at: nat, st: State)
    requires EndFrom(text, at, st).Some?
    ensures at < |text|
    ensures Advance(st, text[at]).Continue? ==>
      EndFrom(text, at, st) == EndFrom(text, at + 1, Advance(st, text[at]).st)
  {}

  lemma {:induction false} FirstPiece(text: Text, at: nat, depth: nat) returns (p: Piece, next: nat)
    requires depth >= 1 && EndFrom(text, at, State(depth, false, false)).Some? && text[at] != RBRACE
    ensures ValidPiece(p) && at < next <= |text| && text[at..next] == PieceText(p)
    ensures EndFrom(text, at, State(depth, false, false)) == EndFrom(text, next, State(depth, false, false))
    decreases |text| - at, 0
  {
    hide EndFrom; hide PiecesText; hide ItemsText; hide ValidPieces; hide ValidItems;
    var c := text[at];
    StepTaken(text, at, State(depth, false, false));
    if c == QUOTE {
      var items, close := StringRead(text, at + 1, depth);
      p, next := Quoted(items), close + 1;
      assert text[at..next] == [QUOTE] + text[at + 1..close] + [QUOTE];
    } else if c == LBRACE {
      var body, close := BodyRead(text, at + 1, depth + 1);
      p, next := Braces(body), close + 1;
      assert text[at..next] == [LBRACE] + text[at + 1..close] + [RBRACE];
    } else {
      p, next := Other(c), at + 1;
    }
  }

  // ----- the end of an object -----

  /** The units from `s` to `e` are an object: braces around well-formed pieces. */
  ghost predicate ObjectAt(text: Text, s: nat, e: nat) {
    s <= e < |text| && exists body :: ValidPieces(body) && text[s..e + 1] == PieceText(Braces(body))
  }

  /** From an opening brace, in any text, the scan ends at `e` exactly when an object stands there. */
  lemma {:induction false} ObjectEndIff(text: Text, s: nat, e: nat)
    requires s < |text| && text[s] == LBRACE
    ensures EndFrom(text, s, START) == Some(e) <==> ObjectAt(text, s, e)
  {
    hide ValidPieces;
    if EndFrom(text, s, START) == Some(e) {
      OneStep(text, s, START, State(1, false, false));
      var body, close := BodyRead(text, s + 1, 1);
      assert text[s..e + 1] == [LBRACE] + text[s + 1..close] + [RBRACE];
    }
    if ObjectAt(text, s, e) {
      var body :| ValidPieces(body) && text[s..e + 1] == PieceText(Braces(body));
      ObjectEndCorrect(text, s, body);
    }
  }

  lemma {:induction false} ObjectOpens(text: Text, s: nat, e: nat)
    requires ObjectAt(text, s, e)
    ensures text[s] == LBRACE
  {
    var body :| ValidPieces(body) && text[s..e + 1] == PieceText(Braces(body));
    assert text[s..e + 1][0] == LBRACE;
  }

  // ----- extraction -----

  /** The first and the last unit of an object. */
  datatype Span = Span(from: nat, to: nat)

  /** An object stands there and parses. */
  ghost predicate Parses<V(!new)>(parse: Text -> Option<V>, text: Text, span: Span) {
    ObjectAt(text, span.from, span.to) && parse(text[span.from..span.to + 1]).Some?
  }

  /** No object that parses starts from `lo` up to `hi`. */
  ghost predicate NoneFrom<V(!new)>(parse: Text -> Option<V>, text: Text, lo: nat, hi: nat) {
    forall span: Span :: lo <= span.from < hi ==> !Parses(parse, text, span)
  }

  /** The leftmost object that parses, then the leftmost behind it, and so on to the end. */
  ghost predicate Leftmost<V(!new)>(parse: Text -> Option<V>, text: Text, lo: nat, spans: seq<Span>)
    decreases |spans|
  {
    if spans == [] then NoneFrom(parse, text, lo, |text|)
    else
      && lo <= spans[0].from && Parses(parse, text, spans[0]) && NoneFrom(parse, text, lo, spans[0].from)
      && Leftmost(parse, text, spans[0].to + 1, spans[1..])
  }

  lemma {:induction false} Skipped<V(!new)>(parse: Text -> Option<V>, text: Text, at: nat, spans: seq<Span>)
    requires NoneFrom(parse, text, at, at + 1) && Leftmost(parse, text, at + 1, spans)
    ensures Leftmost(parse, text, at, spans)
  {
    hide Parses;
  }

  /** No object starts here that parses. */
  lemma {:induction false} NothingHere<V(!new)>(parse: Text -> Option<V>, text: Text, at: nat)
    requires at < |text|
    requires text[at] == LBRACE && EndFrom(text, at, START).Some? ==>
      parse(text[at..EndFrom(text, at, START).value + 1]).None?
    ensures NoneFrom(parse, text, at, at + 1)
  {
    hide EndFrom; hide ObjectAt;
    forall span: Span | at <= span.from < at + 1 ensures !Parses(parse, text, span) {
      if Parses(parse, text, span) {
        ObjectOpens(text, at, span.to);
        ObjectEndIff(text, at, span.to);
      }
    }
  }

  /** On every text, whatever parses, extraction returns the values of the leftmost objects that parse, each
      sought behind the one before. */
  lemma {:induction false} ExtractionIsLeftmost<V(!new)>(parse: Text -> Option<V>, text: Text, at: nat)
    returns (spans: seq<Span>)
    requires at <= |text|
    ensures Leftmost(parse, text, at, spans)
    ensures |ValuesFrom(parse, text, at)| == |spans|
    ensures forall i :: 0 <= i < |spans| ==>
      && spans[i].from <= spans[i].to < |text|
      && parse(text[spans[i].from..spans[i].to + 1]) == Some(ValuesFrom(parse, text, at)[i])
    decreases |text| - at
  {
    hide EndFrom; hide Leftmost; hide NoneFrom; hide Parses;
    if at == |text| {
      spans := [];
      assert Leftmost(parse, text, at, []) by { NoneBehind(parse, text); }
    } else {
      var end := EndFrom(text, at, START);
      if text[at] == LBRACE && end.Some? && parse(text[at..end.value + 1]).Some? {
        var rest := ExtractionIsLeftmost(parse, text, end.value + 1);
        spans := [Span(at, end.value)] + rest;
        TakenHere(parse, text, at, end.value, rest);
      } else {
        NothingHere(parse, text, at);
        spans := ExtractionIsLeftmost(parse, text, at + 1);
        Skipped(parse, text, at, spans);
      }
    }
  }

  lemma {:induction false} NoneBehind<V(!new)>(parse: Text -> Option<V>, text: Text)
    ensures Leftmost(parse, text, |text|, [])
  {
    hide Parses;
  }

  lemma {:induction false} TakenHere<V(!new)>(parse: Text -> Option<V>, text: Text, at: nat, end: nat, rest: seq<Span>)
    requires at < |text| && text[at] == LBRACE && EndFrom(text, at, START) == Some(end)
    requires parse(text[at..end + 1]).Some? && Leftmost(parse, text, end + 1, rest)
    ensures Leftmost(parse, text, at, [Span(at, end)] + rest)
  {
    hide EndFrom; hide ObjectAt;
    ObjectEndIff(text, at, end);
    var spans := [Span(at, end)] + rest;
    assert spans[1..] == rest;
    assert Parses(parse, text, spans[0]);
    hide Parses;
  }
}
