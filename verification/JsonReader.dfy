/** A JSON reader written from RFC 8259 alone (sections 2 to 7), and that it reads back what the
    canonical printer prints. */
module JsonReader {
  import opened Bytes
  import opened Ordering
  import opened CanonicalJson

  /** A JSON text as it is read; the members of an object in the order in which they stand. */
  datatype Doc =
    | DNull
    | DBool(b: bool)
    | DNum(token: Text)
    | DStr(s: Text)
    | DArr(items: seq<Doc>)
    | DObj(members: seq<Member>)

  datatype Member = Member(key: Text, value: Doc)

  datatype Read<+T> = Read(value: T, rest: Text)

  // ----- section 2: whitespace -----

  predicate Space(c: CodeUnit) {
    c == 0x20 || c == 0x09 || c == 0x0A || c == 0x0D
  }

  function Skip(t: Text): (r: Text)
    ensures |r| <= |t|
  {
    if t != [] && Space(t[0]) then Skip(t[1..]) else t
  }

  // ----- section 7: strings -----

  function HexValue(c: CodeUnit): Option<nat> {
    if 0x30 <= c <= 0x39 then Some(c as int - 0x30)
    else if 0x41 <= c <= 0x46 then Some(c as int - 0x41 + 10)
    else if 0x61 <= c <= 0x66 then Some(c as int - 0x61 + 10)
    else None
  }

  /** The unit that four hexadecimal digits stand for. */
  function FourDigits(t: Text): Option<CodeUnit> {
    if |t| < 4 then None
    else
      var a, b, c, d := HexValue(t[0]), HexValue(t[1]), HexValue(t[2]), HexValue(t[3]);
      if a.None? || b.None? || c.None? || d.None? then None
      else
        var n := 4096 * a.value + 256 * b.value + 16 * c.value + d.value;
        if n < 0x1_0000 then Some(n as CodeUnit) else None
  }

  /** The unit a letter after a backslash stands for. */
  function Unescaped(c: CodeUnit): Option<CodeUnit> {
    if c == 0x22 || c == 0x5C || c == 0x2F then Some(c)
    else if c == 0x62 then Some(0x08)
    else if c == 0x66 then Some(0x0C)
    else if c == 0x6E then Some(0x0A)
    else if c == 0x72 then Some(0x0D)
    else if c == 0x74 then Some(0x09)
    else None
  }

  /** One unit of string content. */
  function ReadUnit(t: Text): (r: Option<Read<CodeUnit>>)
    ensures r.Some? ==> |r.value.rest| < |t|
  {
    if t == [] || t[0] < 0x20 || t[0] == 0x22 then None
    else if t[0] != 0x5C then Some(Read(t[0], t[1..]))
    else if |t| < 2 then None
    else if t[1] == 0x75 then
      match FourDigits(t[2..])
      case None => None
      case Some(c) => Some(Read(c, t[6..]))
    else
      match Unescaped(t[1])
      case None => None
      case Some(c) => Some(Read(c, t[2..]))
  }

  /** String content up to its closing quotation mark. */
  function ReadString(t: Text): (r: Option<Read<Text>>)
    ensures r.Some? ==> |r.value.rest| < |t|
    decreases |t|
  {
    if t != [] && t[0] == 0x22 then Some(Read([], t[1..]))
    else
      match ReadUnit(t)
      case None => None
      case Some(u) =>
        match ReadString(u.rest)
        case None => None
        case Some(s) => Some(Read([u.value] + s.value, s.rest))
  }

  // ----- section 6: numbers, as the run of units they are made of -----

  predicate InNumber(c: CodeUnit) {
    0x30 <= c <= 0x39 || c == 0x2B || c == 0x2D || c == 0x2E || c == 0x45 || c == 0x65
  }

  function NumberSize(t: Text): (n: nat)
    ensures n <= |t|
  {
    if t != [] && InNumber(t[0]) then 1 + NumberSize(t[1..]) else 0
  }

  // ----- sections 3 to 5: values, objects, arrays -----

  function ReadLiteral(t: Text, word: Text, doc: Doc): (r: Option<Read<Doc>>)
    requires word != []
    ensures r.Some? ==> |r.value.rest| < |t|
  {
    if word <= t then Some(Read(doc, t[|word|..])) else None
  }

  function ReadValue(t: Text): (r: Option<Read<Doc>>)
    ensures r.Some? ==> |r.value.rest| < |t|
    decreases |t|, 0
  {
    if t == [] then None
    else if t[0] == 0x6E then ReadLiteral(t, [0x6E, 0x75, 0x6C, 0x6C], DNull)
    else if t[0] == 0x74 then ReadLiteral(t, [0x74, 0x72, 0x75, 0x65], DBool(true))
    else if t[0] == 0x66 then ReadLiteral(t, [0x66, 0x61, 0x6C, 0x73, 0x65], DBool(false))
    else if t[0] == 0x22 then
      match ReadString(t[1..])
      case None => None
      case Some(s) => Some(Read(DStr(s.value), s.rest))
    else if t[0] == 0x5B then
      var s := Skip(t[1..]);
      if s != [] && s[0] == 0x5D then Some(Read(DArr([]), s[1..]))
      else
        match ReadItems(s)
        case None => None
        case Some(items) => Some(Read(DArr(items.value), items.rest))
    else if t[0] == 0x7B then
      var s := Skip(t[1..]);
      if s != [] && s[0] == 0x7D then Some(Read(DObj([]), s[1..]))
      else
        match ReadMembers(s)
        case None => None
        case Some(ms) => Some(Read(DObj(ms.value), ms.rest))
    else if t[0] == 0x2D || 0x30 <= t[0] <= 0x39 then Some(Read(DNum(t[..NumberSize(t)]), t[NumberSize(t)..]))
    else None
  }

  /** Values separated by commas, up to the closing bracket. */
  function ReadItems(t: Text): (r: Option<Read<seq<Doc>>>)
    ensures r.Some? ==> |r.value.rest| < |t|
    decreases |t|, 1
  {
    match ReadValue(t)
    case None => None
    case Some(v) =>
      var s := Skip(v.rest);
      if s == [] then None
      else if s[0] == 0x5D then Some(Read([v.value], s[1..]))
      else if s[0] != 0x2C then None
      else
        match ReadItems(Skip(s[1..]))
        case None => None
        case Some(rest) => Some(Read([v.value] + rest.value, rest.rest))
  }

  /** A name, a colon, a value. */
  function ReadMember(t: Text): (r: Option<Read<Member>>)
    ensures r.Some? ==> |r.value.rest| < |t|
    decreases |t|, 1
  {
    if t == [] || t[0] != 0x22 then None
    else
      match ReadString(t[1..])
      case None => None
      case Some(key) =>
        var s := Skip(key.rest);
        if s == [] || s[0] != 0x3A then None
        else
          match ReadValue(Skip(s[1..]))
          case None => None
          case Some(v) => Some(Read(Member(key.value, v.value), v.rest))
  }

  /** Members separated by commas, up to the closing brace. */
  function ReadMembers(t: Text): (r: Option<Read<seq<Member>>>)
    ensures r.Some? ==> |r.value.rest| < |t|
    decreases |t|, 2
  {
    match ReadMember(t)
    case None => None
    case Some(m) =>
      var s := Skip(m.rest);
      if s == [] then None
      else if s[0] == 0x7D then Some(Read([m.value], s[1..]))
      else if s[0] != 0x2C then None
      else
        match ReadMembers(Skip(s[1..]))
        case None => None
        case Some(rest) => Some(Read([m.value] + rest.value, rest.rest))
  }

  /** A JSON text: one value and nothing else but whitespace. */
  function ReadJson(t: Text): Option<Doc> {
    match ReadValue(Skip(t))
    case None => None
    case Some(v) => if Skip(v.rest) == [] then Some(v.value) else None
  }

  // ----- what a text means -----

  /** Of members with the same name the last one counts. */
  ghost function ValueOf(d: Doc): Val {
    match d
    case DNull => VNull
    case DBool(b) => VBool(b)
    case DNum(token) => VNum(token)
    case DStr(s) => VStr(s)
    case DArr(items) => VArr(seq(|items|, i requires 0 <= i < |items| => ValueOf(items[i])))
    case DObj(members) => VObj(MembersOf(members))
  }

  ghost function MembersOf(ms: seq<Member>): map<Text, Val> {
    if ms == [] then map[] else map[ms[0].key := ValueOf(ms[0].value)] + MembersOf(ms[1..])
  }

  /** The names of every object in the text are in ascending order. */
  ghost predicate InOrder(d: Doc) {
    match d
    case DArr(items) => forall i :: 0 <= i < |items| ==> InOrder(items[i])
    case DObj(members) =>
      && (forall i, j :: 0 <= i < j < |members| ==> Ascends(members[i].key, members[j].key))
      && forall i :: 0 <= i < |members| ==> InOrder(members[i].value)
    case _ => true
  }

  // ----- strings are read back -----

  lemma {:induction false} HexReads(d: int)
    requires 0 <= d < 16
    ensures HexValue(HexUnit(d)) == Some(d)
  {}

  lemma {:induction false} EscapeReads(c: CodeUnit, x: Text)
    ensures ReadUnit(UnicodeEscape(c) + x) == Some(Read(c, x))
  {
    var n := c as int;
    var e := UnicodeEscape(c);
    var t := e + x;
    assert t[0] == e[0] && t[1] == e[1] && t[2] == e[2] && t[3] == e[3] && t[4] == e[4] && t[5] == e[5];
    assert t[6..] == x;
    HexReads(n / 0x1000);
    HexReads(n / 0x100 % 16);
    HexReads(n / 16 % 16);
    HexReads(n % 16);
    FromNibbles(n);
    hide HexValue; hide HexUnit;
  }

  lemma {:induction false} LetterReads(c: CodeUnit, x: Text)
    requires EscapeLetter(c) != 0
    ensures ReadUnit([BACKSLASH, EscapeLetter(c)] + x) == Some(Read(c, x))
  {
    assert ([BACKSLASH, EscapeLetter(c)] + x)[2..] == x;
  }

  lemma {:induction false} PlainReads(c: CodeUnit, x: Text)
    requires c >= 0x20 && c != QUOTE && c != BACKSLASH
    ensures ReadUnit([c] + x) == Some(Read(c, x))
  {
    assert ([c] + x)[1..] == x;
  }

  lemma {:induction false} OneUnit(t: Text, c: CodeUnit, x: Text)
    requires ReadUnit(t) == Some(Read(c, x))
    ensures var r := ReadString(x);
      ReadString(t) == if r.None? then None else Some(Read([c] + r.value.value, r.value.rest))
  {
    hide ReadUnit;
    assert t != [] && t[0] != 0x22 by { NotQuote(t); }
  }

  lemma {:induction false} NotQuote(t: Text)
    requires ReadUnit(t).Some?
    ensures t != [] && t[0] != 0x22
  {}

  lemma {:induction false} StringReads(s: Text, x: Text)
    ensures ReadString(Escape(s) + [QUOTE] + x) == Some(Read(s, x))
    decreases |s|
  {
    hide ReadUnit; hide EscapeLetter; hide UnicodeEscape; hide ReadString;
    if s == [] {
      EmptyReads(x);
      assert Escape(s) + [QUOTE] + x == [QUOTE] + x;
    } else {
      var n := HeadSize(s);
      var later := Escape(s[n..]) + [QUOTE] + x;
      StringReads(s[n..], x);
      assert Escape(s) + [QUOTE] + x == Head(s) + later;
      HeadReads(s, later);
      assert s == s[..n] + s[n..];
    }
  }

  lemma {:induction false} EmptyReads(x: Text)
    ensures ReadString([QUOTE] + x) == Some(Read([], x))
  {
    assert ([QUOTE] + x)[1..] == x;
  }

  /** One escape step is read as the one or two units it stands for. */
  lemma {:induction false} HeadReads(s: Text, x: Text)
    requires s != [] && ReadString(x).Some?
    ensures var r, n := ReadString(x).value, HeadSize(s);
      ReadString(Head(s) + x) == Some(Read(s[..n] + r.value, r.rest))
  {
    hide ReadUnit; hide UnicodeEscape; hide ReadString;
    var c, r := s[0], ReadString(x).value;
    if EscapeLetter(c) != 0 {
      LetterReads(c, x);
      OneUnit(Head(s) + x, c, x);
      assert HeadSize(s) == 1 by { LetterIsPlain(c); }
      assert s[..1] == [c];
    } else if HeadSize(s) == 2 {
      PlainReads(s[1], x);
      OneUnit([s[1]] + x, s[1], x);
      PlainReads(c, [s[1]] + x);
      OneUnit([c] + ([s[1]] + x), c, [s[1]] + x);
      assert Head(s) + x == [c] + ([s[1]] + x);
      assert s[..2] + r.value == [c] + ([s[1]] + r.value);
    } else if c < 0x20 || HighSurrogate(c) || LowSurrogate(c) {
      EscapeReads(c, x);
      OneUnit(Head(s) + x, c, x);
      assert s[..1] == [c];
    } else {
      PlainReads(c, x);
      OneUnit([c] + x, c, x);
      assert s[..1] == [c];
    }
  }

  lemma {:induction false} LetterIsPlain(c: CodeUnit)
    requires EscapeLetter(c) != 0
    ensures !HighSurrogate(c)
  {}

  // ----- values are read back -----

  /** The text of a value as it is to be read. */
  ghost function DocOf(v: Json): Doc
    decreases v, 2
  {
    match v
    case Null | Opaque => DNull
    case Bool(b) => DBool(b)
    case Num(token) => DNum(token)
    case Str(s) => DStr(s)
    case Arr(items) => DArr(ItemDocs(v, items))
    case Obj(entries) =>
      assert forall e :: e in Sort(entries) ==> e in entries;
      DObj(MemberDocs(v, Sort(entries)))
  }

  ghost function ItemDocs(whole: Json, items: seq<Json>): (r: seq<Doc>)
    requires forall i :: 0 <= i < |items| ==> items[i] < whole
    ensures |r| == |items| && forall i :: 0 <= i < |items| ==> r[i] == DocOf(items[i])
    decreases whole, 0, |items|
  {
    if items == [] then [] else [DocOf(items[0])] + ItemDocs(whole, items[1..])
  }

  ghost function MemberDocs(whole: Json, es: seq<Entry>): (r: seq<Member>)
    requires forall e :: e in es ==> e.value < whole
    ensures |r| == |es| && forall i :: 0 <= i < |es| ==> r[i] == Member(es[i].key, DocOf(es[i].value))
    decreases whole, 1, |es|
  {
    if es == [] then [] else [Member(es[0].key, DocOf(es[0].value))] + MemberDocs(whole, es[1..])
  }

  lemma {:induction false} NoSpace(t: Text)
    ensures t == [] || !Space(t[0]) ==> Skip(t) == t
  {}

  lemma {:induction false} NumberReads(a: Text, x: Text)
    requires (forall i :: 0 <= i < |a| ==> NumberUnit(a[i])) && Stop(x)
    ensures NumberSize(a + x) == |a|
  {
    if a == [] {
      assert a + x == x;
    } else {
      assert (a + x)[0] == a[0] && (a + x)[1..] == a[1..] + x;
      NumberReads(a[1..], x);
    }
  }

  lemma {:induction false} LiteralReads(t: Text, word: Text, x: Text, doc: Doc)
    requires word != [] && t == word + x
    ensures ReadLiteral(t, word, doc) == Some(Read(doc, x))
  {
    assert t[..|word|] == word && t[|word|..] == x;
  }

  /** A printed value, with anything behind it that may follow a value, is read as that value. */
  lemma {:induction false} ValueReads(v: Json, x: Text)
    requires Valid(v) && Stop(x)
    ensures ReadValue(Print(v) + x) == Some(Read(DocOf(v), x))
    decreases v, 3
  {
    hide PrintItems; hide PrintEntries; hide Escape; hide Sort; hide ReadString; hide ReadItems; hide ReadMembers;
    hide ReadLiteral; hide NumberSize; hide Skip;
    var t := Print(v) + x;
    PrintStarts(v);
    match v {
      case Null | Opaque => LiteralReads(t, [0x6E, 0x75, 0x6C, 0x6C], x, DNull);
      case Bool(b) =>
        if b { LiteralReads(t, [0x74, 0x72, 0x75, 0x65], x, DBool(true)); }
        else { LiteralReads(t, [0x66, 0x61, 0x6C, 0x73, 0x65], x, DBool(false)); }
      case Num(token) =>
        NumberReads(token, x);
        assert t[..|token|] == token && t[|token|..] == x;
      case Str(s) =>
        assert t[1..] == Escape(s) + [QUOTE] + x;
        StringReads(s, x);
      case Arr(items) =>
        assert t[1..] == PrintItems(v, items) + [RBRACKET] + x;
        ArrayReads(v, items, x);
      case Obj(entries) =>
        assert t[1..] == PrintEntries(v, Sort(entries)) + [RBRACE] + x;
        SortedBelow(v, entries);
        ObjectReads(v, Sort(entries), x);
    }
  }

  lemma {:induction false} SortedBelow(v: Json, entries: seq<Entry>)
    requires v == Obj(entries) && Valid(v)
    ensures forall e :: e in Sort(entries) ==> e.value < v && Valid(e.value)
  {
    hide Sort;
    assert forall e :: e in Sort(entries) ==> e in entries;
  }

  /** What follows the opening bracket. */
  lemma {:induction false} ArrayReads(whole: Json, items: seq<Json>, x: Text)
    requires forall i :: 0 <= i < |items| ==> items[i] < whole && Valid(items[i])
    ensures var t := PrintItems(whole, items) + [RBRACKET] + x;
      && Skip(t) == t && t != [] && (t[0] == 0x5D <==> items == [])
      && (items == [] ==> t[1..] == x)
      && (items != [] ==> ReadItems(t) == Some(Read(ItemDocs(whole, items), x)))
    decreases whole, 0, |items| + 1
  {
    hide Print; hide ReadItems; hide ItemDocs;
    var t := PrintItems(whole, items) + [RBRACKET] + x;
    NoSpace(t);
    if items != [] {
      ItemsSplit(whole, items, x);
      PrintStarts(items[0]);
      assert t[0] == Print(items[0])[0];
      StartsPlain(items[0]);
      ItemsRead(whole, items, x);
    }
  }

  /** The first unit of a print is neither a space nor a closing bracket. */
  lemma {:induction false} StartsPlain(v: Json)
    requires Valid(v)
    ensures !Space(FirstUnit(v)) && FirstUnit(v) != 0x5D && FirstUnit(v) != 0x7D
  {}

  lemma {:induction false} ItemsRead(whole: Json, items: seq<Json>, x: Text)
    requires items != [] && forall i :: 0 <= i < |items| ==> items[i] < whole && Valid(items[i])
    ensures ReadItems(PrintItems(whole, items) + [RBRACKET] + x) == Some(Read(ItemDocs(whole, items), x))
    decreases whole, 0, |items|
  {
    hide Print; hide ReadValue; hide DocOf; hide PrintItems;
    var t, after := PrintItems(whole, items) + [RBRACKET] + x, AfterItem(whole, items, x);
    ItemsSplit(whole, items, x);
    ValueReads(items[0], after);
    NoSpace(after);
    if |items| == 1 {
      assert after[1..] == x;
      assert ItemDocs(whole, items[1..]) == [];
      assert ItemDocs(whole, items) == [DocOf(items[0])];
    } else {
      var later := PrintItems(whole, items[1..]) + [RBRACKET] + x;
      assert after[1..] == later;
      ItemsRead(whole, items[1..], x);
      LaterStarts(whole, items[1..], x);
      NoSpace(later);
    }
  }

  lemma {:induction false} LaterStarts(whole: Json, items: seq<Json>, x: Text)
    requires items != [] && forall i :: 0 <= i < |items| ==> items[i] < whole && Valid(items[i])
    ensures var t := PrintItems(whole, items) + [RBRACKET] + x; t != [] && !Space(t[0])
  {
    hide Print; hide PrintItems;
    ItemsSplit(whole, items, x);
    PrintStarts(items[0]);
    StartsPlain(items[0]);
    assert (Print(items[0]) + AfterItem(whole, items, x))[0] == Print(items[0])[0];
  }

  /** What follows the opening brace. */
  lemma {:induction false} ObjectReads(whole: Json, es: seq<Entry>, x: Text)
    requires forall e :: e in es ==> e.value < whole && Valid(e.value)
    ensures var t := PrintEntries(whole, es) + [RBRACE] + x;
      && Skip(t) == t && t != [] && (t[0] == 0x7D <==> es == [])
      && (es == [] ==> t[1..] == x)
      && (es != [] ==> ReadMembers(t) == Some(Read(MemberDocs(whole, es), x)))
    decreases whole, 1, |es| + 1
  {
    hide PrintEntry; hide ReadMembers; hide MemberDocs;
    var t := PrintEntries(whole, es) + [RBRACE] + x;
    if es != [] {
      EntryStarts(whole, es[0]);
      assert t[0] == PrintEntry(whole, es[0])[0];
      MembersRead(whole, es, x);
    }
    NoSpace(t);
  }

  lemma {:induction false} EntryStarts(whole: Json, e: Entry)
    requires e.value < whole
    ensures PrintEntry(whole, e) != [] && PrintEntry(whole, e)[0] == 0x22
  {
    hide Escape; hide Print;
  }

  lemma {:induction false} MemberReads(whole: Json, e: Entry, x: Text)
    requires e.value < whole && Valid(e.value) && Stop(x)
    ensures ReadMember(PrintEntry(whole, e) + x) == Some(Read(Member(e.key, DocOf(e.value)), x))
    decreases e.value, 4
  {
    hide Print; hide ReadValue; hide DocOf; hide Escape; hide ReadString;
    var t, rest := PrintEntry(whole, e) + x, [COLON] + Print(e.value) + x;
    assert t[1..] == Escape(e.key) + [QUOTE] + rest;
    StringReads(e.key, rest);
    NoSpace(rest);
    assert rest[1..] == Print(e.value) + x;
    PrintStarts(e.value);
    StartsPlain(e.value);
    NoSpace(rest[1..]);
    ValueReads(e.value, x);
  }

  /** One more member, when it is known what comes after it. */
  lemma {:induction false} MembersStepRead(t: Text, m: Member, after: Text)
    requires ReadMember(t) == Some(Read(m, after)) && after != []
    ensures after[0] == 0x7D ==> ReadMembers(t) == Some(Read([m], after[1..]))
    ensures after[0] == 0x2C && Skip(after[1..]) == after[1..] && ReadMembers(after[1..]).Some? ==>
      var r := ReadMembers(after[1..]).value; ReadMembers(t) == Some(Read([m] + r.value, r.rest))
  {
    hide ReadMember;
    NoSpace(after);
  }

  lemma {:induction false} MembersSplit(whole: Json, es: seq<Entry>, x: Text)
    requires es != [] && forall e :: e in es ==> e.value < whole
    ensures PrintEntries(whole, es) + [RBRACE] + x == PrintEntry(whole, es[0]) + AfterEntry(whole, es, x)
  {
    hide PrintEntry;
    if |es| > 1 { FourParts(PrintEntry(whole, es[0]), [COMMA], PrintEntries(whole, es[1..]), [RBRACE], x); }
    else { Assoc(PrintEntry(whole, es[0]), [RBRACE], x); }
  }

  lemma {:induction false} FourParts(a: Text, b: Text, c: Text, d: Text, x: Text)
    ensures a + b + c + d + x == a + (b + (c + d + x))
  {}

  lemma {:induction false} MembersRead(whole: Json, es: seq<Entry>, x: Text)
    requires es != [] && forall e :: e in es ==> e.value < whole && Valid(e.value)
    ensures ReadMembers(PrintEntries(whole, es) + [RBRACE] + x) == Some(Read(MemberDocs(whole, es), x))
    decreases whole, 1, |es|
  {
    hide PrintEntry; hide ReadMember; hide ReadMembers; hide DocOf; hide PrintEntries; hide Skip;
    var t, after := PrintEntries(whole, es) + [RBRACE] + x, AfterEntry(whole, es, x);
    var m := Member(es[0].key, DocOf(es[0].value));
    MembersSplit(whole, es, x);
    MemberReads(whole, es[0], after);
    MembersStepRead(t, m, after);
    assert MemberDocs(whole, es) == [m] + MemberDocs(whole, es[1..]);
    if |es| == 1 {
      assert after[1..] == x && MemberDocs(whole, es[1..]) == [] && [m] + [] == [m];
    } else {
      var later := PrintEntries(whole, es[1..]) + [RBRACE] + x;
      assert after[1..] == later;
      assert forall e :: e in es[1..] ==> e in es;
      MembersRead(whole, es[1..], x);
      MembersSplit(whole, es[1..], x);
      EntryStarts(whole, es[1]);
      assert later[0] == PrintEntry(whole, es[1])[0];
      NoSpace(later);
    }
  }

  // ----- and they mean the same -----

  lemma {:induction false} AddFirst<K, V>(m: map<K, V>, k: K, v: V)
    requires k !in m
    ensures map[k := v] + m == m[k := v]
  {}

  lemma {:induction false} MembersStep(m: Member, ms: seq<Member>)
    ensures MembersOf([]) == map[] && MembersOf([m] + ms) == map[m.key := ValueOf(m.value)] + MembersOf(ms)
  {
    assert ([m] + ms)[1..] == ms;
  }

  lemma {:induction false} FieldStep(es: seq<Entry>)
    ensures es == [] ==> FieldMap(es) == map[]
    ensures es != [] ==> FieldMap(es) == FieldMap(es[1..])[es[0].key := Denote(es[0].value)]
  {}

  lemma {:induction false} KeyAbsent(es: seq<Entry>)
    requires es != [] && DistinctKeys(es)
    ensures es[0].key !in FieldMap(es[1..]) && DistinctKeys(es[1..])
  {
    hide Denote;
    assert forall i :: 0 <= i < |es[1..]| ==> es[1..][i] == es[i + 1];
  }

  lemma {:induction false} MembersMean(whole: Json, es: seq<Entry>)
    requires DistinctKeys(es) && forall e :: e in es ==> e.value < whole && Valid(e.value)
    ensures MembersOf(MemberDocs(whole, es)) == FieldMap(es)
    decreases whole, 1, |es|
  {
    FieldStep(es);
    if es == [] {
      MembersStep(Member([], DNull), []);
    } else {
      assert forall e :: e in es[1..] ==> e in es;
      KeyAbsent(es);
      MembersMean(whole, es[1..]);
      DocMeans(es[0].value);
      assert MemberDocs(whole, es) == [Member(es[0].key, DocOf(es[0].value))] + MemberDocs(whole, es[1..]);
      MembersStep(Member(es[0].key, DocOf(es[0].value)), MemberDocs(whole, es[1..]));
      hide *;
      AddFirst(FieldMap(es[1..]), es[0].key, Denote(es[0].value));
    }
  }

  lemma {:induction false} ItemsMean(v: Json)
    requires v.Arr? && Valid(v)
    ensures ValueOf(DocOf(v)) == Denote(v) && InOrder(DocOf(v))
    decreases v, 2
  {
    forall i | 0 <= i < |v.items|
      ensures ValueOf(DocOf(v.items[i])) == Denote(v.items[i]) && InOrder(DocOf(v.items[i]))
    {
      DocMeans(v.items[i]);
    }
  }

  lemma {:induction false} ObjectMeans(v: Json)
    requires v.Obj? && Valid(v)
    ensures ValueOf(DocOf(v)) == Denote(v)
    decreases v, 2
  {
    var es := Sort(v.entries);
    SortedBelow(v, v.entries);
    SortSorts(v.entries);
    MembersMean(v, es);
    ObjectIs(v);
    hide *;
  }

  lemma {:induction false} ObjectIs(v: Json)
    requires v.Obj? && Valid(v)
    ensures (forall e :: e in Sort(v.entries) ==> e.value < v && Valid(e.value))
    ensures DocOf(v) == DObj(MemberDocs(v, Sort(v.entries))) && Denote(v) == VObj(FieldMap(v.entries))
    ensures forall ms :: ValueOf(DObj(ms)) == VObj(MembersOf(ms))
  {
    SortedBelow(v, v.entries);
  }

  lemma {:induction false} ObjectInOrder(v: Json)
    requires v.Obj? && Valid(v)
    ensures InOrder(DocOf(v))
    decreases v, 2
  {
    var es := Sort(v.entries);
    SortedBelow(v, v.entries);
    SortSorts(v.entries);
    ObjectIs(v);
    hide Sort; hide Denote; hide ValueOf; hide Less; hide Ascends; hide FieldMap; hide DocOf;
    var members := MemberDocs(v, es);
    forall i | 0 <= i < |es| ensures InOrder(members[i].value) {
      assert es[i] in es;
      DocMeans(es[i].value);
    }
    forall i, j | 0 <= i < j < |es| ensures Ascends(members[i].key, members[j].key) {
      LessAscends(es[i].key, es[j].key);
    }
  }

  lemma {:induction false} DocMeans(v: Json)
    requires Valid(v)
    ensures ValueOf(DocOf(v)) == Denote(v) && InOrder(DocOf(v))
    decreases v, 3
  {
    match v {
      case Arr(_) => ItemsMean(v);
      case Obj(_) =>
        ObjectMeans(v);
        ObjectInOrder(v);
      case _ =>
    }
  }

  /** Every valid value is printed as a JSON text that means the same, the whole text and nothing else,
      with the names of every object in ascending order. */
  lemma {:induction false} PrintReadsBack(v: Json)
    requires Valid(v)
    ensures var r := ReadJson(Print(v)); r.Some? && ValueOf(r.value) == Denote(v) && InOrder(r.value)
  {
    hide Print; hide ReadValue; hide DocOf; hide ValueOf; hide InOrder; hide Denote;
    assert Print(v) + [] == Print(v);
    ValueReads(v, []);
    PrintStarts(v);
    StartsPlain(v);
    NoSpace(Print(v));
    DocMeans(v);
  }
}
