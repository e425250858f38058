/** The canonical JSON printer, and why two values with the same print are the same value. */
module CanonicalJson {
  import opened Ordering

  const QUOTE: CodeUnit := 0x22
  const BACKSLASH: CodeUnit := 0x5C
  const COMMA: CodeUnit := 0x2C
  const COLON: CodeUnit := 0x3A
  const LBRACKET: CodeUnit := 0x5B
  const RBRACKET: CodeUnit := 0x5D
  const LBRACE: CodeUnit := 0x7B
  const RBRACE: CodeUnit := 0x7D
  const NULL: Text := [0x6E, 0x75, 0x6C, 0x6C]
  const TRUE: Text := [0x74, 0x72, 0x75, 0x65]
  const FALSE: Text := [0x66, 0x61, 0x6C, 0x73, 0x65]

  /** A runtime value. A finite number is known by the decimal text it prints as; `Opaque`
      stands for what has no JSON form: undefined, NaN, the infinities, functions. */
  datatype Json =
    | Null | Opaque
    | Bool(b: bool)
    | Num(token: Text)
    | Str(s: Text)
    | Arr(items: seq<Json>)
    | Obj(entries: seq<Entry>)

  datatype Entry = Entry(key: Text, value: Json)

  /** Number tokens are made of digits and `-+.eE` (RFC 8259, section 6). */
  predicate NumberUnit(c: CodeUnit) {
    0x30 <= c <= 0x39 || c == 0x2D || c == 0x2B || c == 0x2E || c == 0x65 || c == 0x45
  }

  predicate NumberToken(t: Text) {
    t != [] && (t[0] == 0x2D || 0x30 <= t[0] <= 0x39) && forall i :: 0 <= i < |t| ==> NumberUnit(t[i])
  }

  predicate DistinctKeys(es: seq<Entry>) {
    forall i, j :: 0 <= i < j < |es| ==> es[i].key != es[j].key
  }

  /** Keys of one object are distinct and numbers are number tokens, at every depth. */
  ghost predicate Valid(v: Json) {
    match v
    case Null | Opaque | Bool(_) | Str(_) => true
    case Num(token) => NumberToken(token)
    case Arr(items) => forall i :: 0 <= i < |items| ==> Valid(items[i])
    case Obj(entries) => DistinctKeys(entries) && forall i :: 0 <= i < |entries| ==> Valid(entries[i].value)
  }

  // ----- strings: the quoting of JSON.stringify -----

  predicate HighSurrogate(c: CodeUnit) { 0xD800 <= c <= 0xDBFF }

  predicate LowSurrogate(c: CodeUnit) { 0xDC00 <= c <= 0xDFFF }

  /** The letter of a two-unit escape, or 0. */
  function EscapeLetter(c: CodeUnit): CodeUnit {
    if c == QUOTE then QUOTE
    else if c == BACKSLASH then BACKSLASH
    else if c == 0x08 then 0x62
    else if c == 0x09 then 0x74
    else if c == 0x0A then 0x6E
    else if c == 0x0C then 0x66
    else if c == 0x0D then 0x72
    else 0
  }

  function HexUnit(d: int): (c: CodeUnit)
    requires 0 <= d < 16
    ensures c != QUOTE && c != BACKSLASH
  {
    if d < 10 then (0x30 + d) as CodeUnit else (0x57 + d) as CodeUnit
  }

  function UnicodeEscape(c: CodeUnit): Text {
    var n := c as int;
    [BACKSLASH, 0x75, HexUnit(n / 0x1000), HexUnit(n / 0x100 % 16), HexUnit(n / 16 % 16), HexUnit(n % 16)]
  }

  /** How many code units the next escape step consumes: a whole surrogate pair, or one. */
  function HeadSize(s: Text): (n: nat)
    requires s != []
    ensures 1 <= n <= |s|
  {
    if |s| > 1 && HighSurrogate(s[0]) && LowSurrogate(s[1]) then 2 else 1
  }

  function Head(s: Text): (r: Text)
    requires s != []
    ensures r != [] && r[0] != QUOTE
  {
    var c := s[0];
    if EscapeLetter(c) != 0 then [BACKSLASH, EscapeLetter(c)]
    else if HeadSize(s) == 2 then s[..2]
    else if c < 0x20 || HighSurrogate(c) || LowSurrogate(c) then UnicodeEscape(c)
    else [c]
  }

  function Escape(s: Text): Text
    decreases |s|
  {
    if s == [] then [] else Head(s) + Escape(s[HeadSize(s)..])
  }

  function Quote(s: Text): Text {
    [QUOTE] + Escape(s) + [QUOTE]
  }

  // ----- objects: keys in sort() order -----

  function Insert(e: Entry, es: seq<Entry>): (r: seq<Entry>)
    ensures multiset(r) == multiset([e]) + multiset(es)
  {
    if es == [] || Less(e.key, es[0].key) then [e] + es
    else
      assert es == [es[0]] + es[1..];
      [es[0]] + Insert(e, es[1..])
  }

  function Sort(es: seq<Entry>): (r: seq<Entry>)
    ensures multiset(r) == multiset(es)
    ensures forall e :: e in r <==> e in es
  {
    if es == [] then []
    else
      assert es == [es[0]] + es[1..];
      var r := Insert(es[0], Sort(es[1..]));
      assert forall e :: e in r <==> e in multiset(r);
      assert forall e :: e in es <==> e in multiset(es);
      r
  }

  // ----- the printer -----

  function Print(v: Json): Text
    decreases v, 2
  {
    match v
    case Null | Opaque => NULL
    case Bool(b) => if b then TRUE else FALSE
    case Num(token) => token
    case Str(s) => Quote(s)
    case Arr(items) => [LBRACKET] + PrintItems(v, items) + [RBRACKET]
    case Obj(entries) =>
      assert forall e :: e in Sort(entries) ==> e in entries;
      [LBRACE] + PrintEntries(v, Sort(entries)) + [RBRACE]
  }

  /** The items of an array, joined by commas. */
  function PrintItems(whole: Json, items: seq<Json>): Text
    requires forall i :: 0 <= i < |items| ==> items[i] < whole
    decreases whole, 0, |items|
  {
    if items == [] then []
    else if |items| == 1 then Print(items[0])
    else Print(items[0]) + [COMMA] + PrintItems(whole, items[1..])
  }

  function PrintEntry(whole: Json, e: Entry): Text
    requires e.value < whole
    decreases whole, 0, 0
  {
    Quote(e.key) + [COLON] + Print(e.value)
  }

  function PrintEntries(whole: Json, es: seq<Entry>): Text
    requires forall e :: e in es ==> e.value < whole
    decreases whole, 1, |es|
  {
    if es == [] then []
    else if |es| == 1 then PrintEntry(whole, es[0])
    else PrintEntry(whole, es[0]) + [COMMA] + PrintEntries(whole, es[1..])
  }

  // ----- the meaning of a value: objects are finite maps -----

  datatype Val =
    | VNull
    | VBool(b: bool)
    | VNum(token: Text)
    | VStr(s: Text)
    | VArr(items: seq<Val>)
    | VObj(fields: map<Text, Val>)

  ghost function Denote(v: Json): Val {
    match v
    case Null | Opaque => VNull
    case Bool(b) => VBool(b)
    case Num(token) => VNum(token)
    case Str(s) => VStr(s)
    case Arr(items) => VArr(seq(|items|, i requires 0 <= i < |items| => Denote(items[i])))
    case Obj(entries) => VObj(FieldMap(entries))
  }

  ghost function FieldMap(es: seq<Entry>): (m: map<Text, Val>)
    ensures forall k :: k in m ==> exists e :: e in es && e.key == k
    ensures forall e :: e in es ==> e.key in m
  {
    if es == [] then map[] else FieldMap(es[1..])[es[0].key := Denote(es[0].value)]
  }

  lemma {:induction false} FieldMapAt(es: seq<Entry>, e: Entry)
    requires DistinctKeys(es) && e in es
    ensures FieldMap(es)[e.key] == Denote(e.value)
  {
    if e != es[0] {
      FieldMapAt(es[1..], e);
    }
  }

  /** The order of the entries does not matter. */
  lemma {:induction false} FieldMapOrder(es: seq<Entry>, fs: seq<Entry>)
    requires DistinctKeys(es) && DistinctKeys(fs) && forall e :: e in es <==> e in fs
    ensures FieldMap(es) == FieldMap(fs)
  {
    forall k | k in FieldMap(es) ensures k in FieldMap(fs) && FieldMap(es)[k] == FieldMap(fs)[k] {
      var e :| e in es && e.key == k;
      FieldMapAt(es, e);
      FieldMapAt(fs, e);
    }
  }

  // ----- sorting -----

  predicate Sorted(es: seq<Entry>) {
    forall i, j :: 0 <= i < j < |es| ==> Less(es[i].key, es[j].key)
  }

  lemma {:induction false} InsertSorts(e: Entry, es: seq<Entry>)
    requires Sorted(es) && forall f :: f in es ==> f.key != e.key
    ensures Sorted(Insert(e, es)) && forall f :: f in Insert(e, es) <==> f == e || f in es
  {
    if es == [] {
    } else if Less(e.key, es[0].key) {
      forall f | f in es ensures Less(e.key, f.key) {
        var i :| 0 <= i < |es| && es[i] == f;
        if i > 0 { LessTransitive(e.key, es[0].key, f.key); }
      }
    } else {
      LessTotal(e.key, es[0].key);
      InsertSorts(e, es[1..]);
      var r := Insert(e, es[1..]);
      assert forall f :: f in r ==> Less(es[0].key, f.key);
      assert Sorted([es[0]] + r);
    }
  }

  lemma {:induction false} SortSorts(es: seq<Entry>)
    requires DistinctKeys(es)
    ensures Sorted(Sort(es)) && DistinctKeys(Sort(es)) && FieldMap(Sort(es)) == FieldMap(es)
  {
    if es != [] {
      SortSorts(es[1..]);
      forall f | f in Sort(es[1..]) ensures f.key != es[0].key { assert f in es[1..]; }
      InsertSorts(es[0], Sort(es[1..]));
    }
    SortedDistinct(Sort(es));
    FieldMapOrder(Sort(es), es);
  }

  lemma {:induction false} SortedDistinct(es: seq<Entry>)
    requires Sorted(es)
    ensures DistinctKeys(es)
  {
    forall i, j | 0 <= i < j < |es| ensures es[i].key != es[j].key { LessIrreflexive(es[i].key); }
  }

  // ----- strings are uniquely readable -----

  lemma {:induction false} HexUnique(a: int, b: int)
    requires 0 <= a < 16 && 0 <= b < 16 && HexUnit(a) == HexUnit(b)
    ensures a == b
  {}

  lemma {:induction false} FromNibbles(n: nat)
    requires n < 0x1_0000
    ensures n == 0x1000 * (n / 0x1000) + 0x100 * (n / 0x100 % 16) + 16 * (n / 16 % 16) + n % 16
  {
    assert n / 0x100 == 16 * (n / 0x1000) + n / 0x100 % 16;
    assert n / 16 == 16 * (n / 0x100) + n / 16 % 16;
  }

  lemma {:induction false} UnicodeEscapeUnique(c: CodeUnit, d: CodeUnit)
    requires UnicodeEscape(c) == UnicodeEscape(d)
    ensures c == d
  {
    var x, y, m, n := UnicodeEscape(c), UnicodeEscape(d), c as int, d as int;
    assert x[2] == y[2] && x[3] == y[3] && x[4] == y[4] && x[5] == y[5];
    HexUnique(m / 0x1000, n / 0x1000);
    HexUnique(m / 0x100 % 16, n / 0x100 % 16);
    HexUnique(m / 16 % 16, n / 16 % 16);
    HexUnique(m % 16, n % 16);
    hide *;
    FromNibbles(m);
    FromNibbles(n);
  }

  lemma {:induction false} EscapeLetterUnique(c: CodeUnit, d: CodeUnit)
    requires EscapeLetter(c) == EscapeLetter(d) != 0
    ensures c == d
  {}

  /** The first escape step of two strings that print alike is the same step. */
  lemma {:induction false} HeadUnique(s: Text, t: Text, x: Text, y: Text)
    requires s != [] && t != [] && Head(s) + x == Head(t) + y
    ensures HeadSize(s) == HeadSize(t) && s[..HeadSize(s)] == t[..HeadSize(s)] && x == y
  {
    var h, k := Head(s), Head(t);
    var z := h + x;
    assert z[0] == h[0] == k[0];
    if h[0] == BACKSLASH {
      assert z[1] == h[1] == k[1];
      if h[1] == 0x75 {
        assert h == z[..6] && k == z[..6];
        UnicodeEscapeUnique(s[0], t[0]);
      } else {
        EscapeLetterUnique(s[0], t[0]);
        assert h == z[..2] && k == z[..2];
      }
    } else if HeadSize(s) == 2 {
      assert h == z[..2] && k == z[..2];
    } else {
      assert h == z[..1] && k == z[..1];
    }
    assert x == z[|h|..] && y == z[|k|..];
  }

  lemma {:induction false} EscapeUnique(s: Text, t: Text, x: Text, y: Text)
    requires Escape(s) + [QUOTE] + x == Escape(t) + [QUOTE] + y
    ensures s == t && x == y
    decreases |s|
  {
    hide Head; hide HeadSize;
    var z := Escape(s) + [QUOTE] + x;
    if s == [] || t == [] {
      assert z[0] == QUOTE;
      assert s == [] && t == [];
      assert x == z[1..] && y == z[1..];
    } else {
      var s', t' := s[HeadSize(s)..], t[HeadSize(t)..];
      assert z == Head(s) + (Escape(s') + [QUOTE] + x);
      assert z == Head(t) + (Escape(t') + [QUOTE] + y);
      HeadUnique(s, t, Escape(s') + [QUOTE] + x, Escape(t') + [QUOTE] + y);
      EscapeUnique(s', t', x, y);
      assert s == s[..HeadSize(s)] + s' && t == t[..HeadSize(t)] + t';
    }
  }

  lemma {:induction false} QuoteUnique(s: Text, t: Text, x: Text, y: Text)
    requires Quote(s) + x == Quote(t) + y
    ensures s == t && x == y
  {
    var z := Quote(s) + x;
    assert z[1..] == Escape(s) + [QUOTE] + x;
    assert z[1..] == Escape(t) + [QUOTE] + y;
    EscapeUnique(s, t, x, y);
  }

  // ----- values are uniquely readable -----

  /** What may follow a value inside a document. */
  predicate Stop(x: Text) {
    x == [] || x[0] == COMMA || x[0] == RBRACKET || x[0] == RBRACE
  }

  function NumberPrefix(z: Text): nat {
    if z != [] && NumberUnit(z[0]) then 1 + NumberPrefix(z[1..]) else 0
  }

  /** A number ends where the first other unit stands. */
  lemma {:induction false} NumberEnds(a: Text, x: Text)
    requires (forall i :: 0 <= i < |a| ==> NumberUnit(a[i])) && Stop(x)
    ensures NumberPrefix(a + x) == |a|
  {
    if a == [] {
      assert a + x == x;
    } else {
      assert (a + x)[0] == a[0] && (a + x)[1..] == a[1..] + x;
      NumberEnds(a[1..], x);
    }
  }

  lemma {:induction false} NumberUnique(a: Text, b: Text, x: Text, y: Text)
    requires (forall i :: 0 <= i < |a| ==> NumberUnit(a[i])) && (forall i :: 0 <= i < |b| ==> NumberUnit(b[i]))
    requires a + x == b + y && Stop(x) && Stop(y)
    ensures a == b && x == y
  {
    var z := a + x;
    NumberEnds(a, x);
    NumberEnds(b, y);
    assert a == z[..|a|] && b == z[..|b|] && x == z[|a|..] && y == z[|b|..];
  }

  /** The first unit of a print tells the kind of value. */
  function FirstUnit(v: Json): CodeUnit
    requires v.Num? ==> v.token != []
  {
    match v
    case Null | Opaque => 0x6E
    case Bool(b) => if b then 0x74 else 0x66
    case Num(token) => token[0]
    case Str(_) => QUOTE
    case Arr(_) => LBRACKET
    case Obj(_) => LBRACE
  }

  lemma {:induction false} PrintStarts(v: Json)
    requires Valid(v)
    ensures Print(v) != [] && Print(v)[0] == FirstUnit(v)
  {}

  lemma {:induction false} PrintUnique(a: Json, b: Json, x: Text, y: Text)
    requires Valid(a) && Valid(b)
    requires Print(a) + x == Print(b) + y && Stop(x) && Stop(y)
    ensures Denote(a) == Denote(b) && x == y
    decreases a, 3
  {
    hide PrintItems; hide PrintEntries; hide Escape; hide Sort;
    var z := Print(a) + x;
    PrintStarts(a);
    PrintStarts(b);
    assert z[0] == FirstUnit(a) == FirstUnit(b);
    match a {
      case Null | Opaque => assert x == z[4..] && y == z[4..];
      case Bool(p) =>
        var n := if p then 4 else 5;
        assert x == z[n..] && y == z[n..];
      case Num(token) => NumberUnique(token, b.token, x, y);
      case Str(s) => QuoteUnique(s, b.s, x, y);
      case Arr(items) =>
        assert z[1..] == PrintItems(a, items) + [RBRACKET] + x;
        assert z[1..] == PrintItems(b, b.items) + [RBRACKET] + y;
        ItemsUnique(a, items, b, b.items, x, y);
      case Obj(entries) =>
        ObjectUnique(a, b, x, y);
    }
  }

  /** The text after the first item of an array: the bracket, or a comma and the other items. */
  function AfterItem(whole: Json, items: seq<Json>, x: Text): Text
    requires items != [] && forall i :: 0 <= i < |items| ==> items[i] < whole
  {
    if |items| == 1 then [RBRACKET] + x else [COMMA] + (PrintItems(whole, items[1..]) + [RBRACKET] + x)
  }

  lemma {:induction false} ItemsSplit(whole: Json, items: seq<Json>, x: Text)
    requires items != [] && forall i :: 0 <= i < |items| ==> items[i] < whole
    ensures PrintItems(whole, items) + [RBRACKET] + x == Print(items[0]) + AfterItem(whole, items, x)
  {}

  lemma {:induction false} ItemsUnique(wa: Json, a: seq<Json>, wb: Json, b: seq<Json>, x: Text, y: Text)
    requires forall i :: 0 <= i < |a| ==> a[i] < wa && Valid(a[i])
    requires forall i :: 0 <= i < |b| ==> b[i] < wb && Valid(b[i])
    requires PrintItems(wa, a) + [RBRACKET] + x == PrintItems(wb, b) + [RBRACKET] + y
    ensures |a| == |b| && x == y && forall i :: 0 <= i < |a| ==> Denote(a[i]) == Denote(b[i])
    decreases wa, 0, |a|
  {
    hide Print; hide Denote;
    var z := PrintItems(wa, a) + [RBRACKET] + x;
    if a != [] { ItemsSplit(wa, a, x); PrintStarts(a[0]); }
    if b != [] { ItemsSplit(wb, b, y); PrintStarts(b[0]); }
    if a == [] || b == [] {
      assert z[0] == RBRACKET;
      assert a == [] && b == [];
      assert x == z[1..] && y == z[1..];
    } else {
      var p, q := AfterItem(wa, a, x), AfterItem(wb, b, y);
      PrintUnique(a[0], b[0], p, q);
      assert p[0] == q[0];
      assert x == p[1..] || |a| > 1;
      assert y == q[1..] || |b| > 1;
      if |a| > 1 {
        assert p[1..] == PrintItems(wa, a[1..]) + [RBRACKET] + x;
        assert q[1..] == PrintItems(wb, b[1..]) + [RBRACKET] + y;
        ItemsUnique(wa, a[1..], wb, b[1..], x, y);
        forall i | 0 <= i < |a| ensures Denote(a[i]) == Denote(b[i]) {
          if i > 0 { assert a[i] == a[1..][i - 1] && b[i] == b[1..][i - 1]; }
        }
      }
    }
  }

  function AfterEntry(whole: Json, es: seq<Entry>, x: Text): Text
    requires es != [] && forall e :: e in es ==> e.value < whole
  {
    if |es| == 1 then [RBRACE] + x else [COMMA] + (PrintEntries(whole, es[1..]) + [RBRACE] + x)
  }

  lemma {:induction false} Assoc(a: Text, b: Text, c: Text)
    ensures (a + b) + c == a + (b + c)
  {}

  lemma {:induction false} Regroup(q: Text, c: Text, p: Text, rest: Text)
    ensures (q + c + p) + rest == q + (c + (p + rest))
  {
    Assoc(q + c, p, rest);
    Assoc(q, c, p + rest);
  }

  lemma {:induction false} EntriesSplit(whole: Json, es: seq<Entry>, x: Text)
    requires es != [] && forall e :: e in es ==> e.value < whole
    ensures PrintEntries(whole, es) + [RBRACE] + x
         == Quote(es[0].key) + ([COLON] + (Print(es[0].value) + AfterEntry(whole, es, x)))
  {
    var first := PrintEntry(whole, es[0]);
    if |es| == 1 {
      Assoc(first, [RBRACE], x);
    } else {
      var r := PrintEntries(whole, es[1..]);
      assert PrintEntries(whole, es) == first + [COMMA] + r;
      hide *;
      Assoc(first + [COMMA], r, [RBRACE]);
      Assoc(first + [COMMA], r + [RBRACE], x);
      Assoc(first, [COMMA], r + [RBRACE] + x);
    }
    assert PrintEntries(whole, es) + [RBRACE] + x == first + AfterEntry(whole, es, x);
    Regroup(Quote(es[0].key), [COLON], Print(es[0].value), AfterEntry(whole, es, x));
  }

  lemma {:induction false} EntriesUnique(wa: Json, a: seq<Entry>, wb: Json, b: seq<Entry>, x: Text, y: Text)
    requires forall e :: e in a ==> e.value < wa && Valid(e.value)
    requires forall e :: e in b ==> e.value < wb && Valid(e.value)
    requires PrintEntries(wa, a) + [RBRACE] + x == PrintEntries(wb, b) + [RBRACE] + y
    ensures |a| == |b| && x == y
    ensures forall i :: 0 <= i < |a| ==> a[i].key == b[i].key && Denote(a[i].value) == Denote(b[i].value)
    decreases wa, 0, |a|
  {
    hide Print; hide Denote; hide Escape; hide Valid;
    var z := PrintEntries(wa, a) + [RBRACE] + x;
    if a != [] { EntriesSplit(wa, a, x); }
    if b != [] { EntriesSplit(wb, b, y); }
    if a == [] || b == [] {
      assert z[0] == RBRACE;
      assert a == [] && b == [];
      assert x == z[1..] && y == z[1..];
    } else {
      var p, q := AfterEntry(wa, a, x), AfterEntry(wb, b, y);
      QuoteUnique(a[0].key, b[0].key, [COLON] + (Print(a[0].value) + p), [COLON] + (Print(b[0].value) + q));
      assert ([COLON] + (Print(a[0].value) + p))[1..] == Print(a[0].value) + p;
      assert ([COLON] + (Print(b[0].value) + q))[1..] == Print(b[0].value) + q;
      PrintUnique(a[0].value, b[0].value, p, q);
      assert p[0] == q[0];
      assert x == p[1..] || |a| > 1;
      assert y == q[1..] || |b| > 1;
      if |a| > 1 {
        assert p[1..] == PrintEntries(wa, a[1..]) + [RBRACE] + x;
        assert q[1..] == PrintEntries(wb, b[1..]) + [RBRACE] + y;
        EntriesUnique(wa, a[1..], wb, b[1..], x, y);
        forall i | 0 <= i < |a| ensures a[i].key == b[i].key && Denote(a[i].value) == Denote(b[i].value) {
          if i > 0 { assert a[i] == a[1..][i - 1] && b[i] == b[1..][i - 1]; }
        }
      }
    }
  }

  lemma {:induction false} SameFields(a: seq<Entry>, b: seq<Entry>)
    requires |a| == |b|
    requires forall i :: 0 <= i < |a| ==> a[i].key == b[i].key && Denote(a[i].value) == Denote(b[i].value)
    ensures FieldMap(a) == FieldMap(b)
  {
    if a != [] { SameFields(a[1..], b[1..]); }
  }

  lemma {:induction false} ObjectUnique(a: Json, b: Json, x: Text, y: Text)
    requires a.Obj? && b.Obj? && Valid(a) && Valid(b)
    requires Print(a) + x == Print(b) + y
    ensures Denote(a) == Denote(b) && x == y
    decreases a, 2
  {
    hide PrintEntries; hide Sort;
    var p, q := Sort(a.entries), Sort(b.entries);
    assert forall e :: e in p ==> e in a.entries;
    assert forall e :: e in q ==> e in b.entries;
    var z := Print(a) + x;
    assert z[1..] == PrintEntries(a, p) + [RBRACE] + x;
    assert z[1..] == PrintEntries(b, q) + [RBRACE] + y;
    EntriesUnique(a, p, b, q, x, y);
    SameFields(p, q);
    SortSorts(a.entries);
    SortSorts(b.entries);
  }

  // ----- and equal values print alike -----

  /** Sorted entries are determined by the map they denote. */
  lemma {:induction false} SortedFields(a: seq<Entry>, b: seq<Entry>)
    requires Sorted(a) && Sorted(b) && FieldMap(a) == FieldMap(b)
    ensures |a| == |b|
    ensures forall i :: 0 <= i < |a| ==> a[i].key == b[i].key && Denote(a[i].value) == Denote(b[i].value)
    decreases |a|
  {
    hide Denote; hide Less; hide FieldMap;
    SortedDistinct(a);
    SortedDistinct(b);
    FieldMapEmpty(a);
    FieldMapEmpty(b);
    if a != [] && b != [] {
      HeadLeast(a, b);
      HeadLeast(b, a);
      FieldMapAt(a, a[0]);
      FieldMapAt(b, b[0]);
      TailMap(a);
      TailMap(b);
      LessAsymmetric(a[0].key, b[0].key);
      SortedFields(a[1..], b[1..]);
      forall i | 0 < i < |a| ensures a[i].key == b[i].key && Denote(a[i].value) == Denote(b[i].value) {
        assert a[i] == a[1..][i - 1] && b[i] == b[1..][i - 1];
      }
    }
  }

  lemma {:induction false} HeadLeast(a: seq<Entry>, b: seq<Entry>)
    requires Sorted(a) && Sorted(b) && a != [] && b != [] && FieldMap(a) == FieldMap(b)
    ensures a[0].key == b[0].key || Less(a[0].key, b[0].key)
  {
    assert b[0] in b;
    var e :| e in a && e.key == b[0].key;
  }

  lemma {:induction false} RemoveAdded<K, V>(m: map<K, V>, k: K, v: V)
    requires k !in m
    ensures m[k := v] - {k} == m
  {}

  lemma {:induction false} FieldMapEmpty(es: seq<Entry>)
    ensures FieldMap(es) == map[] <==> es == []
  {
    if es != [] { assert es[0].key in FieldMap(es); }
  }

  lemma {:induction false} TailMap(a: seq<Entry>)
    requires Sorted(a) && a != []
    ensures FieldMap(a[1..]) == FieldMap(a) - {a[0].key}
  {
    SortedDistinct(a);
    forall e | e in a[1..] ensures e.key != a[0].key {
      var i :| 0 <= i < |a[1..]| && a[1..][i] == e;
      assert a[i + 1] == e;
    }
    RemoveAdded(FieldMap(a[1..]), a[0].key, Denote(a[0].value));
  }

  lemma {:induction false} DenoteDetermines(a: Json, b: Json)
    requires Valid(a) && Valid(b) && Denote(a) == Denote(b)
    ensures Print(a) == Print(b)
    decreases a, 3
  {
    match a {
      case Null | Opaque | Bool(_) | Num(_) | Str(_) =>
      case Arr(items) =>
        forall i | 0 <= i < |items| ensures Denote(items[i]) == Denote(b.items[i]) {
          assert Denote(a).items[i] == Denote(b).items[i];
        }
        ItemsDetermined(a, items, b, b.items);
      case Obj(entries) =>
        SortSorts(entries);
        SortSorts(b.entries);
        var p, q := Sort(entries), Sort(b.entries);
        assert forall e :: e in p ==> e in entries;
        assert forall e :: e in q ==> e in b.entries;
        SortedFields(p, q);
        EntriesDetermined(a, p, b, q);
    }
  }

  lemma {:induction false} ItemsDetermined(wa: Json, a: seq<Json>, wb: Json, b: seq<Json>)
    requires |a| == |b|
    requires forall i :: 0 <= i < |a| ==> a[i] < wa && b[i] < wb && Valid(a[i]) && Valid(b[i])
    requires forall i :: 0 <= i < |a| ==> Denote(a[i]) == Denote(b[i])
    ensures PrintItems(wa, a) == PrintItems(wb, b)
    decreases wa, 0, |a|
  {
    hide Print; hide Denote;
    if a != [] {
      DenoteDetermines(a[0], b[0]);
      ItemsDetermined(wa, a[1..], wb, b[1..]);
    }
  }

  lemma {:induction false} EntriesDetermined(wa: Json, a: seq<Entry>, wb: Json, b: seq<Entry>)
    requires |a| == |b|
    requires forall e :: e in a ==> e.value < wa && Valid(e.value)
    requires forall e :: e in b ==> e.value < wb && Valid(e.value)
    requires forall i :: 0 <= i < |a| ==> a[i].key == b[i].key && Denote(a[i].value) == Denote(b[i].value)
    ensures PrintEntries(wa, a) == PrintEntries(wb, b)
    decreases wa, 0, |a|
  {
    hide Print; hide Denote; hide Quote;
    if a != [] {
      DenoteDetermines(a[0].value, b[0].value);
      EntriesDetermined(wa, a[1..], wb, b[1..]);
    }
  }

  /** Two values print to the same text exactly when they are equal up to key order at every depth. */
  lemma {:induction false} CanonicalPrint(a: Json, b: Json)
    requires Valid(a) && Valid(b)
    ensures Print(a) == Print(b) <==> Denote(a) == Denote(b)
  {
    if Print(a) == Print(b) {
      assert Print(a) + [] == Print(b) + [];
      PrintUnique(a, b, [], []);
    }
    if Denote(a) == Denote(b) { DenoteDetermines(a, b); }
  }
}
