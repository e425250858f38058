/** What the protobuf decoder promises: fields tile the buffer, decoding distributes over
    concatenation, and it undoes encoding, nested messages included. */
module ProtoRoundTrip {
  import opened Bytes
  import opened ProtoWire

  // ----- a read depends only on the bytes it covers -----

  /** The n bytes of `b` at `o` are the n bytes of `c` at `p`. */
  predicate Window(b: seq<byte>, o: nat, c: seq<byte>, p: nat, n: nat) {
    o + n <= |b| && p + n <= |c| && forall i :: o <= i < o + n ==> b[i] == c[i - o + p]
  }

  lemma {:induction false} VarintWindow(b: seq<byte>, o: nat, c: seq<byte>, p: nat, n: nat, at: nat, index: nat)
    requires Window(b, o, c, p, n) && o <= at && index <= 10
    requires var r := VarintFrom(b, at, index); r.Some? && r.value.next <= o + n
    ensures var r := VarintFrom(b, at, index).value;
      VarintFrom(c, at - o + p, index) == Some(VarintRead(r.value, r.next - o + p))
    decreases 10 - index
  {
    assert b[at + index] == c[at + index - o + p];
    if b[at + index] >= 0x80 {
      VarintWindow(b, o, c, p, n, at, index + 1);
    }
  }

  lemma {:induction false} SliceWindow(b: seq<byte>, o: nat, c: seq<byte>, p: nat, n: nat, i: nat, j: nat)
    requires Window(b, o, c, p, n) && o <= i <= j <= o + n
    ensures 0 <= i - o + p <= j - o + p <= |c| && b[i..j] == c[i - o + p..j - o + p]
  {}

  lemma {:induction false} ReadWireWindow(b: seq<byte>, o: nat, c: seq<byte>, p: nat, n: nat, at: nat)
    requires Window(b, o, c, p, n) && o <= at
    requires var r := ReadWire(b, at); r.Some? && r.value.next <= o + n
    ensures var r := ReadWire(b, at).value;
      ReadWire(c, at - o + p) == Some(WireRead(r.field, r.next - o + p))
  {
    hide LittleEndian; hide VarintFrom; hide Window;
    var key := Varint(b, at).value;
    var next := ReadWire(b, at).value.next;
    VarintWindow(b, o, c, p, n, at, 0);
    var wireType := key.value % 8;
    if wireType == 0 {
      VarintWindow(b, o, c, p, n, key.next, 0);
    } else if wireType == 1 {
      SliceWindow(b, o, c, p, n, key.next, next);
    } else if wireType == 2 {
      var length := Varint(b, key.next).value;
      VarintWindow(b, o, c, p, n, key.next, 0);
      SliceWindow(b, o, c, p, n, length.next, next);
    } else {
      SliceWindow(b, o, c, p, n, key.next, next);
    }
  }

  // ----- decoding distributes over concatenation -----

  /** Fields read inside a window read the same in front of anything. */
  lemma {:induction false} FieldsPrefix(t: Texts, a: seq<byte>, b: seq<byte>, at: nat, path: Path, depth: nat)
    requires at <= |a| && Fields(t, a, at, path, depth).Some?
    ensures Fields(t, a + b, at, path, depth)
         == PrependFields(Fields(t, a, at, path, depth).value, Fields(t, a + b, |a|, path, depth))
    decreases |a| - at
  {
    hide Fields; hide ReadWire; hide Build;
    if at == |a| {
      FieldsEnd(t, a, path, depth);
      PrependNoFields(Fields(t, a + b, |a|, path, depth));
    } else {
      FieldsStep(t, a, at, path, depth);
      FieldsStep(t, a + b, at, path, depth);
      var r := ReadWire(a, at).value;
      ReadWireWindow(a, 0, a + b, 0, |a|, at);
      FieldsPrefix(t, a, b, r.next, path, depth);
      var f, rest := Build(t, r.field, path, depth), Fields(t, a, r.next, path, depth).value;
      var tail := Fields(t, a + b, |a|, path, depth);
      if tail.Some? { assert [f] + (rest + tail.value) == ([f] + rest) + tail.value; }
    }
  }

  /** Fields read behind a prefix as they read alone. */
  lemma {:induction false} FieldsSuffix(t: Texts, a: seq<byte>, b: seq<byte>, at: nat, path: Path, depth: nat)
    requires at <= |b| && Fields(t, b, at, path, depth).Some?
    ensures Fields(t, a + b, |a| + at, path, depth) == Fields(t, b, at, path, depth)
    decreases |b| - at
  {
    hide Fields; hide ReadWire; hide Build;
    if at == |b| {
      FieldsEnd(t, b, path, depth);
      FieldsEnd(t, a + b, path, depth);
    } else {
      FieldsStep(t, b, at, path, depth);
      FieldsStep(t, a + b, |a| + at, path, depth);
      ReadWireWindow(b, 0, a + b, |a|, |b|, at);
      FieldsSuffix(t, a, b, ReadWire(b, at).value.next, path, depth);
    }
  }

  /** decode(a ++ b) is decode(a) ++ decode(b), up to the field limit. */
  lemma {:induction false} DecodeAppend(t: Texts, a: seq<byte>, b: seq<byte>, path: Path, depth: nat)
    requires Message(t, a, path, depth).Some? && Message(t, b, path, depth).Some?
    ensures
      var fs := Message(t, a, path, depth).value.fields + Message(t, b, path, depth).value.fields;
      Message(t, a + b, path, depth)
        == if |fs| > MAX_FIELDS then None else Some(ProtoMessage(path, |a| + |b|, fs))
  {
    hide Fields;
    FieldsPrefix(t, a, b, 0, path, depth);
    FieldsSuffix(t, a, b, 0, path, depth);
  }

  // ----- the fields tile the buffer -----

  /** The stretch of bytes each field was read from. */
  function Chunks(b: seq<byte>, at: nat): (r: seq<seq<byte>>)
    requires at <= |b|
    decreases |b| - at
  {
    if at == |b| then []
    else match ReadWire(b, at)
      case None => []
      case Some(r) => [b[at..r.next]] + Chunks(b, r.next)
  }

  lemma {:induction false} OneField(t: Texts, b: seq<byte>, at: nat, path: Path, depth: nat)
    requires at < |b| && ReadWire(b, at).Some?
    ensures var r := ReadWire(b, at).value;
      Fields(t, b[at..r.next], 0, path, depth) == Some([Build(t, r.field, path, depth)])
  {
    hide Fields; hide ReadWire; hide Build;
    var r := ReadWire(b, at).value;
    var chunk := b[at..r.next];
    ReadWireWindow(b, at, chunk, 0, r.next - at, at);
    FieldsStep(t, chunk, 0, path, depth);
    FieldsEnd(t, chunk, path, depth);
    var f := Build(t, r.field, path, depth);
    assert [f] + [] == [f];
  }

  lemma {:induction false} ChunksTile(t: Texts, b: seq<byte>, at: nat, path: Path, depth: nat)
    requires at <= |b| && Fields(t, b, at, path, depth).Some?
    ensures var cs, fs := Chunks(b, at), Fields(t, b, at, path, depth).value;
      && Concat(cs) == b[at..] && |cs| == |fs|
      && forall i :: 0 <= i < |cs| ==> cs[i] != [] && Fields(t, cs[i], 0, path, depth) == Some([fs[i]])
    decreases |b| - at
  {
    hide Fields; hide ReadWire; hide Build;
    if at == |b| {
      FieldsEnd(t, b, path, depth);
    } else {
      FieldsStep(t, b, at, path, depth);
      OneField(t, b, at, path, depth);
      var r := ReadWire(b, at).value;
      ChunksTile(t, b, r.next, path, depth);
      assert b[at..r.next] + b[r.next..] == b[at..];
    }
  }

  /** The chunks are messages of one field each. */
  predicate Tiles(t: Texts, cs: seq<seq<byte>>, path: Path, depth: nat) {
    && 1 <= |cs| <= MAX_FIELDS
    && forall i :: 0 <= i < |cs| ==>
         var m := Message(t, cs[i], path, depth); m.Some? && |m.value.fields| == 1
  }

  lemma {:induction false} TilesDecode(t: Texts, cs: seq<seq<byte>>, path: Path, depth: nat)
    requires Tiles(t, cs, path, depth)
    ensures var m := Message(t, Concat(cs), path, depth); m.Some? && |m.value.fields| == |cs|
    decreases |cs|
  {
    hide Message;
    if |cs| == 1 {
      assert cs[1..] == [] && cs[0] + [] == cs[0];
      assert Concat(cs) == cs[0];
    } else {
      forall i | 0 <= i < |cs[1..]|
        ensures var m := Message(t, cs[1..][i], path, depth); m.Some? && |m.value.fields| == 1
      {
        assert cs[1..][i] == cs[i + 1];
      }
      TilesDecode(t, cs[1..], path, depth);
      DecodeAppend(t, cs[0], Concat(cs[1..]), path, depth);
    }
  }

  /** A buffer decodes exactly when it is a run of one to 2000 single-field messages. */
  lemma {:induction false} DecodesIffTiled(t: Texts, b: seq<byte>, path: Path, depth: nat)
    ensures Message(t, b, path, depth).Some? <==> exists cs :: Tiles(t, cs, path, depth) && Concat(cs) == b
  {
    if Message(t, b, path, depth).Some? {
      ChunksTile(t, b, 0, path, depth);
      var cs := Chunks(b, 0);
      assert b[0..] == b;
      assert Tiles(t, cs, path, depth) && Concat(cs) == b;
    }
    if cs :| Tiles(t, cs, path, depth) && Concat(cs) == b {
      TilesDecode(t, cs, path, depth);
    }
  }

  // ----- the encoder -----

  function EncodeVarint(n: nat): (r: seq<byte>)
    ensures r != []
  {
    if n < 0x80 then [n as byte] else [(n % 0x80 + 0x80) as byte] + EncodeVarint(n / 0x80)
  }

  function Bytes256(n: nat, k: nat): (r: seq<byte>)
    ensures |r| == k
    decreases k
  {
    if k == 0 then [] else [(n % 0x100) as byte] + Bytes256(n / 0x100, k - 1)
  }

  /** Keys and lengths are safe integers, scalars fit ten groups, fixed numbers fit their width. */
  predicate ValidWire(w: WireField) {
    && w.number >= 1 && 8 * w.number + w.WireType() <= MAX_SAFE_INTEGER
    && match w
       case Scalar(_, v) => v < Pow2(70)
       case Fixed64(_, v) => v < Pow2(64)
       case Delimited(_, bytes) => |bytes| <= MAX_SAFE_INTEGER
       case Fixed32(_, v) => v < Pow2(32)
  }

  function EncodeBody(w: WireField): seq<byte> {
    match w
    case Scalar(_, v) => EncodeVarint(v)
    case Fixed64(_, v) => Bytes256(v, 8)
    case Delimited(_, bytes) => EncodeVarint(|bytes|) + bytes
    case Fixed32(_, v) => Bytes256(v, 4)
  }

  function EncodeWire(w: WireField): (r: seq<byte>)
    ensures r != []
  {
    EncodeVarint(8 * w.number + w.WireType()) + EncodeBody(w)
  }

  function EncodeAll(ws: seq<WireField>): seq<byte> {
    if ws == [] then [] else EncodeWire(ws[0]) + EncodeAll(ws[1..])
  }

  function BuildAll(t: Texts, ws: seq<WireField>, path: Path, depth: nat): (r: seq<ProtoField>)
    ensures |r| == |ws|
    ensures forall i :: 0 <= i < |ws| ==> r[i] == Build(t, ws[i], path, depth)
  {
    if ws == [] then [] else [Build(t, ws[0], path, depth)] + BuildAll(t, ws[1..], path, depth)
  }

  // ----- decoding undoes encoding -----

  lemma {:induction false} VarintUndoes(n: nat, b: seq<byte>, at: nat, index: nat)
    requires index < 10 && n < Pow2(7 * (10 - index))
    requires Window(EncodeVarint(n), 0, b, at + index, |EncodeVarint(n)|)
    ensures VarintFrom(b, at, index) == Some(VarintRead(n, at + index + |EncodeVarint(n)|))
    decreases 10 - index
  {
    var e := EncodeVarint(n);
    assert b[at + index] == e[0];
    if n >= 0x80 {
      var e' := EncodeVarint(n / 0x80);
      assert e == [e[0]] + e';
      forall i | 0 <= i < |e'| ensures e'[i] == b[i + (at + index + 1)] { assert e[i + 1] == e'[i]; }
      Pow2Seven(7 * (9 - index));
      assert Pow2(0) == 1;
      hide Pow2;
      assert 7 * (10 - index) == 7 * (9 - index) + 7;
      assert n / 0x80 < Pow2(7 * (9 - index));
      VarintUndoes(n / 0x80, b, at, index + 1);
    }
  }

  lemma {:induction false} LittleEndianUndoes(n: nat, k: nat)
    requires n < Pow2(8 * k)
    ensures LittleEndian(Bytes256(n, k)) == n
    decreases k
  {
    if k > 0 {
      Pow2Eight(8 * (k - 1));
      assert 8 * k == 8 * (k - 1) + 8;
      LittleEndianUndoes(n / 0x100, k - 1);
    }
  }

  lemma {:induction false} Pow2Eight(k: nat)
    ensures Pow2(k + 8) == 0x100 * Pow2(k)
  {
    Pow2Seven(k);
  }

  lemma {:induction false} SafeFits(n: nat)
    requires n <= MAX_SAFE_INTEGER
    ensures n < Pow2(70)
  {
    Pow2Seven(0);
    Pow2Seven(7);
    Pow2Seven(14);
    Pow2Seven(21);
    Pow2Seven(28);
    Pow2Seven(35);
    Pow2Seven(42);
    Pow2Seven(49);
    Pow2Seven(56);
    Pow2Seven(63);
  }

  lemma {:induction false} VarintAt(n: nat, b: seq<byte>, at: nat, rest: seq<byte>)
    requires n < Pow2(70) && at <= |b| && b[at..] == EncodeVarint(n) + rest
    ensures Varint(b, at) == Some(VarintRead(n, at + |EncodeVarint(n)|))
  {
    var e := EncodeVarint(n);
    forall i | 0 <= i < |e| ensures e[i] == b[i + at] { assert b[at..][i] == e[i]; }
    VarintUndoes(n, b, at, 0);
  }

  /** The value of a field, read from where it starts. */
  lemma {:induction false} ValueUndoes(w: WireField, b: seq<byte>, at: nat)
    requires ValidWire(w) && at <= |b| && b[at..] == EncodeBody(w)
    ensures ReadValue(b, at, w.number, w.WireType()) == Some(WireRead(w, |b|))
  {
    hide EncodeVarint; hide VarintFrom; hide Bytes256; hide LittleEndian; hide Pow2;
    var body := EncodeBody(w);
    match w {
      case Scalar(_, v) =>
        assert body == body + [];
        VarintAt(v, b, at, []);
      case Fixed64(_, v) =>
        assert b[at..at + 8] == body;
        LittleEndianUndoes(v, 8);
      case Fixed32(_, v) =>
        assert b[at..at + 4] == body;
        LittleEndianUndoes(v, 4);
      case Delimited(_, bytes) =>
        SafeFits(|bytes|);
        VarintAt(|bytes|, b, at, bytes);
        assert b[at + |EncodeVarint(|bytes|)|..|b|] == bytes;
    }
  }

  lemma {:induction false} WireUndoes(w: WireField)
    requires ValidWire(w)
    ensures ReadWire(EncodeWire(w), 0) == Some(WireRead(w, |EncodeWire(w)|))
  {
    hide EncodeVarint; hide VarintFrom; hide ReadValue; hide EncodeBody;
    var key := 8 * w.number + w.WireType();
    var e, body := EncodeVarint(key), EncodeBody(w);
    var b := EncodeWire(w);
    assert b[0..] == e + body;
    SafeFits(key);
    VarintAt(key, b, 0, body);
    assert b[|e|..] == body;
    assert key / 8 == w.number && key % 8 == w.WireType();
    ValueUndoes(w, b, |e|);
  }

  lemma {:induction false} FieldsUndo(t: Texts, ws: seq<WireField>, path: Path, depth: nat)
    requires forall i :: 0 <= i < |ws| ==> ValidWire(ws[i])
    ensures Fields(t, EncodeAll(ws), 0, path, depth) == Some(BuildAll(t, ws, path, depth))
    decreases |ws|
  {
    hide Fields; hide ReadWire; hide Build; hide EncodeWire;
    if ws == [] {
      FieldsEnd(t, [], path, depth);
    } else {
      var e, rest := EncodeWire(ws[0]), EncodeAll(ws[1..]);
      WireUndoes(ws[0]);
      assert e[0..|e|] == e;
      OneField(t, e, 0, path, depth);
      FieldsUndo(t, ws[1..], path, depth);
      FieldsPrefix(t, e, rest, 0, path, depth);
      FieldsSuffix(t, e, rest, 0, path, depth);
    }
  }

  /** Decoding undoes encoding, for every list of fields the limits admit, and only for those. */
  lemma {:induction false} RoundTrip(t: Texts, ws: seq<WireField>, path: Path, depth: nat)
    requires forall i :: 0 <= i < |ws| ==> ValidWire(ws[i])
    ensures Message(t, EncodeAll(ws), path, depth)
         == if 1 <= |ws| <= 2000 && depth <= 8
            then Some(ProtoMessage(path, |EncodeAll(ws)|, BuildAll(t, ws, path, depth))) else None
  {
    FieldsUndo(t, ws, path, depth);
    hide Fields;
  }

  // ----- hexadecimal text and packed varints -----

  function HexChar(d: nat, upper: bool): byte
    requires d < 16
  {
    if d < 10 then (0x30 + d) as byte else if upper then (0x41 + d - 10) as byte else (0x61 + d - 10) as byte
  }

  /** Two hexadecimal digits a byte, the higher one first. */
  function HexText(bs: seq<byte>, upper: bool): (r: seq<byte>)
    ensures |r| == 2 * |bs|
  {
    if bs == [] then []
    else [HexChar(bs[0] as int / 16, upper), HexChar(bs[0] as int % 16, upper)] + HexText(bs[1..], upper)
  }

  lemma {:induction false} HexDigitsUndo(bs: seq<byte>, upper: bool)
    ensures var text := HexText(bs, upper);
      (forall i :: 0 <= i < |text| ==> HexDigit(text[i]).Some?) && FromHex(text) == bs
  {
    if bs != [] {
      HexDigitsUndo(bs[1..], upper);
      var text := HexText(bs, upper);
      assert text[2..] == HexText(bs[1..], upper);
      assert forall i :: 2 <= i < |text| ==> text[i] == text[2..][i - 2];
      assert bs == [bs[0]] + bs[1..];
    }
  }

  /** Hexadecimal text of eight bytes or more gives back the bytes; of fewer, nothing. */
  lemma {:induction false} HexUndoes(bs: seq<byte>, upper: bool)
    ensures HexBytes(HexText(bs, upper)) == if |bs| >= 8 then Some(bs) else None
  {
    HexDigitsUndo(bs, upper);
    hide HexText; hide FromHex; hide HexDigit;
  }

  /** Text is taken as hexadecimal exactly when it has that form and at least sixteen digits. */
  lemma {:induction false} HexIff(b: seq<byte>)
    ensures HexBytes(b).Some? <==> |b| >= 16 && |b| % 2 == 0 && forall i :: 0 <= i < |b| ==> IsHexChar(b[i])
  {
    forall i | 0 <= i < |b| ensures HexDigit(b[i]).Some? <==> IsHexChar(b[i]) { HexCharIff(b[i]); }
    hide HexDigit; hide IsHexChar;
  }

  predicate IsHexChar(c: byte) {
    exists d: nat, upper :: d < 16 && c == HexChar(d, upper)
  }

  lemma {:induction false} HexCharIff(c: byte)
    ensures HexDigit(c).Some? <==> IsHexChar(c)
  {
    if HexDigit(c).Some? {
      var d := HexDigit(c).value;
      assert c == HexChar(d, false) || c == HexChar(d, true);
    }
  }

  function EncodeVarints(ns: seq<nat>): seq<byte> {
    if ns == [] then [] else EncodeVarint(ns[0]) + EncodeVarints(ns[1..])
  }

  lemma {:induction false} PackedFromUndoes(ns: seq<nat>, b: seq<byte>, at: nat)
    requires (forall i :: 0 <= i < |ns| ==> ns[i] < Pow2(70)) && at <= |b| && b[at..] == EncodeVarints(ns)
    ensures PackedFrom(b, at)
         == if forall i :: 0 <= i < |ns| ==> ns[i] <= MAX_SAFE_INTEGER then Some(ns) else None
    decreases |ns|
  {
    hide Pow2; hide Varint; hide EncodeVarint;
    if ns != [] {
      var e, rest := EncodeVarint(ns[0]), EncodeVarints(ns[1..]);
      VarintAt(ns[0], b, at, rest);
      assert b[at + |e|..] == b[at..][|e|..] == rest;
      assert forall i :: 0 <= i < |ns[1..]| ==> ns[1..][i] == ns[i + 1];
      PackedFromUndoes(ns[1..], b, at + |e|);
      assert ns == [ns[0]] + ns[1..];
    }
  }

  /** Packed varints give back the numbers, exactly when there are some, all of them safe, in a buffer
      within the size limit. */
  lemma {:induction false} PackedUndoes(ns: seq<nat>)
    requires forall i :: 0 <= i < |ns| ==> ns[i] < Pow2(70)
    ensures Packed(EncodeVarints(ns)) ==
      if ns != [] && |EncodeVarints(ns)| <= 10_000 && forall i :: 0 <= i < |ns| ==> ns[i] <= MAX_SAFE_INTEGER
      then Some(ns) else None
  {
    hide PackedFrom; hide Pow2; hide EncodeVarint;
    var b := EncodeVarints(ns);
    assert b[0..] == b;
    PackedFromUndoes(ns, b, 0);
  }

  // ----- nested messages -----

  /** A message as its sender sees it: plain fields, and fields that hold messages, as bytes or as
      hexadecimal text, or packed numbers. */
  datatype Tree =
    | Leaf(w: WireField)
    | Node(number: nat, children: seq<Tree>)
    | HexNode(number: nat, children: seq<Tree>, upper: bool)
    | PackedNode(number: nat, ns: seq<nat>)

  function Wire(tree: Tree): (w: WireField) {
    match tree
    case Leaf(w) => w
    case Node(number, children) => Delimited(number, EncodeAll(Wires(children)))
    case HexNode(number, children, upper) => Delimited(number, HexText(EncodeAll(Wires(children)), upper))
    case PackedNode(number, ns) => Delimited(number, EncodeVarints(ns))
  }

  function Wires(ts: seq<Tree>): (r: seq<WireField>)
    ensures |r| == |ts| && forall i :: 0 <= i < |ts| ==> r[i] == Wire(ts[i])
  {
    if ts == [] then [] else [Wire(ts[0])] + Wires(ts[1..])
  }

  ghost predicate ValidTree(tree: Tree) {
    && ValidWire(Wire(tree))
    && (tree.Node? || tree.HexNode? ==>
          1 <= |tree.children| <= MAX_FIELDS && forall i :: 0 <= i < |tree.children| ==> ValidTree(tree.children[i]))
    && (tree.HexNode? ==> |EncodeAll(Wires(tree.children))| >= 8)
    && (tree.PackedNode? ==>
          && tree.ns != [] && |EncodeVarints(tree.ns)| <= 10_000
          && forall i :: 0 <= i < |tree.ns| ==> tree.ns[i] <= MAX_SAFE_INTEGER)
  }

  /** The tree's messages stay within the depth bound when it is a field at `depth`. */
  ghost predicate Fits(tree: Tree, depth: nat) {
    tree.Node? || tree.HexNode? ==>
      depth < 8 && forall i :: 0 <= i < |tree.children| ==> Fits(tree.children[i], depth + 1)
  }

  /** A number that JavaScript holds exactly, or its decimal text. */
  function Numeral(v: nat): Option<ProtoNumber> {
    Some(if v <= 9007199254740991 then Exact(v) else Decimal(v))
  }

  /** The decoded field says what the sender meant, nested messages included. */
  ghost predicate Matches(t: Texts, f: ProtoField, tree: Tree, path: Path)
    decreases tree
  {
    var w := Wire(tree);
    && f.number == w.number && f.path == path + [Number(w.number)]
    && match w
       case Scalar(_, v) =>
         f == ProtoField(f.path, f.number, 0, Numeral(v), None, None, None, None, None, None)
       case Fixed64(_, v) =>
         f == ProtoField(f.path, f.number, 1, Numeral(v), Some(8), None, None, None, None, None)
       case Fixed32(_, v) =>
         f == ProtoField(f.path, f.number, 5, Some(Exact(v)), Some(4), None, None, None, None, None)
       case Delimited(_, bytes) =>
         && f.wireType == 2 && f.value == None && f.byteLength == Some(|bytes|) && f.text == t(bytes)
         && match tree
            case Leaf(_) => true
            case Node(_, children) =>
              f.nested.Some? && MatchesAll(t, f.nested.value, children, f.path, |bytes|)
            case HexNode(_, children, _) =>
              && f.hex.Some? && 2 * f.hex.value.byteLength == |bytes| && f.hexByteLength == Some(f.hex.value.byteLength)
              && MatchesAll(t, f.hex.value, children, f.path + [Hex], |bytes| / 2)
            case PackedNode(_, ns) => f.packed == Some(ns)
  }

  ghost predicate MatchesAll(t: Texts, m: ProtoMessage, ts: seq<Tree>, path: Path, size: nat)
    decreases ts
  {
    && m.path == path && m.byteLength == size && |m.fields| == |ts|
    && forall i :: 0 <= i < |ts| ==> Matches(t, m.fields[i], ts[i], path)
  }

  lemma {:induction false} LeafMatches(t: Texts, w: WireField, path: Path, depth: nat)
    ensures Matches(t, Build(t, w, path, depth), Leaf(w), path)
  {
    hide Message; hide Packed; hide HexBytes;
  }

  /** What a delimited field shows of its bytes. */
  lemma {:induction false} DelimitedIs(t: Texts, number: nat, bytes: seq<byte>, path: Path, depth: nat)
    ensures var f, here := Build(t, Delimited(number, bytes), path, depth), path + [Number(number)];
      && f.number == number && f.path == here && f.wireType == 2 && f.value == None
      && f.byteLength == Some(|bytes|) && f.text == t(bytes) && f.packed == Packed(bytes)
      && f.nested == Message(t, bytes, here, depth + 1)
      && (HexBytes(bytes).Some? ==>
            && f.hex == Message(t, HexBytes(bytes).value, here + [Hex], depth + 1)
            && (f.hex.Some? ==> f.hexByteLength == Some(|HexBytes(bytes).value|)))
  {
    hide Message; hide Packed; hide HexBytes;
  }

  /** A message of trees decodes to them exactly when the depth bound admits them. */
  lemma {:induction false} ForestMatches(t: Texts, ts: seq<Tree>, path: Path, depth: nat)
    requires 1 <= |ts| <= MAX_FIELDS && forall i :: 0 <= i < |ts| ==> ValidTree(ts[i])
    ensures var b := EncodeAll(Wires(ts));
      var m := Message(t, b, path, depth);
      (m.Some? && MatchesAll(t, m.value, ts, path, |b|)) <==>
        depth <= 8 && forall i :: 0 <= i < |ts| ==> Fits(ts[i], depth)
    decreases ts, 0
  {
    hide Message; hide Build; hide EncodeAll; hide ValidWire; hide Wires; hide BuildAll; hide Matches; hide Fits;
    var ws := Wires(ts);
    forall i | 0 <= i < |ws| ensures ValidWire(ws[i]) { assert ValidTree(ts[i]); }
    RoundTrip(t, ws, path, depth);
    var fs := BuildAll(t, ws, path, depth);
    forall i | 0 <= i < |ws| ensures Matches(t, fs[i], ts[i], path) <==> Fits(ts[i], depth) {
      NestedRoundTrip(t, ts[i], path, depth);
    }
  }

  /** A field that holds messages comes back whole, as bytes or as hexadecimal text, exactly when the depth
      bound admits it; packed numbers come back whatever the depth. */
  lemma {:induction false} NestedRoundTrip(t: Texts, tree: Tree, path: Path, depth: nat)
    requires ValidTree(tree)
    ensures Matches(t, Build(t, Wire(tree), path, depth), tree, path) <==> Fits(tree, depth)
    decreases tree, 1
  {
    hide Message; hide Build; hide EncodeAll; hide ValidWire; hide Wires; hide BuildAll; hide HexText;
    hide EncodeVarints;
    hide MatchesAll; hide Packed; hide HexBytes;
    match tree {
      case Leaf(w) => LeafMatches(t, w, path, depth);
      case Node(number, children) =>
        DelimitedIs(t, number, EncodeAll(Wires(children)), path, depth);
        ForestMatches(t, children, path + [Number(number)], depth + 1);
      case HexNode(number, children, upper) =>
        var b := EncodeAll(Wires(children));
        DelimitedIs(t, number, HexText(b, upper), path, depth);
        HexUndoes(b, upper);
        ForestMatches(t, children, path + [Number(number)] + [Hex], depth + 1);
        SizeOf(t, b, path + [Number(number)] + [Hex], depth + 1);
      case PackedNode(number, ns) =>
        DelimitedIs(t, number, EncodeVarints(ns), path, depth);
        forall i | 0 <= i < |ns| ensures ns[i] < Pow2(70) { SafeFits(ns[i]); }
        PackedUndoes(ns);
    }
  }

  lemma {:induction false} SizeOf(t: Texts, b: seq<byte>, path: Path, depth: nat)
    ensures Message(t, b, path, depth).Some? ==> Message(t, b, path, depth).value.byteLength == |b|
  {
    hide Fields;
  }

  /** A whole message of trees. */
  lemma {:induction false} ForestRoundTrip(t: Texts, ts: seq<Tree>, path: Path)
    requires 1 <= |ts| <= MAX_FIELDS && forall i :: 0 <= i < |ts| ==> ValidTree(ts[i]) && Fits(ts[i], 0)
    ensures var b := EncodeAll(Wires(ts));
      var m := Message(t, b, path, 0); m.Some? && MatchesAll(t, m.value, ts, path, |b|)
  {
    hide Message; hide EncodeAll; hide Wires; hide ValidTree; hide Fits; hide MatchesAll;
    ForestMatches(t, ts, path, 0);
  }
}
