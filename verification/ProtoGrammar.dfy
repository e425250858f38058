/** Which bytes the protobuf decoder accepts: exactly the runs of one to 2000 fields, with varints of one
    to ten groups, canonical or not. */
module ProtoGrammar {
  import opened Bytes
  import opened ProtoWire
  import opened ProtoRoundTrip

  // ----- varints -----

  /** One to ten groups: all but the last have the high bit. */
  predicate IsVarint(g: seq<byte>) {
    1 <= |g| <= 10 && g[|g| - 1] < 0x80 && forall i :: 0 <= i < |g| - 1 ==> g[i] >= 0x80
  }

  /** Seven bits a group, the lowest first. */
  function Groups(g: seq<byte>): nat {
    if g == [] then 0 else g[0] as int % 0x80 + 0x80 * Groups(g[1..])
  }

  lemma {:induction false} VarintReads(b: seq<byte>, o: nat, index: nat)
    requires index <= 10 && VarintFrom(b, o, index).Some?
    ensures var r := VarintFrom(b, o, index).value;
      var g := b[o + index..r.next];
      && 1 <= |g| <= 10 - index && g[|g| - 1] < 0x80 && (forall i :: 0 <= i < |g| - 1 ==> g[i] >= 0x80)
      && r.value == Groups(g)
    decreases 10 - index
  {
    var r := VarintFrom(b, o, index).value;
    var g := b[o + index..r.next];
    if b[o + index] >= 0x80 {
      VarintReads(b, o, index + 1);
      assert g[1..] == b[o + index + 1..r.next];
    } else {
      assert g[1..] == [];
    }
  }

  lemma {:induction false} VarintIsRead(b: seq<byte>, o: nat, index: nat, n: nat)
    requires o + index < n <= |b| && n <= o + 10 && b[n - 1] < 0x80
    requires forall i :: o + index <= i < n - 1 ==> b[i] >= 0x80
    ensures VarintFrom(b, o, index) == Some(VarintRead(Groups(b[o + index..n]), n))
    decreases 10 - index
  {
    var g := b[o + index..n];
    if o + index < n - 1 {
      VarintIsRead(b, o, index + 1, n);
      assert g[1..] == b[o + index + 1..n];
    } else {
      assert g[1..] == [];
    }
  }

  /** A varint is read exactly from one to ten groups, and its value is theirs. */
  lemma {:induction false} VarintIff(b: seq<byte>, o: nat, v: nat, n: nat)
    ensures Varint(b, o) == Some(VarintRead(v, n)) <==> o < n <= |b| && IsVarint(b[o..n]) && v == Groups(b[o..n])
  {
    hide VarintFrom; hide Groups;
    if Varint(b, o).Some? { VarintReads(b, o, 0); }
    if o < n <= |b| && IsVarint(b[o..n]) {
      forall i | o <= i < n - 1 ensures b[i] >= 0x80 { assert b[o..n][i - o] >= 0x80; }
      assert b[o..n][|b[o..n]| - 1] == b[n - 1];
      VarintIsRead(b, o, 0, n);
    }
  }

  // ----- fields -----

  lemma {:induction false} BytesAgain(b: seq<byte>)
    ensures Bytes256(LittleEndian(b), |b|) == b
  {
    if b != [] {
      BytesAgain(b[1..]);
      var n := LittleEndian(b[1..]);
      assert LittleEndian(b) == b[0] as int + 0x100 * n;
      hide LittleEndian; hide Bytes256;
      FirstByte(b[0], n, |b| - 1);
      assert b == [b[0]] + b[1..];
    }
  }

  lemma {:induction false} FirstByte(low: byte, high: nat, k: nat)
    ensures Bytes256(low as int + 0x100 * high, k + 1) == [low] + Bytes256(high, k)
  {
    var n := low as int + 0x100 * high;
    assert n % 0x100 == low as int && n / 0x100 == high;
  }

  /** Some first bytes are a varint of value `v`, and `rest` follows. */
  predicate StartsWith(g: seq<byte>, v: nat, rest: seq<byte>) {
    exists i :: 0 <= i <= |g| && IsVarint(g[..i]) && Groups(g[..i]) == v && g[i..] == rest
  }

  /** The bytes of a value: groups, eight bytes, a length with as many bytes, or four bytes. */
  predicate IsValue(g: seq<byte>, w: WireField) {
    match w
    case Scalar(_, v) => IsVarint(g) && Groups(g) == v
    case Fixed64(_, v) => |g| == 8 && g == Bytes256(v, 8) && v < Pow2(64)
    case Delimited(_, bytes) => |bytes| <= 9007199254740991 && StartsWith(g, |bytes|, bytes)
    case Fixed32(_, v) => |g| == 4 && g == Bytes256(v, 4) && v < Pow2(32)
  }

  /** A key, at least 8 and a safe integer, of a field number and one of four wire types, then a value. */
  predicate IsField(g: seq<byte>, w: WireField) {
    exists i :: 0 <= i <= |g| && IsVarint(g[..i]) && w.number >= 1
                && Groups(g[..i]) == 8 * w.number + WireCode(w) <= 9007199254740991 && IsValue(g[i..], w)
  }

  function WireCode(w: WireField): nat {
    if w.Scalar? then 0 else if w.Fixed64? then 1 else if w.Delimited? then 2 else 5
  }

  lemma {:induction false} LittleEndianBound(b: seq<byte>)
    ensures LittleEndian(b) < Pow2(8 * |b|)
  {
    if b != [] {
      LittleEndianBound(b[1..]);
      Pow2Eight(8 * |b[1..]|);
    } else {
      assert Pow2(0) == 1;
    }
  }

  lemma {:induction false} FixedIff(g: seq<byte>, v: nat)
    ensures v == LittleEndian(g) <==> g == Bytes256(v, |g|) && v < Pow2(8 * |g|)
  {
    BytesAgain(g);
    LittleEndianBound(g);
    if g == Bytes256(v, |g|) && v < Pow2(8 * |g|) { LittleEndianUndoes(v, |g|); }
  }

  /** A varint and what follows it. */
  lemma {:induction false} StartsIff(b: seq<byte>, at: nat, v: nat, n: nat, rest: seq<byte>)
    requires at <= n <= |b|
    ensures StartsWith(b[at..n], v, rest) <==>
      Varint(b, at).Some? && Varint(b, at).value.value == v && Varint(b, at).value.next <= n
      && b[Varint(b, at).value.next..n] == rest
  {
    hide Varint; hide IsVarint; hide Groups;
    var g := b[at..n];
    if Varint(b, at).Some? && Varint(b, at).value.next <= n {
      var r := Varint(b, at).value;
      VarintIff(b, at, r.value, r.next);
      assert g[..r.next - at] == b[at..r.next] && g[r.next - at..] == b[r.next..n];
    }
    if StartsWith(g, v, rest) {
      var i :| 0 <= i <= |g| && IsVarint(g[..i]) && Groups(g[..i]) == v && g[i..] == rest;
      assert g[..i] == b[at..at + i] && g[i..] == b[at + i..n];
      assert i > 0 by { NotEmpty(g[..i]); }
      VarintIff(b, at, v, at + i);
    }
  }

  lemma {:induction false} NotEmpty(g: seq<byte>)
    requires IsVarint(g)
    ensures g != []
  {}

  /** A value is read exactly from the bytes of one. */
  lemma {:induction false} ValueIff(b: seq<byte>, at: nat, w: WireField, n: nat)
    ensures at <= |b| && ReadValue(b, at, w.number, WireCode(w)) == Some(WireRead(w, n))
      <==> at <= n <= |b| && IsValue(b[at..n], w)
  {
    hide Varint; hide IsVarint; hide Groups; hide LittleEndian; hide Bytes256; hide Pow2; hide StartsWith;
    match w {
      case Scalar(_, v) =>
        VarintIff(b, at, v, n);
        if at == n <= |b| { assert !IsVarint(b[at..n]) by { NoVarint(b[at..n]); } }
      case Fixed64(_, v) => if at + 8 <= |b| { FixedIff(b[at..at + 8], v); }
      case Fixed32(_, v) => if at + 4 <= |b| { FixedIff(b[at..at + 4], v); }
      case Delimited(_, bytes) => if at <= n <= |b| { StartsIff(b, at, |bytes|, n, bytes); }
    }
  }

  lemma {:induction false} NoVarint(g: seq<byte>)
    requires g == []
    ensures !IsVarint(g)
  {}

  /** A field is read exactly from the bytes of one. */
  lemma {:induction false} FieldIff(b: seq<byte>, o: nat, w: WireField, n: nat)
    ensures ReadWire(b, o) == Some(WireRead(w, n)) <==> o < n <= |b| && IsField(b[o..n], w)
  {
    hide Varint; hide IsVarint; hide Groups; hide ReadValue; hide IsValue; hide WireCode;
    var key := Varint(b, o);
    if ReadWire(b, o) == Some(WireRead(w, n)) {
      var at := key.value.next;
      VarintIff(b, o, key.value.value, at);
      ReadCode(b, at, key.value.value / 8, key.value.value % 8, w, n);
      ValueIff(b, at, w, n);
      var g := b[o..n];
      assert g[..at - o] == b[o..at] && g[at - o..] == b[at..n];
    }
    if o < n <= |b| && IsField(b[o..n], w) {
      var g := b[o..n];
      var i :| 0 <= i <= |g| && IsVarint(g[..i]) && w.number >= 1
               && Groups(g[..i]) == 8 * w.number + WireCode(w) <= 9007199254740991 && IsValue(g[i..], w);
      assert g[..i] == b[o..o + i] && g[i..] == b[o + i..n];
      NotEmpty(g[..i]);
      VarintIff(b, o, Groups(g[..i]), o + i);
      ValueIff(b, o + i, w, n);
      CodeSmall(w);
    }
  }

  lemma {:induction false} CodeSmall(w: WireField)
    ensures WireCode(w) < 8
  {}

  lemma {:induction false} ReadCode(b: seq<byte>, at: nat, number: nat, wireType: nat, w: WireField, n: nat)
    requires ReadValue(b, at, number, wireType) == Some(WireRead(w, n))
    ensures w.number == number && WireCode(w) == wireType
  {
    hide Varint; hide LittleEndian;
  }

  // ----- messages -----

  ghost predicate AnyField(g: seq<byte>) {
    exists w :: IsField(g, w)
  }

  lemma {:induction false} SingleIff(t: Texts, g: seq<byte>, path: Path, depth: nat)
    requires depth <= 8
    ensures Message(t, g, path, depth).Some? && |Message(t, g, path, depth).value.fields| == 1 <==> AnyField(g)
  {
    hide ReadWire; hide Build; hide IsField; hide Fields;
    assert g[0..] == g;
    if g != [] {
      FieldsStep(t, g, 0, path, depth);
      FieldsEnd(t, g, path, depth);
      if ReadWire(g, 0).Some? {
        var r := ReadWire(g, 0).value;
        FieldIff(g, 0, r.field, r.next);
        if r.next < |g| && Fields(t, g, r.next, path, depth).Some? { MoreFields(t, g, r.next, path, depth); }
        assert g[0..|g|] == g;
      }
    }
    if w :| IsField(g, w) {
      FieldNotEmpty(g, w);
      FieldIff(g, 0, w, |g|);
    }
  }

  lemma {:induction false} FieldNotEmpty(g: seq<byte>, w: WireField)
    requires IsField(g, w)
    ensures g != [] && g[0..|g|] == g
  {
    hide IsValue;
    var i :| 0 <= i <= |g| && IsVarint(g[..i]);
  }

  lemma {:induction false} MoreFields(t: Texts, b: seq<byte>, at: nat, path: Path, depth: nat)
    requires at < |b| && Fields(t, b, at, path, depth).Some?
    ensures |Fields(t, b, at, path, depth).value| >= 1
  {}

  /** A buffer decodes exactly when it is not too deep and a run of one to 2000 fields. */
  lemma {:induction false} DecodesIff(t: Texts, b: seq<byte>, path: Path, depth: nat)
    ensures Message(t, b, path, depth).Some? <==>
      depth <= 8 && exists cs ::
        1 <= |cs| <= 2000 && Concat(cs) == b && forall i :: 0 <= i < |cs| ==> AnyField(cs[i])
  {
    hide AnyField;
    DecodesIffTiled(t, b, path, depth);
    if depth <= 8 {
      forall g
        ensures Message(t, g, path, depth).Some? && |Message(t, g, path, depth).value.fields| == 1 <==> AnyField(g)
      {
        SingleIff(t, g, path, depth);
      }
      hide Message;
      if cs :| Tiles(t, cs, path, depth) && Concat(cs) == b {
        assert forall i :: 0 <= i < |cs| ==> AnyField(cs[i]);
      }
      if cs :| 1 <= |cs| <= 2000 && Concat(cs) == b && forall i :: 0 <= i < |cs| ==> AnyField(cs[i]) {
        assert Tiles(t, cs, path, depth);
      }
    }
  }

  // ----- packed varints -----

  /** One varint for each number, all of them safe integers. */
  ghost predicate IsPacked(b: seq<byte>, gs: seq<seq<byte>>, ns: seq<nat>) {
    && |gs| == |ns| && Concat(gs) == b
    && forall i :: 0 <= i < |gs| ==> IsVarint(gs[i]) && Groups(gs[i]) == ns[i] <= 9007199254740991
  }

  lemma {:induction false} PackedFromIff(b: seq<byte>, at: nat, ns: seq<nat>)
    requires at <= |b|
    ensures PackedFrom(b, at) == Some(ns) <==> exists gs :: IsPacked(b[at..], gs, ns)
    decreases |b| - at
  {
    hide Varint; hide IsVarint; hide Groups;
    if at == |b| {
      assert ns == [] ==> IsPacked(b[at..], [], ns);
      forall gs | IsPacked(b[at..], gs, ns) ensures ns == [] { NothingPacked(gs, ns); }
    } else {
      if PackedFrom(b, at) == Some(ns) {
        var r := Varint(b, at).value;
        VarintIff(b, at, r.value, r.next);
        PackedFromIff(b, r.next, ns[1..]);
        var gs :| IsPacked(b[r.next..], gs, ns[1..]);
        var all := [b[at..r.next]] + gs;
        assert all[1..] == gs && b[at..] == b[at..r.next] + b[r.next..];
        assert ns == [ns[0]] + ns[1..];
        assert IsPacked(b[at..], all, ns);
      }
      if gs :| IsPacked(b[at..], gs, ns) {
        assert gs != [];
        var next := at + |gs[0]|;
        assert b[at..] == gs[0] + Concat(gs[1..]);
        assert b[at..next] == gs[0] && b[next..] == Concat(gs[1..]);
        NotEmpty(gs[0]);
        VarintIff(b, at, ns[0], next);
        assert IsPacked(b[next..], gs[1..], ns[1..]);
        PackedFromIff(b, next, ns[1..]);
        assert [ns[0]] + ns[1..] == ns;
      }
    }
  }

  lemma {:induction false} NothingPacked(gs: seq<seq<byte>>, ns: seq<nat>)
    ensures IsPacked([], gs, ns) ==> ns == []
  {
    if gs != [] {
      assert Concat(gs) == gs[0] + Concat(gs[1..]);
      assert IsVarint(gs[0]) ==> gs[0] != [];
    }
  }

  /** Bytes are taken as packed varints exactly when they are 1 to 10000 bytes that are such varints. */
  lemma {:induction false} PackedIff(b: seq<byte>, ns: seq<nat>)
    ensures Packed(b) == Some(ns) <==> 1 <= |b| <= 10000 && exists gs :: IsPacked(b, gs, ns)
  {
    hide PackedFrom; hide IsPacked;
    PackedFromIff(b, 0, ns);
    assert b[0..] == b;
  }
}
