/** The schema-less protobuf decoder: varints, four wire types, and speculative decoding of
    length-delimited fields as nested messages, hex text and packed varints. */
module ProtoWire {
  import opened Bytes

  const MAX_SAFE_INTEGER: nat := 9007199254740991
  const MAX_DEPTH: nat := 8
  const MAX_FIELDS: nat := 2000

  // ----- varints -----

  datatype VarintRead = VarintRead(value: nat, next: nat)

  /** The varint groups from the index-th byte on; at most ten bytes are read. */
  function VarintFrom(b: seq<byte>, offset: nat, index: nat): (r: Option<VarintRead>)
    requires index <= 10
    ensures r.Some? ==> offset + index < r.value.next <= |b| && r.value.next <= offset + 10
    decreases 10 - index
  {
    if index == 10 || offset + index >= |b| then None
    else if b[offset + index] < 0x80 then Some(VarintRead(b[offset + index] as int, offset + index + 1))
    else match VarintFrom(b, offset, index + 1)
      case None => None
      case Some(r) => Some(VarintRead(b[offset + index] as int - 0x80 + 0x80 * r.value, r.next))
  }

  function Varint(b: seq<byte>, offset: nat): (r: Option<VarintRead>)
    ensures r.Some? ==> offset < r.value.next <= |b|
  {
    VarintFrom(b, offset, 0)
  }

  /** A value as it counts from group `index` on. */
  function Weighted(index: nat, value: nat): nat {
    Pow2(7 * index) * value
  }

  /** What is read, given `result` collected from the first `index` groups. */
  function Resume(b: seq<byte>, offset: nat, index: nat, result: nat): Option<VarintRead>
    requires index <= 10
  {
    match VarintFrom(b, offset, index)
    case None => None
    case Some(r) => Some(VarintRead(result + Weighted(index, r.value), r.next))
  }

  lemma {:induction false} Pow2Seven(k: nat)
    ensures Pow2(k + 7) == 0x80 * Pow2(k)
  {
    assert Pow2(k + 2) == 2 * Pow2(k + 1);
    assert Pow2(k + 4) == 2 * Pow2(k + 3);
    assert Pow2(k + 6) == 2 * Pow2(k + 5);
  }

  lemma {:induction false} Distribute(p: nat, low: nat, high: nat)
    ensures p * (low + 0x80 * high) == low * p + (0x80 * p) * high
  {}

  /** What one turn of the varint loop does to the meaning of its state. */
  lemma {:induction false} ResumeStep(b: seq<byte>, offset: nat, index: nat, result: nat)
    requires index <= 10
    ensures index == 10 || offset + index >= |b| ==> Resume(b, offset, index, result) == None
    ensures index < 10 && offset + index < |b| && b[offset + index] < 0x80 ==>
      Resume(b, offset, index, result)
        == Some(VarintRead(result + (b[offset + index] as int % 0x80) * Pow2(7 * index), offset + index + 1))
    ensures index < 10 && offset + index < |b| && b[offset + index] >= 0x80 ==>
      Resume(b, offset, index, result)
        == Resume(b, offset, index + 1, result + (b[offset + index] as int % 0x80) * Pow2(7 * index))
  {
    if index < 10 && offset + index < |b| {
      if b[offset + index] >= 0x80 {
        ResumeMore(b, offset, index, result);
      } else {
        ResumeLast(b, offset, index, result);
      }
    }
    hide Weighted;
  }

  lemma {:induction false} ResumeLast(b: seq<byte>, offset: nat, index: nat, result: nat)
    requires index < 10 && offset + index < |b| && b[offset + index] < 0x80
    ensures Resume(b, offset, index, result)
         == Some(VarintRead(result + (b[offset + index] as int % 0x80) * Pow2(7 * index), offset + index + 1))
  {
    hide Pow2;
    assert b[offset + index] as int % 0x80 == b[offset + index] as int;
    assert VarintFrom(b, offset, index) == Some(VarintRead(b[offset + index] as int, offset + index + 1));
  }

  lemma {:induction false} ResumeMore(b: seq<byte>, offset: nat, index: nat, result: nat)
    requires index < 10 && offset + index < |b| && b[offset + index] >= 0x80
    ensures Resume(b, offset, index, result)
         == Resume(b, offset, index + 1, result + (b[offset + index] as int - 0x80) * Pow2(7 * index))
  {
    hide VarintFrom; hide Pow2;
    var rest := VarintFrom(b, offset, index + 1);
    VarintStep(b, offset, index, rest);
    Pow2Seven(7 * index);
    if rest.Some? {
      Distribute(Pow2(7 * index), b[offset + index] as int - 0x80, rest.value.value);
    }
  }

  lemma {:induction false} VarintStep(b: seq<byte>, offset: nat, index: nat, rest: Option<VarintRead>)
    requires index < 10 && offset + index < |b| && b[offset + index] >= 0x80
    requires rest == VarintFrom(b, offset, index + 1)
    ensures VarintFrom(b, offset, index) ==
      if rest.None? then None
      else Some(VarintRead(b[offset + index] as int - 0x80 + 0x80 * rest.value.value, rest.value.next))
  {}

  /** The loop of `readProtoVarint`. The groups occupy disjoint bits, so `|=` adds. */
  method ReadProtoVarint(b: seq<byte>, offset: nat) returns (r: Option<VarintRead>)
    ensures r == Varint(b, offset)
  {
    hide VarintFrom;
    var result := 0;
    var shift := 0;
    var index := 0;
    ResumeFromStart(b, offset);
    hide Resume;
    assert Pow2(0) == 1;
    hide Pow2;
    while index < 10 && offset + index < |b|
      invariant 0 <= index <= 10
      invariant shift == 7 * index && 0 <= result < Pow2(shift)
      invariant Resume(b, offset, index, result) == Varint(b, offset)
    {
      ResumeStep(b, offset, index, result);
      var group := b[offset + index] as int % 0x80;
      GroupFits(result, group, shift);
      result := result + group * Pow2(shift);
      if b[offset + index] < 0x80 {
        return Some(VarintRead(result, offset + index + 1));
      }
      shift := shift + 7;
      index := index + 1;
    }
    ResumeStep(b, offset, index, result);
    return None;
  }

  lemma {:induction false} ResumeFromStart(b: seq<byte>, offset: nat)
    ensures Resume(b, offset, 0, 0) == Varint(b, offset)
  {
    hide VarintFrom;
    assert Pow2(0) == 1;
  }

  lemma {:induction false} GroupFits(result: nat, group: nat, shift: nat)
    requires result < Pow2(shift) && group < 0x80
    ensures result + group * Pow2(shift) < Pow2(shift + 7)
  {
    Pow2Seven(shift);
    assert group * Pow2(shift) <= 127 * Pow2(shift);
  }

  // ----- fixed-width numbers, hex text, packed varints -----

  function LittleEndian(b: seq<byte>): nat {
    if b == [] then 0 else b[0] as int + 0x100 * LittleEndian(b[1..])
  }

  function HexDigit(b: byte): (d: Option<nat>)
    ensures d.Some? ==> d.value < 16
  {
    if 0x30 <= b <= 0x39 then Some(b as int - 0x30)
    else if 0x61 <= b <= 0x66 then Some(b as int - 0x61 + 10)
    else if 0x41 <= b <= 0x46 then Some(b as int - 0x41 + 10)
    else None
  }

  /** Buffer.from(text, "hex") on text made of hex digits. */
  function FromHex(b: seq<byte>): (r: seq<byte>)
    requires |b| % 2 == 0 && forall i :: 0 <= i < |b| ==> HexDigit(b[i]).Some?
    ensures 2 * |r| == |b|
  {
    if b == [] then []
    else [(16 * HexDigit(b[0]).value + HexDigit(b[1]).value) as byte] + FromHex(b[2..])
  }

  function HexBytes(b: seq<byte>): (r: Option<seq<byte>>)
    ensures r.Some? ==> |b| >= 16 && 2 * |r.value| == |b|
  {
    if |b| < 16 || |b| % 2 != 0 || exists i :: 0 <= i < |b| && HexDigit(b[i]).None? then None
    else Some(FromHex(b))
  }

  method ProtoHexBytes(b: seq<byte>) returns (r: Option<seq<byte>>)
    ensures r == HexBytes(b)
  {
    if |b| < 16 || |b| % 2 != 0 {
      return None;
    }
    for i := 0 to |b|
      invariant forall j :: 0 <= j < i ==> HexDigit(b[j]).Some?
    {
      var isDigit := 0x30 <= b[i] <= 0x39;
      var isLowerHex := 0x61 <= b[i] <= 0x66;
      var isUpperHex := 0x41 <= b[i] <= 0x46;
      if !isDigit && !isLowerHex && !isUpperHex {
        assert HexDigit(b[i]).None?;
        return None;
      }
    }
    return Some(FromHex(b));
  }

  function PackedFrom(b: seq<byte>, offset: nat): Option<seq<nat>>
    requires offset <= |b|
    decreases |b| - offset
  {
    if offset == |b| then Some([])
    else match Varint(b, offset)
      case None => None
      case Some(r) =>
        if r.value > MAX_SAFE_INTEGER then None
        else match PackedFrom(b, r.next)
          case None => None
          case Some(rest) => Some([r.value] + rest)
  }

  function Packed(b: seq<byte>): Option<seq<nat>> {
    if |b| == 0 || |b| > 10_000 then None else PackedFrom(b, 0)
  }

  function PrependNats(xs: seq<nat>, r: Option<seq<nat>>): Option<seq<nat>> {
    match r
    case None => None
    case Some(ys) => Some(xs + ys)
  }

  lemma {:induction false} PrependNothing(r: Option<seq<nat>>)
    ensures PrependNats([], r) == r
  {
    if r.Some? { assert [] + r.value == r.value; }
  }

  method DecodePackedProtoVarints(b: seq<byte>) returns (r: Option<seq<nat>>)
    ensures r == Packed(b)
  {
    if |b| == 0 || |b| > 10_000 {
      return None;
    }
    var values: seq<nat> := [];
    var offset := 0;
    PrependNothing(PackedFrom(b, 0));
    while offset < |b|
      invariant 0 <= offset <= |b|
      invariant offset > 0 ==> values != []
      invariant PrependNats(values, PackedFrom(b, offset)) == PackedFrom(b, 0)
      decreases |b| - offset
    {
      var read := ReadProtoVarint(b, offset);
      if read.None? || read.value.value > MAX_SAFE_INTEGER {
        return None;
      }
      var rest := PackedFrom(b, read.value.next);
      if rest.Some? {
        assert values + ([read.value.value] + rest.value) == (values + [read.value.value]) + rest.value;
      }
      values := values + [read.value.value];
      offset := read.value.next;
    }
    assert values + [] == values;
    return if values == [] then None else Some(values);
  }

  // ----- one field on the wire -----

  datatype WireField =
    | Scalar(number: nat, value: nat)
    | Fixed64(number: nat, value: nat)
    | Delimited(number: nat, bytes: seq<byte>)
    | Fixed32(number: nat, value: nat)
  {
    function WireType(): nat {
      match this
      case Scalar(_, _) => 0
      case Fixed64(_, _) => 1
      case Delimited(_, _) => 2
      case Fixed32(_, _) => 5
    }

    function Payload(): seq<byte> {
      if Delimited? then bytes else []
    }
  }

  datatype WireRead = WireRead(field: WireField, next: nat)

  /** The field that starts at `offset`: its key, then its value. */
  function ReadWire(b: seq<byte>, offset: nat): (r: Option<WireRead>)
    ensures r.Some? ==> offset < r.value.next <= |b| && |r.value.field.Payload()| < r.value.next - offset
  {
    match Varint(b, offset)
    case None => None
    case Some(key) =>
      if key.value == 0 || key.value > MAX_SAFE_INTEGER || key.value / 8 == 0 then None
      else ReadValue(b, key.next, key.value / 8, key.value % 8)
  }

  function ReadValue(b: seq<byte>, at: nat, number: nat, wireType: nat): (r: Option<WireRead>)
    ensures r.Some? && at <= |b| ==> at <= r.value.next <= |b| && |r.value.field.Payload()| <= r.value.next - at
  {
    if wireType == 0 then
      match Varint(b, at)
      case None => None
      case Some(v) => Some(WireRead(Scalar(number, v.value), v.next))
    else if wireType == 1 then
      if at + 8 > |b| then None
      else Some(WireRead(Fixed64(number, LittleEndian(b[at..at + 8])), at + 8))
    else if wireType == 2 then
      match Varint(b, at)
      case None => None
      case Some(length) =>
        if length.value > MAX_SAFE_INTEGER || length.next + length.value > |b| then None
        else Some(WireRead(Delimited(number, b[length.next..length.next + length.value]), length.next + length.value))
    else if wireType == 5 then
      if at + 4 > |b| then None
      else Some(WireRead(Fixed32(number, LittleEndian(b[at..at + 4])), at + 4))
    else None
  }

  // ----- decoded messages -----

  /** A field path: the root label, then field numbers and hex marks. */
  datatype PathStep = Frame(index: nat) | Number(n: nat) | Hex

  type Path = seq<PathStep>

  /** A number up to MAX_SAFE_INTEGER, or its decimal text beyond. */
  datatype ProtoNumber = Exact(n: nat) | Decimal(n: nat)

  function ToNumber(n: nat): ProtoNumber {
    if n <= MAX_SAFE_INTEGER then Exact(n) else Decimal(n)
  }

  datatype ProtoField = ProtoField(
    path: Path, number: nat, wireType: nat,
    value: Option<ProtoNumber>, byteLength: Option<nat>, text: Option<string>,
    packed: Option<seq<nat>>, nested: Option<ProtoMessage>, hex: Option<ProtoMessage>, hexByteLength: Option<nat>)

  datatype ProtoMessage = ProtoMessage(path: Path, byteLength: nat, fields: seq<ProtoField>)

  /** `protoString`, the text heuristic, is taken as given. */
  type Texts = seq<byte> -> Option<string>

  function ScalarField(path: Path, w: WireField, byteLength: Option<nat>): ProtoField
    requires !w.Delimited?
  {
    var v := if w.Fixed32? then Exact(w.value) else ToNumber(w.value);
    ProtoField(path, w.number, w.WireType(), Some(v), byteLength, None, None, None, None, None)
  }

  /** The decoded form of a wire field; delimited bytes are read again one level down. */
  function Build(t: Texts, w: WireField, path: Path, depth: nat): (f: ProtoField)
    ensures f.number == w.number && f.wireType == w.WireType()
    decreases |w.Payload()|, 3
  {
    var here := path + [Number(w.number)];
    match w
    case Scalar(_, _) => ScalarField(here, w, None)
    case Fixed64(_, _) => ScalarField(here, w, Some(8))
    case Fixed32(_, _) => ScalarField(here, w, Some(4))
    case Delimited(number, bytes) => BuildDelimited(t, number, bytes, here, depth)
  }

  function BuildDelimited(t: Texts, number: nat, bytes: seq<byte>, here: Path, depth: nat): (f: ProtoField)
    ensures f.number == number && f.wireType == 2
    decreases |bytes|, 2
  {
    var hexBytes := HexBytes(bytes);
    var hex := if hexBytes.None? then None else Message(t, hexBytes.value, here + [Hex], depth + 1);
    ProtoField(here, number, 2, None, Some(|bytes|), t(bytes), Packed(bytes),
               Message(t, bytes, here, depth + 1), hex, if hex.None? then None else Some(|hexBytes.value|))
  }

  function Fields(t: Texts, b: seq<byte>, offset: nat, path: Path, depth: nat): (r: Option<seq<ProtoField>>)
    requires offset <= |b|
    ensures offset < |b| && r.Some? ==> r.value != []
    decreases |b|, 0, |b| - offset
  {
    if offset == |b| then Some([])
    else match ReadWire(b, offset)
      case None => None
      case Some(r) => PrependField(Build(t, r.field, path, depth), Fields(t, b, r.next, path, depth))
  }

  function PrependField(f: ProtoField, r: Option<seq<ProtoField>>): Option<seq<ProtoField>> {
    match r
    case None => None
    case Some(fs) => Some([f] + fs)
  }

  function Message(t: Texts, b: seq<byte>, path: Path, depth: nat): Option<ProtoMessage>
    decreases |b|, 1, 0
  {
    if |b| == 0 || depth > MAX_DEPTH then None
    else match Fields(t, b, 0, path, depth)
      case None => None
      case Some(fs) => if |fs| > MAX_FIELDS then None else Some(ProtoMessage(path, |b|, fs))
  }

  /** The loop of `decodeProtoMessage`. */
  method DecodeProtoMessage(t: Texts, b: seq<byte>, path: Path, depth: nat) returns (r: Option<ProtoMessage>)
    ensures r == Message(t, b, path, depth)
    decreases |b|, 2
  {
    if |b| == 0 || depth > MAX_DEPTH {
      return None;
    }
    if Fields(t, b, 0, path, depth).Some? { FieldsNonempty(t, b, path, depth); }
    var fields: seq<ProtoField> := [];
    var offset := 0;
    ghost var all := Fields(t, b, 0, path, depth);
    PrependNoFields(all);
    hide Fields; hide Build; hide ReadWire;
    while offset < |b|
      invariant 0 <= offset <= |b| && |fields| <= MAX_FIELDS
      invariant PrependFields(fields, Fields(t, b, offset, path, depth)) == all
      decreases |b| - offset
    {
      FieldsStep(t, b, offset, path, depth);
      var read := DecodeField(t, b, offset, path, depth);
      if read.None? {
        return None;
      }
      var (field, next) := read.value;
      PrependFieldsTwice(fields, field, Fields(t, b, next, path, depth));
      fields := fields + [field];
      offset := next;
      if |fields| > MAX_FIELDS {
        return None;
      }
    }
    FieldsEnd(t, b, path, depth);
    assert fields + [] == fields;
    return if fields == [] then None else Some(ProtoMessage(path, |b|, fields));
  }

  /** A field read, decoded, and where the next one starts. */
  function Decoded(t: Texts, read: Option<WireRead>, path: Path, depth: nat): Option<(ProtoField, nat)> {
    match read
    case None => None
    case Some(r) => Some((Build(t, r.field, path, depth), r.next))
  }

  /** The body of that loop: the key of a field, then its value. */
  method DecodeField(t: Texts, b: seq<byte>, offset: nat, path: Path, depth: nat)
    returns (r: Option<(ProtoField, nat)>)
    requires offset < |b|
    ensures r == Decoded(t, ReadWire(b, offset), path, depth)
    decreases |b|, 1
  {
    hide ReadValue; hide Build;
    var key := ReadProtoVarint(b, offset);
    if key.None? || key.value.value == 0 || key.value.value > MAX_SAFE_INTEGER {
      return None;
    }
    var number, wireType := key.value.value / 8, key.value.value % 8;
    if number <= 0 {
      return None;
    }
    r := DecodeValue(t, b, key.value.next, number, wireType, path, depth);
  }

  method DecodeValue(t: Texts, b: seq<byte>, offset: nat, number: nat, wireType: nat, path: Path, depth: nat)
    returns (r: Option<(ProtoField, nat)>)
    requires 0 < offset <= |b|
    ensures r == Decoded(t, ReadValue(b, offset, number, wireType), path, depth)
    decreases |b|, 0
  {
    hide Varint; hide BuildDelimited; hide LittleEndian; hide ToNumber; hide WireField.Payload;
    var at, here := offset, path + [Number(number)];
    if wireType == 0 {
      var value := ReadProtoVarint(b, at);
      if value.None? {
        return None;
      }
      return Some((ProtoField(here, number, wireType, Some(ToNumber(value.value.value)),
                              None, None, None, None, None, None),
                   value.value.next));
    } else if wireType == 1 {
      if at + 8 > |b| {
        return None;
      }
      var value := LittleEndian(b[at..at + 8]);
      return Some((ProtoField(here, number, wireType, Some(ToNumber(value)), Some(8), None, None, None, None, None),
                   at + 8));
    } else if wireType == 2 {
      var length := ReadProtoVarint(b, at);
      if length.None? || length.value.value > MAX_SAFE_INTEGER {
        return None;
      }
      at := length.value.next;
      var byteLength := length.value.value;
      if at + byteLength > |b| {
        return None;
      }
      var field := DecodeDelimited(t, number, b[at..at + byteLength], here, depth);
      return Some((field, at + byteLength));
    } else if wireType == 5 {
      if at + 4 > |b| {
        return None;
      }
      var value := LittleEndian(b[at..at + 4]);
      return Some((ProtoField(here, number, wireType, Some(Exact(value)), Some(4), None, None, None, None, None),
                   at + 4));
    } else {
      return None;
    }
  }

  method DecodeDelimited(t: Texts, number: nat, bytes: seq<byte>, here: Path, depth: nat) returns (f: ProtoField)
    ensures f == BuildDelimited(t, number, bytes, here, depth)
    decreases |bytes|, 3
  {
    hide HexBytes; hide Packed; hide Message;
    var nested := DecodeProtoMessage(t, bytes, here, depth + 1);
    var hexBytes := ProtoHexBytes(bytes);
    var hex := None;
    if hexBytes.Some? {
      hex := DecodeProtoMessage(t, hexBytes.value, here + [Hex], depth + 1);
    }
    var packed := DecodePackedProtoVarints(bytes);
    f := ProtoField(here, number, 2, None, Some(|bytes|), t(bytes), packed, nested, hex,
                    if hex.None? then None else Some(|hexBytes.value|));
  }

  function PrependFields(fs: seq<ProtoField>, r: Option<seq<ProtoField>>): Option<seq<ProtoField>> {
    match r
    case None => None
    case Some(gs) => Some(fs + gs)
  }

  lemma {:induction false} PrependNoFields(r: Option<seq<ProtoField>>)
    ensures PrependFields([], r) == r
  {
    if r.Some? { assert [] + r.value == r.value; }
  }

  lemma {:induction false} PrependFieldsTwice(fs: seq<ProtoField>, f: ProtoField, r: Option<seq<ProtoField>>)
    ensures PrependFields(fs, PrependField(f, r)) == PrependFields(fs + [f], r)
  {
    if r.Some? { assert fs + ([f] + r.value) == (fs + [f]) + r.value; }
  }

  lemma {:induction false} FieldsStep(t: Texts, b: seq<byte>, offset: nat, path: Path, depth: nat)
    requires offset < |b|
    ensures var w := ReadWire(b, offset);
      Fields(t, b, offset, path, depth) ==
        if w.None? then None
        else PrependField(Build(t, w.value.field, path, depth), Fields(t, b, w.value.next, path, depth))
  {
    hide ReadWire; hide Build;
  }

  lemma {:induction false} FieldsEnd(t: Texts, b: seq<byte>, path: Path, depth: nat)
    ensures Fields(t, b, |b|, path, depth) == Some([])
  {}

  lemma {:induction false} FieldsNonempty(t: Texts, b: seq<byte>, path: Path, depth: nat)
    requires b != [] && Fields(t, b, 0, path, depth).Some?
    ensures Fields(t, b, 0, path, depth).value != []
  {}
}
