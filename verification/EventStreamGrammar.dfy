/** Which buffers the event-stream decoder accepts: exactly the runs of framed messages, whose header
    blocks are runs of headers, but for a last header value that may break off. */
module EventStreamGrammar {
  import opened Bytes
  import opened EventStream
  import C = Checksum

  // ----- header blocks -----

  /** A last header of type 6, 7 or 9 with fewer value bytes than it announces. */
  datatype Torn = Torn(name: seq<byte>, code: byte, announced: nat, raw: seq<byte>) {
    predicate Valid() {
      && |name| < 0x100 && (code == 6 || code == 7 || code == 9)
      && announced < 0x1_0000 && (code == 9 ==> announced == 16) && |raw| < announced
    }

    function Encode(): seq<byte>
      requires Valid()
    {
      [|name| as byte] + name + [code] + (if code == 9 then [] else Uint16Bytes(announced)) + raw
    }

    function Meaning(c: Codec): HeaderValue {
      if code == 6 then Binary(raw) else if code == 7 then Text(c.utf8(raw)) else Uuid(raw)
    }
  }

  predicate ValidTorn(t: Option<Torn>) {
    t.Some? ==> t.value.Valid()
  }

  function EncodeTorn(t: Option<Torn>): seq<byte>
    requires ValidTorn(t)
  {
    if t.None? then [] else t.value.Encode()
  }

  function TornRecord(c: Codec, t: Option<Torn>, acc: Headers): Headers {
    if t.None? then acc else acc[c.utf8(t.value.name) := t.value.Meaning(c)]
  }

  lemma {:induction false} NumbersAgain(b: seq<byte>)
    ensures |b| == 1 ==> Unsigned(Signed(b[0] as int, 0x100), 0x100) == b[0] as int
    ensures |b| == 2 ==> Unsigned(Signed(Uint16(b), 0x1_0000), 0x1_0000) == Uint16(b) && Uint16Bytes(Uint16(b)) == b
    ensures |b| == 4 ==> Unsigned(Signed(Uint32(b), TWO_TO_32), TWO_TO_32) == Uint32(b) && Uint32Bytes(Uint32(b)) == b
  {
    if |b| == 4 {
      hide Uint32; hide Uint32Bytes;
      Uint32Injective(Uint32Bytes(Uint32(b)), b);
    }
  }

  /** A value that was read whole is the body of one that can be sent. */
  lemma {:induction false} ReadIsBody(c: Codec, code: byte, rest: seq<byte>, read: Read) returns (v: WireValue)
    requires ReadValue(c, code, rest) == Ok(read) && read.size <= |rest|
    ensures v.Valid(c) && v.TypeCode() == code && v.Body(c) == rest[..read.size] && v.Meaning(c) == read.value
  {
    hide Uint16; hide Uint32; hide Uint16Bytes; hide Uint32Bytes; hide Signed; hide Unsigned;
    if 2 <= code <= 4 || 6 <= code <= 7 {
      NumbersAgain(if code == 2 then rest[..1] else if code == 4 then rest[..4] else rest[..2]);
    }
    match code {
      case 0 => v := WTrue;
      case 1 => v := WFalse;
      case 2 => v := WInt8(read.value.i);
      case 3 => v := WInt16(read.value.i);
      case 4 => v := WInt32(read.value.i);
      case 5 => v := WWide(rest[..8]);
      case 6 =>
        v := WBinary(read.value.raw);
        assert rest[..2] + rest[2..read.size] == rest[..read.size];
      case 7 =>
        v := WText(rest[2..read.size]);
        assert rest[..2] + rest[2..read.size] == rest[..read.size];
      case 8 => v := WTime(rest[..8]);
      case _ => v := WUuid(rest[..16]);
    }
  }

  /** A value that breaks off is torn. */
  lemma {:induction false} ReadIsTorn(c: Codec, name: seq<byte>, code: byte, rest: seq<byte>, read: Read)
    returns (t: Torn)
    requires ReadValue(c, code, rest) == Ok(read) && read.size > |rest| && |name| < 0x100
    ensures t.Valid() && t.Encode() == [|name| as byte] + name + [code] + rest && t.Meaning(c) == read.value
    ensures t.name == name
  {
    hide Uint16; hide Uint16Bytes;
    if code == 9 {
      t := Torn(name, code, 16, rest);
      assert Subarray(rest, 0, 16) == rest;
      assert [|name| as byte] + name + [code] + [] + rest == [|name| as byte] + name + [code] + rest;
    } else {
      NumbersAgain(rest[..2]);
      t := Torn(name, code, Uint16(rest[..2]), rest[2..]);
      assert Subarray(rest, 2, read.size) == rest[2..];
      assert rest[..2] + rest[2..] == rest;
    }
  }

  ghost predicate HeaderBytes(c: Codec, data: seq<byte>, hs: seq<WireHeader>, torn: Option<Torn>) {
    ValidHeaders(c, hs) && ValidTorn(torn) && data == EncodeHeaders(c, hs) + EncodeTorn(torn)
  }

  /** One turn of the header loop, taken apart. */
  lemma {:induction false} HeaderTaken(c: Codec, data: seq<byte>, offset: nat, acc: Headers)
    returns (name: seq<byte>, code: byte, rest: seq<byte>, read: Read)
    requires offset < |data| && DecodeHeaders(c, data, offset, acc).Ok?
    ensures |name| < 0x100 && data[offset..] == [|name| as byte] + name + [code] + rest
    ensures ReadValue(c, code, rest) == Ok(read)
    ensures DecodeHeaders(c, data, offset, acc)
         == DecodeHeaders(c, data, |data| - |rest| + read.size, acc[c.utf8(name) := read.value])
  {
    hide ReadValue;
    var n, at := data[offset] as int, offset + 1;
    name, code, rest := data[at..at + n], data[at + n], data[at + n + 1..];
    read := ReadValue(c, code, rest).value;
  }

  /** What is accepted can be written as headers. */
  lemma {:induction false} HeadersAreWritten(c: Codec, data: seq<byte>, offset: nat, acc: Headers)
    returns (hs: seq<WireHeader>, torn: Option<Torn>)
    requires offset <= |data| && DecodeHeaders(c, data, offset, acc).Ok?
    ensures HeaderBytes(c, data[offset..], hs, torn)
    ensures DecodeHeaders(c, data, offset, acc).value == TornRecord(c, torn, HeaderRecord(c, hs, acc))
    decreases |data| - offset
  {
    hide *;
    if offset == |data| {
      hs, torn := [], None;
      NothingWritten(c, data, offset, acc);
    } else {
      var name, code, rest, read := HeaderTaken(c, data, offset, acc);
      var next, acc' := |data| - |rest| + read.size, acc[c.utf8(name) := read.value];
      if read.size > |rest| {
        var t := ReadIsTorn(c, name, code, rest, read);
        hs, torn := [], Some(t);
        PastTheEnd(c, data, next, acc');
        TornWritten(c, t, acc);
      } else {
        var v := ReadIsBody(c, code, rest, read);
        var hs', torn' := HeadersAreWritten(c, data, next, acc');
        hs, torn := [WireHeader(name, v)] + hs', torn';
        assert data[next..] == rest[read.size..];
        HeaderWritten(c, name, v, rest, read.size, hs', torn);
      }
    }
  }

  lemma {:induction false} NothingWritten(c: Codec, data: seq<byte>, offset: nat, acc: Headers)
    requires offset == |data|
    ensures HeaderBytes(c, data[offset..], [], None)
    ensures DecodeHeaders(c, data, offset, acc) == Ok(TornRecord(c, None, HeaderRecord(c, [], acc)))
  {}

  lemma {:induction false} TornWritten(c: Codec, t: Torn, acc: Headers)
    requires t.Valid()
    ensures HeaderBytes(c, t.Encode(), [], Some(t))
    ensures TornRecord(c, Some(t), HeaderRecord(c, [], acc)) == acc[c.utf8(t.name) := t.Meaning(c)]
  {
    hide Torn.Encode; hide Torn.Meaning;
    assert EncodeHeaders(c, []) + t.Encode() == t.Encode();
  }

  lemma {:induction false} HeaderWritten(c: Codec, name: seq<byte>, v: WireValue, rest: seq<byte>, size: nat,
                                         hs: seq<WireHeader>, torn: Option<Torn>)
    requires |name| < 0x100 && v.Valid(c) && size <= |rest| && v.Body(c) == rest[..size]
    requires HeaderBytes(c, rest[size..], hs, torn)
    ensures HeaderBytes(c, [|name| as byte] + name + [v.TypeCode()] + rest, [WireHeader(name, v)] + hs, torn)
    ensures forall acc: Headers ::
      HeaderRecord(c, [WireHeader(name, v)] + hs, acc) == HeaderRecord(c, hs, acc[c.utf8(name) := v.Meaning(c)])
  {
    hide *;
    var tail := TornBytes(c, rest[size..], hs, torn);
    var head := [|name| as byte] + name + [v.TypeCode()];
    FirstWritten(c, name, v, hs);
    assert head + rest == head + (v.Body(c) + rest[size..]);
    assert head + rest == (head + v.Body(c) + EncodeHeaders(c, hs)) + tail;
    TornBytesAgain(c, head + rest, [WireHeader(name, v)] + hs, torn, tail);
  }

  lemma {:induction false} FirstWritten(c: Codec, name: seq<byte>, v: WireValue, hs: seq<WireHeader>)
    requires |name| < 0x100 && v.Valid(c) && ValidHeaders(c, hs)
    ensures var all := [WireHeader(name, v)] + hs;
      && ValidHeaders(c, all)
      && EncodeHeaders(c, all) == ([|name| as byte] + name + [v.TypeCode()]) + v.Body(c) + EncodeHeaders(c, hs)
      && forall acc: Headers :: HeaderRecord(c, all, acc) == HeaderRecord(c, hs, acc[c.utf8(name) := v.Meaning(c)])
  {
    hide WireValue.Body; hide WireValue.TypeCode; hide WireValue.Meaning; hide WireValue.Valid;
    var all := [WireHeader(name, v)] + hs;
    assert all[1..] == hs;
    assert EncodeHeaders(c, all) == all[0].Encode(c) + EncodeHeaders(c, hs);
  }

  /** The value bytes of a torn header read as what there is of them. */
  lemma {:induction false} TornValue(c: Codec, t: Torn, rest: seq<byte>) returns (size: nat)
    requires t.Valid() && rest == (if t.code == 9 then [] else Uint16Bytes(t.announced)) + t.raw
    ensures size > |rest| && ReadValue(c, t.code, rest) == Ok(Read(t.Meaning(c), size))
  {
    hide Uint16; hide Uint16Bytes;
    if t.code == 9 {
      size := 16;
      assert rest == t.raw && Subarray(rest, 0, 16) == t.raw;
    } else {
      size := 2 + t.announced;
      assert rest[..2] == Uint16Bytes(t.announced) && Subarray(rest, 2, size) == t.raw;
    }
  }

  /** Where the parts of a torn header stand. */
  lemma {:induction false} TornAt(t: Torn, data: seq<byte>, offset: nat) returns (rest: seq<byte>)
    requires t.Valid() && offset <= |data| && data[offset..] == t.Encode()
    ensures var n := |t.name|;
      && offset + n + 2 <= |data| && data[offset] as int == n && data[offset + 1..offset + 1 + n] == t.name
      && data[offset + 1 + n] == t.code && data[offset + 1 + n + 1..] == rest
      && rest == (if t.code == 9 then [] else Uint16Bytes(t.announced)) + t.raw
  {
    hide Uint16Bytes;
    var d, n := data[offset..], |t.name|;
    rest := (if t.code == 9 then [] else Uint16Bytes(t.announced)) + t.raw;
    assert d == ([n as byte] + t.name + [t.code]) + rest;
    assert d[0] as int == n && d[1..1 + n] == t.name && d[1 + n] == t.code && d[n + 2..] == rest;
    SuffixSlice(data, offset, 1, 1 + n);
  }

  lemma {:induction false} TornIsRead(c: Codec, t: Torn, data: seq<byte>, offset: nat, acc: Headers)
    requires t.Valid() && offset <= |data| && data[offset..] == t.Encode()
    ensures DecodeHeaders(c, data, offset, acc) == Ok(acc[c.utf8(t.name) := t.Meaning(c)])
  {
    hide *;
    var rest := TornAt(t, data, offset);
    var size := TornValue(c, t, rest);
    HeaderDecodes(c, data, offset, acc, t.name, t.code, rest, Read(t.Meaning(c), size));
    PastTheEnd(c, data, offset + 1 + |t.name| + 1 + size, acc[c.utf8(t.name) := t.Meaning(c)]);
  }

  lemma {:induction false} PastTheEnd(c: Codec, data: seq<byte>, offset: nat, acc: Headers)
    requires offset >= |data|
    ensures DecodeHeaders(c, data, offset, acc) == Ok(acc)
  {}

  /** The headers at the front are read, whatever follows them. */
  lemma {:induction false} HeadersThenTail(c: Codec, data: seq<byte>, offset: nat, acc: Headers, hs: seq<WireHeader>,
                                           tail: seq<byte>)
    requires ValidHeaders(c, hs) && offset <= |data| && data[offset..] == EncodeHeaders(c, hs) + tail
    ensures |tail| <= |data| && data[|data| - |tail|..] == tail
    ensures DecodeHeaders(c, data, offset, acc) == DecodeHeaders(c, data, |data| - |tail|, HeaderRecord(c, hs, acc))
    decreases |hs|
  {
    hide *;
    assert data[|data| - |tail|..] == tail by { assert |data[offset..]| == |EncodeHeaders(c, hs)| + |tail|; }
    if hs == [] {
      NoHeadersThen(c, data[offset..], acc, tail);
    } else {
      var h := hs[0];
      FirstHeader(c, hs, acc);
      var rest := EncodeHeaders(c, hs[1..]) + tail;
      assert data[offset..] == h.Encode(c) + rest;
      HeaderAt(c, h, data, offset, rest);
      ReadValueUndoesBody(c, h.value, rest);
      var code, body, value := h.value.TypeCode(), h.value.Body(c), h.value.Meaning(c);
      var next := offset + 1 + |h.name| + 1 + |body|;
      HeaderDecodes(c, data, offset, acc, h.name, code, body + rest, Read(value, |body|));
      HeadersThenTail(c, data, next, acc[c.utf8(h.name) := value], hs[1..], tail);
    }
  }

  lemma {:induction false} NoHeadersThen(c: Codec, d: seq<byte>, acc: Headers, tail: seq<byte>)
    requires d == EncodeHeaders(c, []) + tail
    ensures d == tail && HeaderRecord(c, [], acc) == acc
  {}

  /** What is written as headers is accepted. */
  lemma {:induction false} HeadersAreRead(c: Codec, data: seq<byte>, offset: nat, acc: Headers, hs: seq<WireHeader>,
                                          torn: Option<Torn>)
    requires offset <= |data| && HeaderBytes(c, data[offset..], hs, torn)
    ensures DecodeHeaders(c, data, offset, acc) == Ok(TornRecord(c, torn, HeaderRecord(c, hs, acc)))
  {
    hide *;
    var tail := TornBytes(c, data[offset..], hs, torn);
    HeadersThenTail(c, data, offset, acc, hs, tail);
    var at, record := |data| - |tail|, HeaderRecord(c, hs, acc);
    if torn.Some? { TornIsRead(c, torn.value, data, at, record); } else { PastTheEnd(c, data, at, record); }
  }

  lemma {:induction false} TornBytes(c: Codec, d: seq<byte>, hs: seq<WireHeader>, torn: Option<Torn>)
    returns (tail: seq<byte>)
    requires HeaderBytes(c, d, hs, torn)
    ensures ValidHeaders(c, hs) && ValidTorn(torn) && tail == EncodeTorn(torn) && d == EncodeHeaders(c, hs) + tail
    ensures tail == if torn.Some? then torn.value.Encode() else []
    ensures torn.Some? ==> torn.value.Valid()
    ensures torn.Some? ==>
      forall acc: Headers :: TornRecord(c, torn, acc) == acc[c.utf8(torn.value.name) := torn.value.Meaning(c)]
    ensures torn.None? ==> forall acc: Headers :: TornRecord(c, torn, acc) == acc
  {
    tail := EncodeTorn(torn);
  }

  lemma {:induction false} TornBytesAgain(c: Codec, d: seq<byte>, hs: seq<WireHeader>, torn: Option<Torn>,
                                          tail: seq<byte>)
    requires ValidHeaders(c, hs) && ValidTorn(torn) && tail == EncodeTorn(torn) && d == EncodeHeaders(c, hs) + tail
    ensures HeaderBytes(c, d, hs, torn)
  {}

  /** A header block is accepted exactly when it is a run of headers of the ten types, the last of which may
      break off inside the bytes of its value; the record is theirs. */
  lemma {:induction false} HeadersIff(c: Codec, data: seq<byte>, acc: Headers, r: Headers)
    ensures DecodeHeaders(c, data, 0, acc) == Ok(r) <==>
      exists hs, torn :: HeaderBytes(c, data, hs, torn) && r == TornRecord(c, torn, HeaderRecord(c, hs, acc))
  {
    hide DecodeHeaders; hide TornRecord; hide HeaderRecord; hide EncodeHeaders; hide EncodeTorn;
    assert data[0..] == data;
    if DecodeHeaders(c, data, 0, acc) == Ok(r) {
      var hs, torn := HeadersAreWritten(c, data, 0, acc);
    }
    if hs, torn :| HeaderBytes(c, data, hs, torn) && r == TornRecord(c, torn, HeaderRecord(c, hs, acc)) {
      HeadersAreRead(c, data, 0, acc, hs, torn);
    }
  }

  // ----- refusals -----

  /** How many bytes a header value of each type takes at least. */
  function LeastSize(code: byte): nat {
    if code == 2 then 1 else if code == 3 || code == 6 || code == 7 then 2 else if code == 4 then 4
    else if code == 5 || code == 8 then 8 else 0
  }

  /** What is wrong with the header at the front of `tail`, if anything is. */
  function HeaderFault(c: Codec, tail: seq<byte>): Option<DecodeError> {
    if tail == [] then None
    else
      var n := tail[0] as int;
      if |tail| < n + 2 then Some(TruncatedHeader)
      else if tail[n + 1] > 9 then Some(UnknownHeaderType(tail[n + 1]))
      else if |tail| - (n + 2) < LeastSize(tail[n + 1]) then Some(OutOfRange)
      else if tail[n + 1] == 8 && c.iso(tail[n + 2..n + 10]).None? then Some(InvalidDate)
      else None
  }

  /** The first header that is wrong after right ones gives the error: its name or type is missing, its type
      is unknown, its value is short, or its time is no date. */
  lemma {:induction false} FaultyHeader(c: Codec, data: seq<byte>, hs: seq<WireHeader>, tail: seq<byte>)
    requires ValidHeaders(c, hs) && data == EncodeHeaders(c, hs) + tail && HeaderFault(c, tail).Some?
    ensures DecodeHeaders(c, data, 0, map[]) == Err(HeaderFault(c, tail).value)
  {
    hide EncodeHeaders; hide HeaderRecord; hide ValidHeaders;
    assert data[0..] == data;
    HeadersThenTail(c, data, 0, map[], hs, tail);
    FaultIsRead(c, data, |data| - |tail|, HeaderRecord(c, hs, map[]), tail);
  }

  lemma {:induction false} FaultIsRead(c: Codec, data: seq<byte>, offset: nat, acc: Headers, tail: seq<byte>)
    requires offset <= |data| && data[offset..] == tail && HeaderFault(c, tail).Some?
    ensures DecodeHeaders(c, data, offset, acc) == Err(HeaderFault(c, tail).value)
  {
    var n, at := data[offset] as int, offset + 1;
    assert tail[0] == data[offset];
    if |tail| >= n + 2 {
      assert data[at + n] == tail[n + 1] && data[at + n + 1..] == tail[n + 2..];
      ValueFault(c, tail[n + 1], tail[n + 2..]);
      if tail[n + 1] == 8 && |tail| >= n + 10 { assert tail[n + 2..][..8] == tail[n + 2..n + 10]; }
    }
  }

  lemma {:induction false} ValueFault(c: Codec, code: byte, rest: seq<byte>)
    ensures code > 9 ==> ReadValue(c, code, rest) == Err(UnknownHeaderType(code))
    ensures code <= 9 && |rest| < LeastSize(code) ==> ReadValue(c, code, rest) == Err(OutOfRange)
    ensures code == 8 && |rest| >= 8 && c.iso(rest[..8]).None? ==> ReadValue(c, code, rest) == Err(InvalidDate)
  {}

  /** A message that is cut off is noticed: before its sixteenth byte as a short prelude, after it as a short
      message. */
  lemma {:induction false} CutMessage(c: Codec, d: seq<byte>, k: nat)
    requires DecodeOne(c, d).Ok? && 0 < k < Uint32(d[..4])
    ensures Decode(c, d[..k]) == Err(if k < 16 then TruncatedPrelude else TruncatedMessage)
  {
    hide Uint32; hide C.Crc; hide DecodeHeaders;
    if k >= 4 { assert d[..k][..4] == d[..4]; }
  }

  // ----- messages -----

  /** The header block and the payload of one message. */
  datatype Part = Part(block: seq<byte>, payload: seq<byte>) {
    predicate Fits() {
      16 + |block| + |payload| < TWO_TO_32
    }
  }

  function Framed(ps: seq<Part>): seq<byte>
    requires forall i :: 0 <= i < |ps| ==> ps[i].Fits()
  {
    if ps == [] then []
    else
      assert ps[0].Fits();
      Frame(ps[0].block, ps[0].payload) + Framed(ps[1..])
  }

  /** The messages are those of the parts, each with the record of its header block. */
  predicate Reads(c: Codec, ps: seq<Part>, ms: seq<Message>) {
    && |ps| == |ms|
    && forall i :: 0 <= i < |ps| ==>
         ps[i].Fits() && DecodeHeaders(c, ps[i].block, 0, map[]) == Ok(ms[i].headers) && ps[i].payload == ms[i].payload
  }

  ghost predicate IsRun(c: Codec, d: seq<byte>, ps: seq<Part>, ms: seq<Message>) {
    Reads(c, ps, ms) && d == Framed(ps)
  }

  /** An accepted message is a frame. */
  lemma {:induction false} MessageIsFrame(c: Codec, d: seq<byte>) returns (p: Part)
    requires DecodeOne(c, d).Ok?
    ensures p.Fits() && d[..Uint32(d[..4])] == Frame(p.block, p.payload)
    ensures DecodeHeaders(c, p.block, 0, map[]) == Ok(DecodeOne(c, d).value.headers)
    ensures p.payload == DecodeOne(c, d).value.payload
  {
    hide Uint32; hide C.Crc; hide DecodeHeaders; hide Uint32Bytes;
    var total, h := Uint32(d[..4]), Uint32(d[4..8]);
    p := Part(d[12..12 + h], d[12 + h..total - 4]);
    NumbersAgain(d[..4]);
    NumbersAgain(d[4..8]);
    NumbersAgain(d[8..12]);
    NumbersAgain(d[total - 4..total]);
    assert d[..4] + d[4..8] == d[..8];
    assert d[..8] + d[8..12] + p.block + p.payload == d[..total - 4];
    assert d[..total - 4] + d[total - 4..total] == d[..total];
  }

  lemma {:induction false} DecodedIsRun(c: Codec, d: seq<byte>) returns (ps: seq<Part>)
    requires Decode(c, d).Ok?
    ensures IsRun(c, d, ps, Decode(c, d).value)
    decreases |d|
  {
    hide Uint32; hide DecodeOne; hide DecodeHeaders; hide Frame;
    if d == [] {
      ps := [];
    } else {
      DecodeStep(c, d);
      var p := MessageIsFrame(c, d);
      var rest := d[Uint32(d[..4])..];
      var qs := DecodedIsRun(c, rest);
      ps := [p] + qs;
      assert ps[1..] == qs;
      assert d == d[..Uint32(d[..4])] + rest;
    }
  }

  lemma {:induction false} RunIsDecoded(c: Codec, d: seq<byte>, ps: seq<Part>, ms: seq<Message>)
    requires IsRun(c, d, ps, ms)
    ensures Decode(c, d) == Ok(ms)
    decreases |ps|
  {
    hide Uint32; hide DecodeOne; hide DecodeHeaders; hide Frame;
    if ps != [] {
      var p := ps[0];
      var f := Frame(p.block, p.payload);
      FrameDecodes(c, p.block, p.payload, ms[0].headers);
      DecodeOneAlone(c, f);
      assert f[..|f|] == f;
      RunIsDecoded(c, Framed(ps[1..]), ps[1..], ms[1..]);
      DecodeAppend(c, f, Framed(ps[1..]));
      assert [ms[0]] + ms[1..] == ms;
    }
  }

  /** The decoder returns `ms` exactly for the runs of frames whose header blocks and payloads say `ms`. */
  lemma {:induction false} DecodesIff(c: Codec, d: seq<byte>, ms: seq<Message>)
    ensures Decode(c, d) == Ok(ms) <==> exists ps :: IsRun(c, d, ps, ms)
  {
    hide Decode; hide IsRun;
    if Decode(c, d) == Ok(ms) {
      var ps := DecodedIsRun(c, d);
    }
    if ps :| IsRun(c, d, ps, ms) { RunIsDecoded(c, d, ps, ms); }
  }
}
