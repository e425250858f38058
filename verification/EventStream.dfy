/** The AWS event-stream decoder: length-prefixed messages, two checksums, typed headers. */
module EventStream {
  import opened Bytes
  import C = Checksum

  datatype DecodeError =
    | TruncatedPrelude | InvalidTotalLength(total: nat) | TruncatedMessage
    | PreludeCrcMismatch | MessageCrcMismatch | HeadersExceedMessage
    | TruncatedHeader | UnknownHeaderType(valueType: byte) | OutOfRange | InvalidDate

  datatype HeaderValue =
    | Bool(b: bool)
    | Number(i: int)
    | Wide(raw: seq<byte>)      // type 5: eight bytes on their way to a double
    | Binary(raw: seq<byte>)
    | Text(s: string)
    | Timestamp(iso: string)
    | Uuid(raw: seq<byte>)

  type Headers = map<string, HeaderValue>

  datatype Message = Message(headers: Headers, payload: seq<byte>)

  /** The text conversions the decoder takes from its runtime. */
  datatype Codec = Codec(utf8: seq<byte> -> string, iso: seq<byte> -> Option<string>)

  // ----- one header value -----

  /** A decoded value and how far the offset moves; types 6, 7 and 9 may move it past the end. */
  datatype Read = Read(value: HeaderValue, size: nat)

  function ReadNumber(rest: seq<byte>, width: nat, range: nat): (r: Result<Read, DecodeError>)
    requires (width == 1 && range == 0x100) || (width == 2 && range == 0x1_0000) || (width == 4 && range == TWO_TO_32)
  {
    if |rest| < width then Err(OutOfRange)
    else
      var n := if width == 1 then rest[0] as int
               else if width == 2 then Uint16(rest[..2]) else Uint32(rest[..4]);
      Ok(Read(Number(Signed(n, range)), width))
  }

  function ReadValue(c: Codec, valueType: byte, rest: seq<byte>): Result<Read, DecodeError> {
    if valueType == 0 then Ok(Read(Bool(true), 0))
    else if valueType == 1 then Ok(Read(Bool(false), 0))
    else if valueType == 2 then ReadNumber(rest, 1, 0x100)
    else if valueType == 3 then ReadNumber(rest, 2, 0x1_0000)
    else if valueType == 4 then ReadNumber(rest, 4, TWO_TO_32)
    else if valueType == 5 then
      if |rest| < 8 then Err(OutOfRange) else Ok(Read(Wide(rest[..8]), 8))
    else if valueType == 6 || valueType == 7 then
      if |rest| < 2 then Err(OutOfRange)
      else
        var length := Uint16(rest[..2]);
        var raw := Subarray(rest, 2, 2 + length);
        Ok(Read(if valueType == 6 then Binary(raw) else Text(c.utf8(raw)), 2 + length))
    else if valueType == 8 then
      if |rest| < 8 then Err(OutOfRange)
      else match c.iso(rest[..8])
        case Some(iso) => Ok(Read(Timestamp(iso), 8))
        case None => Err(InvalidDate)
    else if valueType == 9 then Ok(Read(Uuid(Subarray(rest, 0, 16)), 16))
    else Err(UnknownHeaderType(valueType))
  }

  // ----- the header block -----

  /** What the header loop computes from `offset` on; the offset may run past the end. */
  function DecodeHeaders(c: Codec, data: seq<byte>, offset: nat, acc: Headers): Result<Headers, DecodeError>
    decreases |data| - offset
  {
    if offset >= |data| then Ok(acc)
    else
      var n := data[offset] as int;
      var at := offset + 1;
      if at + n + 1 > |data| then Err(TruncatedHeader)
      else
        match ReadValue(c, data[at + n], data[at + n + 1..])
        case Err(e) => Err(e)
        case Ok(read) =>
          DecodeHeaders(c, data, at + n + 1 + read.size, acc[c.utf8(data[at..at + n]) := read.value])
  }

  method DecodeHeaderBlock(c: Codec, data: seq<byte>) returns (r: Result<Headers, DecodeError>)
    ensures r == DecodeHeaders(c, data, 0, map[])
  {
    var headers: Headers := map[];
    var offset := 0;
    while offset < |data|
      invariant 0 <= offset
      invariant DecodeHeaders(c, data, offset, headers) == DecodeHeaders(c, data, 0, map[])
      decreases |data| - offset
    {
      var nameLength := data[offset] as int;
      offset := offset + 1;
      if offset + nameLength + 1 > |data| {
        return Err(TruncatedHeader);
      }
      var name := c.utf8(data[offset..offset + nameLength]);
      offset := offset + nameLength;
      var valueType := data[offset];
      offset := offset + 1;
      var read := ReadValue(c, valueType, data[offset..]);
      if read.Err? {
        return Err(read.error);
      }
      headers := headers[name := read.value.value];
      offset := offset + read.value.size;
    }
    return Ok(headers);
  }

  // ----- messages -----

  /** The message at the front of `d`, checked in the order of the code. */
  function DecodeOne(c: Codec, d: seq<byte>): (r: Result<Message, DecodeError>)
    ensures r.Ok? ==> |d| >= 16 && 16 <= Uint32(d[..4]) <= |d|
  {
    if |d| < 16 then Err(TruncatedPrelude)
    else
      var total := Uint32(d[..4]);
      var headersLength := Uint32(d[4..8]);
      if total < 16 then Err(InvalidTotalLength(total))
      else if total > |d| then Err(TruncatedMessage)
      else if C.Crc(d[..8]) != Uint32(d[8..12]) then Err(PreludeCrcMismatch)
      else if C.Crc(d[..total - 4]) != Uint32(d[total - 4..total]) then Err(MessageCrcMismatch)
      else if 12 + headersLength > total - 4 then Err(HeadersExceedMessage)
      else match DecodeHeaders(c, d[12..12 + headersLength], 0, map[])
        case Err(e) => Err(e)
        case Ok(headers) => Ok(Message(headers, d[12 + headersLength..total - 4]))
  }

  function Prepend(m: seq<Message>, r: Result<seq<Message>, DecodeError>): Result<seq<Message>, DecodeError> {
    match r
    case Ok(ms) => Ok(m + ms)
    case Err(e) => Err(e)
  }

  function Decode(c: Codec, d: seq<byte>): Result<seq<Message>, DecodeError>
    decreases |d|
  {
    if d == [] then Ok([])
    else match DecodeOne(c, d)
      case Err(e) => Err(e)
      case Ok(m) => Prepend([m], Decode(c, d[Uint32(d[..4])..]))
  }

  /** The same checks in absolute offsets. */
  function MessageAt(c: Codec, data: seq<byte>, offset: nat): Result<Message, DecodeError>
    requires offset <= |data|
  {
    if |data| - offset < 16 then Err(TruncatedPrelude)
    else
      var total := Uint32(data[offset..offset + 4]);
      var h := Uint32(data[offset + 4..offset + 8]);
      var end := offset + total;
      if total < 16 then Err(InvalidTotalLength(total))
      else if end > |data| then Err(TruncatedMessage)
      else if C.Crc(data[offset..offset + 8]) != Uint32(data[offset + 8..offset + 12]) then Err(PreludeCrcMismatch)
      else if C.Crc(data[offset..end - 4]) != Uint32(data[end - 4..end]) then Err(MessageCrcMismatch)
      else if offset + 12 + h > end - 4 then Err(HeadersExceedMessage)
      else match DecodeHeaders(c, data[offset + 12..offset + 12 + h], 0, map[])
        case Err(e) => Err(e)
        case Ok(headers) => Ok(Message(headers, data[offset + 12 + h..end - 4]))
  }

  lemma {:induction false} SuffixSlice(data: seq<byte>, offset: nat, i: nat, j: nat)
    requires i <= j && offset + j <= |data|
    ensures data[offset..][i..j] == data[offset + i..offset + j]
  {}

  lemma {:induction false} MessageAtIsDecodeOne(c: Codec, data: seq<byte>, offset: nat)
    requires offset <= |data|
    ensures MessageAt(c, data, offset) == DecodeOne(c, data[offset..])
    ensures offset + 4 <= |data| ==> data[offset..][..4] == data[offset..offset + 4]
  {
    hide Uint32; hide C.Crc; hide DecodeHeaders;
    if offset + 16 <= |data| {
      SuffixSlice(data, offset, 0, 4);
      SuffixSlice(data, offset, 4, 8);
      SuffixSlice(data, offset, 0, 8);
      SuffixSlice(data, offset, 8, 12);
      var total := Uint32(data[offset..offset + 4]);
      var h := Uint32(data[offset + 4..offset + 8]);
      if 16 <= total <= |data| - offset {
        SuffixSlice(data, offset, 0, total - 4);
        SuffixSlice(data, offset, total - 4, total);
        if 12 + h <= total - 4 {
          SuffixSlice(data, offset, 12, 12 + h);
          SuffixSlice(data, offset, 12 + h, total - 4);
        }
      }
    }
  }

  /** The body of the message loop. */
  method DecodeMessage(c: Codec, table: seq<C.word>, data: seq<byte>, offset: nat)
    returns (r: Result<Message, DecodeError>, end: nat)
    requires C.IsTable(table) && offset <= |data|
    ensures r == MessageAt(c, data, offset)
    ensures r.Ok? ==> |data| - offset >= 16 && end == offset + Uint32(data[offset..offset + 4])
  {
    hide Uint32; hide C.Crc; hide DecodeHeaders;
    end := offset;
    if |data| - offset < 16 {
      return Err(TruncatedPrelude), end;
    }
    var total := Uint32(data[offset..offset + 4]);
    var headersLength := Uint32(data[offset + 4..offset + 8]);
    if total < 16 {
      return Err(InvalidTotalLength(total)), end;
    }
    end := offset + total;
    if end > |data| {
      return Err(TruncatedMessage), end;
    }
    var preludeCrc := C.Crc32(table, data[offset..offset + 8]);
    if preludeCrc != Uint32(data[offset + 8..offset + 12]) {
      return Err(PreludeCrcMismatch), end;
    }
    var messageCrc := C.Crc32(table, data[offset..end - 4]);
    if messageCrc != Uint32(data[end - 4..end]) {
      return Err(MessageCrcMismatch), end;
    }
    var headersStart := offset + 12;
    var headersEnd := headersStart + headersLength;
    if headersEnd > end - 4 {
      return Err(HeadersExceedMessage), end;
    }
    var headers := DecodeHeaderBlock(c, data[headersStart..headersEnd]);
    if headers.Err? {
      return Err(headers.error), end;
    }
    return Ok(Message(headers.value, data[headersEnd..end - 4])), end;
  }

  method DecodeAwsEventStream(c: Codec, table: seq<C.word>, data: seq<byte>)
    returns (r: Result<seq<Message>, DecodeError>)
    requires C.IsTable(table)
    ensures r == Decode(c, data)
  {
    hide Uint32; hide DecodeOne; hide MessageAt;
    var messages: seq<Message> := [];
    var offset := 0;
    PrependNothing(Decode(c, data));
    assert data[0..] == data;
    while offset < |data|
      invariant 0 <= offset <= |data|
      invariant Prepend(messages, Decode(c, data[offset..])) == Decode(c, data)
      decreases |data| - offset
    {
      var message, end := DecodeMessage(c, table, data, offset);
      MessageAtIsDecodeOne(c, data, offset);
      if message.Err? {
        return Err(message.error);
      }
      assert data[offset..][end - offset..] == data[end..];
      PrependTwice(messages, [message.value], Decode(c, data[end..]));
      messages := messages + [message.value];
      offset := end;
    }
    assert messages + [] == messages;
    return Ok(messages);
  }

  lemma {:induction false} PrependNothing(r: Result<seq<Message>, DecodeError>)
    ensures Prepend([], r) == r
  {
    if r.Ok? { assert [] + r.value == r.value; }
  }

  lemma {:induction false} PrependTwice(a: seq<Message>, b: seq<Message>, r: Result<seq<Message>, DecodeError>)
    ensures Prepend(a, Prepend(b, r)) == Prepend(a + b, r)
  {
    if r.Ok? { assert a + (b + r.value) == (a + b) + r.value; }
  }

  // ----- decoding distributes over concatenation -----

  lemma {:induction false} PrefixSlice(a: seq<byte>, b: seq<byte>, i: nat, j: nat)
    requires i <= j <= |a|
    ensures (a + b)[i..j] == a[i..j]
  {}

  lemma {:induction false} DecodeOneLocal(c: Codec, a: seq<byte>, b: seq<byte>)
    requires DecodeOne(c, a).Ok?
    ensures DecodeOne(c, a + b) == DecodeOne(c, a) && (a + b)[..4] == a[..4]
  {
    hide Uint32; hide C.Crc; hide DecodeHeaders;
    var total, h := Uint32(a[..4]), Uint32(a[4..8]);
    PrefixSlice(a, b, 0, 4);
    PrefixSlice(a, b, 4, 8);
    PrefixSlice(a, b, 0, 8);
    PrefixSlice(a, b, 8, 12);
    PrefixSlice(a, b, 0, total - 4);
    PrefixSlice(a, b, total - 4, total);
    PrefixSlice(a, b, 12, 12 + h);
    PrefixSlice(a, b, 12 + h, total - 4);
  }

  lemma {:induction false} DecodeStep(c: Codec, d: seq<byte>)
    requires DecodeOne(c, d).Ok?
    ensures Decode(c, d) == Prepend([DecodeOne(c, d).value], Decode(c, d[Uint32(d[..4])..]))
  {}

  lemma {:induction false} DecodeAppend(c: Codec, a: seq<byte>, b: seq<byte>)
    requires Decode(c, a).Ok?
    ensures Decode(c, a + b) == Prepend(Decode(c, a).value, Decode(c, b))
    decreases |a|
  {
    hide Uint32; hide DecodeOne;
    if a == [] {
      assert a + b == b;
      PrependNothing(Decode(c, b));
    } else {
      var total, m := Uint32(a[..4]), DecodeOne(c, a).value;
      var rest := Decode(c, a[total..]).value;
      DecodeOneLocal(c, a, b);
      DecodeAppend(c, a[total..], b);
      assert (a + b)[total..] == a[total..] + b;
      DecodeStep(c, a + b);
      PrependTwice([m], rest, Decode(c, b));
    }
  }

  // ----- a changed byte never goes unnoticed -----

  /** The error for a changed byte, by where it stands in its message. */
  predicate FaultAt(i: nat, e: DecodeError) {
    if i < 4 then e.InvalidTotalLength? || e == TruncatedMessage || e == PreludeCrcMismatch
    else if i < 12 then e == PreludeCrcMismatch
    else e == MessageCrcMismatch
  }

  lemma {:induction false} ChangedByteBreaksOne(c: Codec, d: seq<byte>, i: nat, b: byte)
    requires DecodeOne(c, d).Ok? && i < Uint32(d[..4]) && d[i] != b
    ensures DecodeOne(c, d[i := b]).Err? && FaultAt(i, DecodeOne(c, d[i := b]).error)
  {
    hide Uint32; hide C.Crc; hide DecodeHeaders;
    var total := Uint32(d[..4]);
    var e := d[i := b];
    if i < 8 {
      C.ChangedByteChangesCrc(d[..8], i, b);
      assert e[..8] == d[..8][i := b] && e[8..12] == d[8..12];
    } else if i < 12 {
      assert e[..8] == d[..8] && e[8..12][i - 8] == b;
      if Uint32(e[8..12]) == Uint32(d[8..12]) { Uint32Injective(e[8..12], d[8..12]); }
    } else {
      assert e[..4] == d[..4];
      if i < total - 4 {
        C.ChangedByteChangesCrc(d[..total - 4], i, b);
        assert e[..total - 4] == d[..total - 4][i := b] && e[total - 4..total] == d[total - 4..total];
      } else {
        assert e[..total - 4] == d[..total - 4] && e[total - 4..total][i - (total - 4)] == b;
        if Uint32(e[total - 4..total]) == Uint32(d[total - 4..total]) {
          Uint32Injective(e[total - 4..total], d[total - 4..total]);
        }
      }
    }
  }

  /** Changing any one byte of any buffer that decodes makes the decoder throw, with the error for the
      place of that byte in its message. */
  lemma {:induction false} ChangedByteIsDetected(c: Codec, d: seq<byte>, i: nat, b: byte)
    returns (start: nat)
    requires Decode(c, d).Ok? && i < |d| && d[i] != b
    ensures start <= i && Decode(c, d[..start]).Ok? && DecodeOne(c, d[start..]).Ok?
    ensures i < start + Uint32(d[start..][..4])
    ensures Decode(c, d[i := b]).Err? && FaultAt(i - start, Decode(c, d[i := b]).error)
    decreases |d|
  {
    hide Uint32; hide DecodeOne;
    DecodeStep(c, d);
    var total := Uint32(d[..4]);
    if i < total {
      start := 0;
      assert d[0..] == d && d[..0] == [];
      ChangedByteBreaksOne(c, d, i, b);
    } else {
      var later := ChangedByteIsDetected(c, d[total..], i - total, b);
      start := total + later;
      DecodeOneAlone(c, d);
      DecodeAppend(c, d[..total], d[total..][i - total := b]);
      assert d[i := b] == d[..total] + d[total..][i - total := b];
      DecodeAppend(c, d[..total], d[total..][..later]);
      assert d[..start] == d[..total] + d[total..][..later] && d[start..] == d[total..][later..];
    }
  }

  /** A message decodes by itself just as at the front of a stream. */
  lemma {:induction false} DecodeOneAlone(c: Codec, d: seq<byte>)
    requires DecodeOne(c, d).Ok?
    ensures Decode(c, d[..Uint32(d[..4])]) == Ok([DecodeOne(c, d).value])
  {
    hide Uint32; hide DecodeOne;
    DecodeOneCut(c, d);
    var h := d[..Uint32(d[..4])];
    assert h[|h|..] == [];
    DecodeStep(c, h);
    assert [DecodeOne(c, d).value] + [] == [DecodeOne(c, d).value];
  }

  lemma {:induction false} DecodeOneCut(c: Codec, d: seq<byte>)
    requires DecodeOne(c, d).Ok?
    ensures var h := d[..Uint32(d[..4])]; h[..4] == d[..4] && DecodeOne(c, h) == DecodeOne(c, d)
  {
    hide Uint32; hide C.Crc; hide DecodeHeaders;
    var total, h := Uint32(d[..4]), Uint32(d[4..8]);
    var a, b := d[..total], d[total..];
    assert d == a + b;
    PrefixSlice(a, b, 0, 4);
    PrefixSlice(a, b, 4, 8);
    PrefixSlice(a, b, 0, 8);
    PrefixSlice(a, b, 8, 12);
    PrefixSlice(a, b, 0, total - 4);
    PrefixSlice(a, b, total - 4, total);
    PrefixSlice(a, b, 12, 12 + h);
    PrefixSlice(a, b, 12 + h, total - 4);
  }

  // ----- the encoder, and the round trip -----

  /** A header value as a sender writes it. */
  datatype WireValue =
    | WTrue | WFalse
    | WInt8(i: int) | WInt16(i: int) | WInt32(i: int)
    | WWide(raw: seq<byte>) | WBinary(raw: seq<byte>) | WText(raw: seq<byte>)
    | WTime(raw: seq<byte>) | WUuid(raw: seq<byte>)
  {
    predicate Valid(c: Codec) {
      match this
      case WTrue | WFalse => true
      case WInt8(i) => -0x80 <= i < 0x80
      case WInt16(i) => -0x8000 <= i < 0x8000
      case WInt32(i) => -0x8000_0000 <= i < 0x8000_0000
      case WWide(raw) => |raw| == 8
      case WBinary(raw) => |raw| < 0x1_0000
      case WText(raw) => |raw| < 0x1_0000
      case WTime(raw) => |raw| == 8 && c.iso(raw).Some?
      case WUuid(raw) => |raw| == 16
    }

    function TypeCode(): byte {
      match this
      case WTrue => 0
      case WFalse => 1
      case WInt8(_) => 2
      case WInt16(_) => 3
      case WInt32(_) => 4
      case WWide(_) => 5
      case WBinary(_) => 6
      case WText(_) => 7
      case WTime(_) => 8
      case WUuid(_) => 9
    }

    function Body(c: Codec): seq<byte>
      requires Valid(c)
    {
      match this
      case WTrue | WFalse => []
      case WInt8(i) => [Unsigned(i, 0x100) as byte]
      case WInt16(i) => Uint16Bytes(Unsigned(i, 0x1_0000))
      case WInt32(i) => Uint32Bytes(Unsigned(i, TWO_TO_32))
      case WWide(raw) => raw
      case WBinary(raw) => Uint16Bytes(|raw|) + raw
      case WText(raw) => Uint16Bytes(|raw|) + raw
      case WTime(raw) => raw
      case WUuid(raw) => raw
    }

    /** What a receiver is meant to see. */
    function Meaning(c: Codec): HeaderValue
      requires Valid(c)
    {
      match this
      case WTrue => Bool(true)
      case WFalse => Bool(false)
      case WInt8(i) => Number(i)
      case WInt16(i) => Number(i)
      case WInt32(i) => Number(i)
      case WWide(raw) => Wide(raw)
      case WBinary(raw) => Binary(raw)
      case WText(raw) => Text(c.utf8(raw))
      case WTime(raw) => Timestamp(c.iso(raw).value)
      case WUuid(raw) => Uuid(raw)
    }
  }

  datatype WireHeader = WireHeader(name: seq<byte>, value: WireValue) {
    predicate Valid(c: Codec) {
      |name| < 0x100 && value.Valid(c)
    }

    function Encode(c: Codec): seq<byte>
      requires Valid(c)
    {
      [|name| as byte] + name + [value.TypeCode()] + value.Body(c)
    }
  }

  predicate ValidHeaders(c: Codec, hs: seq<WireHeader>) {
    forall i :: 0 <= i < |hs| ==> hs[i].Valid(c)
  }

  function EncodeHeaders(c: Codec, hs: seq<WireHeader>): seq<byte>
    requires ValidHeaders(c, hs)
  {
    if hs == [] then [] else hs[0].Encode(c) + EncodeHeaders(c, hs[1..])
  }

  /** The layout of one message: lengths, their checksum, headers, payload, checksum of it all. */
  function Frame(h: seq<byte>, payload: seq<byte>): seq<byte>
    requires 16 + |h| + |payload| < TWO_TO_32
  {
    var prelude := Uint32Bytes(16 + |h| + |payload|) + Uint32Bytes(|h|);
    var body := prelude + Uint32Bytes(C.Crc(prelude)) + h + payload;
    body + Uint32Bytes(C.Crc(body))
  }

  datatype WireMessage = WireMessage(headers: seq<WireHeader>, payload: seq<byte>) {
    predicate Valid(c: Codec) {
      ValidHeaders(c, headers) && 16 + |EncodeHeaders(c, headers)| + |payload| < TWO_TO_32
    }

    function Encode(c: Codec): seq<byte>
      requires Valid(c)
    {
      Frame(EncodeHeaders(c, headers), payload)
    }
  }

  function EncodeAll(c: Codec, ms: seq<WireMessage>): seq<byte>
    requires forall i :: 0 <= i < |ms| ==> ms[i].Valid(c)
  {
    if ms == [] then [] else ms[0].Encode(c) + EncodeAll(c, ms[1..])
  }

  /** The header record a sender means; as in the code, a repeated name keeps its last value. */
  function HeaderRecord(c: Codec, hs: seq<WireHeader>, acc: Headers): Headers
    requires ValidHeaders(c, hs)
  {
    if hs == [] then acc
    else HeaderRecord(c, hs[1..], acc[c.utf8(hs[0].name) := hs[0].value.Meaning(c)])
  }

  function Meanings(c: Codec, ms: seq<WireMessage>): seq<Message>
    requires forall i :: 0 <= i < |ms| ==> ms[i].Valid(c)
  {
    if ms == [] then []
    else
      assert ms[0].Valid(c);
      [Message(HeaderRecord(c, ms[0].headers, map[]), ms[0].payload)] + Meanings(c, ms[1..])
  }

  lemma {:induction false} ReadValueUndoesBody(c: Codec, v: WireValue, rest: seq<byte>)
    requires v.Valid(c)
    ensures ReadValue(c, v.TypeCode(), v.Body(c) + rest) == Ok(Read(v.Meaning(c), |v.Body(c)|))
  {
    var d := v.Body(c) + rest;
    match v {
      case WTrue =>
      case WFalse =>
      case WInt8(i) =>
      case WInt16(i) => assert d[..2] == v.Body(c);
      case WInt32(i) => assert d[..4] == v.Body(c);
      case WWide(raw) => assert d[..8] == raw;
      case WBinary(raw) => assert d[..2] == Uint16Bytes(|raw|); assert d[2..2 + |raw|] == raw;
      case WText(raw) => assert d[..2] == Uint16Bytes(|raw|); assert d[2..2 + |raw|] == raw;
      case WTime(raw) => assert d[..8] == raw;
      case WUuid(raw) => assert d[0..16] == raw;
    }
  }

  /** One encoded header at `offset`, with `rest` behind it. */
  lemma {:induction false} HeaderAt(c: Codec, h: WireHeader, data: seq<byte>, offset: nat, rest: seq<byte>)
    requires h.Valid(c) && offset <= |data| && data[offset..] == h.Encode(c) + rest
    ensures var n := |h.name|;
      && offset + n + 2 <= |data|
      && data[offset] as int == n
      && data[offset + 1..offset + 1 + n] == h.name
      && data[offset + 1 + n] == h.value.TypeCode()
      && data[offset + 1 + n + 1..] == h.value.Body(c) + rest
      && data[offset + 1 + n + 1 + |h.value.Body(c)|..] == rest
  {
    var d, n := data[offset..], |h.name|;
    var tail := [h.value.TypeCode()] + h.value.Body(c) + rest;
    assert d == [n as byte] + h.name + tail;
    assert d[0] as int == n && d[1..1 + n] == h.name && d[1 + n..] == tail;
    SuffixSlice(data, offset, 1, 1 + n);
    assert data[offset + 1 + n..] == tail;
    assert tail[1..] == h.value.Body(c) + rest;
    assert data[offset + 1 + n + 1..] == h.value.Body(c) + rest;
  }

  /** One turn of the header loop. */
  lemma {:induction false} HeaderDecodes(c: Codec, data: seq<byte>, offset: nat, acc: Headers,
                                         name: seq<byte>, code: byte, tail: seq<byte>, read: Read)
    requires offset + |name| + 2 <= |data| && data[offset] as int == |name|
    requires data[offset + 1..offset + 1 + |name|] == name && data[offset + 1 + |name|] == code
    requires data[offset + 1 + |name| + 1..] == tail && ReadValue(c, code, tail) == Ok(read)
    ensures DecodeHeaders(c, data, offset, acc)
         == DecodeHeaders(c, data, offset + 1 + |name| + 1 + read.size, acc[c.utf8(name) := read.value])
  {
    hide ReadValue;
  }

  lemma {:induction false} FirstHeader(c: Codec, hs: seq<WireHeader>, acc: Headers)
    requires ValidHeaders(c, hs) && hs != []
    ensures hs[0].Valid(c) && hs[0].value.Valid(c) && ValidHeaders(c, hs[1..])
    ensures EncodeHeaders(c, hs) == hs[0].Encode(c) + EncodeHeaders(c, hs[1..])
    ensures HeaderRecord(c, hs, acc) == HeaderRecord(c, hs[1..], acc[c.utf8(hs[0].name) := hs[0].value.Meaning(c)])
  {
    hide WireValue.Meaning; hide WireHeader.Encode;
  }

  lemma {:induction false} HeadersRoundTrip(c: Codec, hs: seq<WireHeader>, data: seq<byte>, offset: nat, acc: Headers)
    requires ValidHeaders(c, hs)
    requires offset <= |data| && data[offset..] == EncodeHeaders(c, hs)
    ensures DecodeHeaders(c, data, offset, acc) == Ok(HeaderRecord(c, hs, acc))
    decreases |hs|
  {
    hide *;
    if hs == [] {
      NoHeaders(c, data, offset, acc);
    } else {
      var h := hs[0];
      FirstHeader(c, hs, acc);
      var rest := EncodeHeaders(c, hs[1..]);
      HeaderAt(c, h, data, offset, rest);
      ReadValueUndoesBody(c, h.value, rest);
      var code, body, value := h.value.TypeCode(), h.value.Body(c), h.value.Meaning(c);
      var next := offset + 1 + |h.name| + 1 + |body|;
      HeaderDecodes(c, data, offset, acc, h.name, code, body + rest, Read(value, |body|));
      HeadersRoundTrip(c, hs[1..], data, next, acc[c.utf8(h.name) := value]);
    }
  }

  lemma {:induction false} NoHeaders(c: Codec, data: seq<byte>, offset: nat, acc: Headers)
    requires offset <= |data| && data[offset..] == EncodeHeaders(c, [])
    ensures DecodeHeaders(c, data, offset, acc) == Ok(HeaderRecord(c, [], acc))
  {}

  lemma {:induction false} Slices(a: seq<byte>, b: seq<byte>, x: seq<byte>, h: seq<byte>, p: seq<byte>, y: seq<byte>)
    requires |a| == |b| == |x| == |y| == 4
    ensures
      var d := ((a + b) + x + h + p) + y;
      var n := |d|;
      && d[..4] == a && d[4..8] == b && d[..8] == a + b && d[8..12] == x
      && d[..n - 4] == (a + b) + x + h + p && d[n - 4..n] == y
      && d[12..12 + |h|] == h && d[12 + |h|..n - 4] == p
  {}

  /** Where the encoder puts each part. */
  lemma {:induction false} FrameLayout(h: seq<byte>, payload: seq<byte>)
    requires 16 + |h| + |payload| < TWO_TO_32
    ensures
      var d := Frame(h, payload);
      var total := |d|;
      && total == 16 + |h| + |payload|
      && Uint32(d[..4]) == total && Uint32(d[4..8]) == |h|
      && C.Crc(d[..8]) == Uint32(d[8..12])
      && C.Crc(d[..total - 4]) == Uint32(d[total - 4..total])
      && d[12..12 + |h|] == h && d[12 + |h|..total - 4] == payload
  {
    var lengths, size := Uint32Bytes(16 + |h| + |payload|), Uint32Bytes(|h|);
    var check := Uint32Bytes(C.Crc(lengths + size));
    var body := (lengths + size) + check + h + payload;
    Slices(lengths, size, check, h, payload, Uint32Bytes(C.Crc(body)));
  }

  lemma {:induction false} FrameDecodes(c: Codec, h: seq<byte>, payload: seq<byte>, headers: Headers)
    requires 16 + |h| + |payload| < TWO_TO_32
    requires DecodeHeaders(c, h, 0, map[]) == Ok(headers)
    ensures var d := Frame(h, payload);
      |d| == Uint32(d[..4]) && DecodeOne(c, d) == Ok(Message(headers, payload))
  {
    hide Frame; hide Uint32; hide C.Crc; hide DecodeHeaders;
    FrameLayout(h, payload);
  }

  /** Decoding undoes encoding, for every list of messages. */
  lemma {:induction false} StreamRoundTrip(c: Codec, ms: seq<WireMessage>)
    requires forall i :: 0 <= i < |ms| ==> ms[i].Valid(c)
    ensures Decode(c, EncodeAll(c, ms)) == Ok(Meanings(c, ms))
    decreases |ms|
  {
    if ms != [] {
      var d := ms[0].Encode(c);
      HeadersRoundTrip(c, ms[0].headers, EncodeHeaders(c, ms[0].headers), 0, map[]);
      FrameDecodes(c, EncodeHeaders(c, ms[0].headers), ms[0].payload, HeaderRecord(c, ms[0].headers, map[]));
      DecodeOneAlone(c, d);
      assert d[..|d|] == d;
      StreamRoundTrip(c, ms[1..]);
      DecodeAppend(c, d, EncodeAll(c, ms[1..]));
    }
  }

  /** With distinct names the decoded record holds exactly the headers that were sent. */
  lemma {:induction false} DistinctHeadersSurvive(c: Codec, hs: seq<WireHeader>, acc: Headers)
    requires ValidHeaders(c, hs)
    requires forall i, j :: 0 <= i < j < |hs| ==> c.utf8(hs[i].name) != c.utf8(hs[j].name)
    requires forall h :: h in hs ==> c.utf8(h.name) !in acc
    ensures var r := HeaderRecord(c, hs, acc);
      && (forall k :: k in acc ==> k in r && r[k] == acc[k])
      && (forall h :: h in hs ==> c.utf8(h.name) in r && r[c.utf8(h.name)] == h.value.Meaning(c))
      && (forall k :: k in r ==> k in acc || exists h :: h in hs && k == c.utf8(h.name))
    decreases |hs|
  {
    if hs != [] {
      DistinctHeadersSurvive(c, hs[1..], acc[c.utf8(hs[0].name) := hs[0].value.Meaning(c)]);
    }
  }
}
