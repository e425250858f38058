/** The Connect protocol's enveloped messages: a flags byte, a four-byte length, a payload. */
module ConnectEnvelope {
  import opened Bytes
  import ProtoWire

  datatype ConnectFrame = ConnectFrame(
    index: nat, compressed: bool, offset: nat, frameByteLength: nat, byteLength: nat,
    frame: seq<byte>, payload: seq<byte>, proto: Option<ProtoWire.ProtoMessage>)

  /** gunzip, and the text heuristic of the protobuf reader, come from outside. */
  datatype Tools = Tools(gunzip: seq<byte> -> Option<seq<byte>>, texts: ProtoWire.Texts)

  predicate IsGzip(payload: seq<byte>) {
    |payload| >= 2 && payload[0] == 0x1f && payload[1] == 0x8b
  }

  /** Payloads that do not unzip stay as they are. */
  function DecodePayload(x: Tools, payload: seq<byte>, compressed: bool): seq<byte> {
    if !compressed && !IsGzip(payload) then payload
    else match x.gunzip(payload)
      case Some(plain) => plain
      case None => payload
  }

  /** The record of the frame `bytes`, the index-th one, found at `offset`. */
  function FrameOf(x: Tools, bytes: seq<byte>, offset: nat, index: nat): (f: ConnectFrame)
    requires |bytes| >= 5
  {
    var compressed := bytes[0] % 2 == 1;
    var payload := DecodePayload(x, bytes[5..], compressed);
    ConnectFrame(index, compressed, offset, |bytes|, |payload|, bytes, payload,
                 ProtoWire.Message(x.texts, payload, [ProtoWire.Frame(index)], 0))
  }

  function ParseFrom(x: Tools, b: seq<byte>, offset: nat, index: nat): Option<seq<ConnectFrame>>
    requires offset <= |b|
    decreases |b| - offset
  {
    if offset == |b| then Some([])
    else if offset + 5 > |b| then None
    else
      var end := offset + 5 + Uint32(b[offset + 1..offset + 5]);
      if end > |b| then None
      else match ParseFrom(x, b, end, index + 1)
        case None => None
        case Some(fs) => Some([FrameOf(x, b[offset..end], offset, index)] + fs)
  }

  function Parse(x: Tools, b: seq<byte>): Option<seq<ConnectFrame>> {
    if |b| < 5 then None else ParseFrom(x, b, 0, 0)
  }

  function Prepend(fs: seq<ConnectFrame>, r: Option<seq<ConnectFrame>>): Option<seq<ConnectFrame>> {
    match r
    case None => None
    case Some(gs) => Some(fs + gs)
  }

  lemma {:induction false} PrependStep(fs: seq<ConnectFrame>, f: ConnectFrame, r: Option<seq<ConnectFrame>>)
    ensures Prepend(fs, Prepend([f], r)) == Prepend(fs + [f], r)
    ensures Prepend([], r) == r
  {
    if r.Some? {
      assert fs + ([f] + r.value) == (fs + [f]) + r.value;
      assert [] + r.value == r.value;
    }
  }

  /** The loop of `parseConnectEnvelope`. */
  method ParseConnectEnvelope(x: Tools, b: seq<byte>) returns (r: Option<seq<ConnectFrame>>)
    ensures r == Parse(x, b)
  {
    hide DecodePayload; hide ProtoWire.Message; hide Uint32;
    if |b| < 5 {
      return None;
    }
    var frames: seq<ConnectFrame> := [];
    var offset := 0;
    var index := 0;
    if ParseFrom(x, b, 0, 0).Some? { assert [] + ParseFrom(x, b, 0, 0).value == ParseFrom(x, b, 0, 0).value; }
    while offset + 5 <= |b|
      invariant 0 <= offset <= |b| && index == |frames|
      invariant offset > 0 ==> frames != []
      invariant Prepend(frames, ParseFrom(x, b, offset, index)) == Parse(x, b)
      decreases |b| - offset
    {
      var frameOffset := offset;
      var flags := b[offset];
      var length := Uint32(b[offset + 1..offset + 5]);
      offset := offset + 5;
      if offset + length > |b| {
        return None;
      }
      var compressed := flags % 2 == 1;
      var payload := DecodePayload(x, b[offset..offset + length], compressed);
      assert b[frameOffset..offset + length][5..] == b[offset..offset + length];
      offset := offset + length;
      var proto := ProtoWire.DecodeProtoMessage(x.texts, payload, [ProtoWire.Frame(index)], 0);
      var frame := b[frameOffset..offset];
      var record := ConnectFrame(index, compressed, frameOffset, |frame|, |payload|, frame, payload, proto);
      assert record == FrameOf(x, frame, frameOffset, index);
      PrependStep(frames, record, ParseFrom(x, b, offset, index + 1));
      frames := frames + [record];
      index := index + 1;
    }
    if offset != |b| || |frames| == 0 {
      return None;
    }
    assert frames + [] == frames;
    return Some(frames);
  }

  // ----- what success means -----

  /** Five prefix bytes and exactly as many payload bytes as they announce. */
  predicate Complete(f: seq<byte>) {
    |f| >= 5 && Uint32(f[1..5]) == |f| - 5
  }

  predicate AllComplete(fs: seq<seq<byte>>) {
    forall i :: 0 <= i < |fs| ==> Complete(fs[i])
  }

  function Frames(fs: seq<ConnectFrame>): (r: seq<seq<byte>>)
    ensures |r| == |fs| && forall i :: 0 <= i < |fs| ==> r[i] == fs[i].frame
  {
    seq(|fs|, i requires 0 <= i < |fs| => fs[i].frame)
  }

  /** The records follow each other without gap or overlap from `offset` to `end`, numbered from `index`. */
  predicate Partition(b: seq<byte>, fs: seq<ConnectFrame>, offset: nat, index: nat, end: nat) {
    if fs == [] then offset == end
    else
      var f := fs[0];
      && f.offset == offset && f.index == index
      && f.frameByteLength == |f.frame| && offset + |f.frame| <= |b|
      && f.frame == b[offset..offset + |f.frame|]
      && Partition(b, fs[1..], offset + |f.frame|, index + 1, end)
  }

  /** The offsets and lengths partition the buffer, and the frames put it back together. */
  lemma {:induction false} FramesPartition(x: Tools, b: seq<byte>, offset: nat, index: nat)
    requires offset <= |b| && ParseFrom(x, b, offset, index).Some?
    ensures var fs := ParseFrom(x, b, offset, index).value;
      Partition(b, fs, offset, index, |b|) && Concat(Frames(fs)) == b[offset..] && AllComplete(Frames(fs))
    decreases |b| - offset
  {
    hide DecodePayload; hide ProtoWire.Message; hide Uint32;
    if offset < |b| {
      var end := offset + 5 + Uint32(b[offset + 1..offset + 5]);
      FramesPartition(x, b, end, index + 1);
      var fs := ParseFrom(x, b, offset, index).value;
      var f := b[offset..end];
      assert f[1..5] == b[offset + 1..offset + 5];
      assert Frames(fs)[0] == f && Frames(fs)[1..] == Frames(fs[1..]);
      assert f + b[end..] == b[offset..];
    }
  }

  /** Any run of complete frames parses, and into exactly those frames. */
  lemma {:induction false} CompleteFramesParse(x: Tools, b: seq<byte>, fs: seq<seq<byte>>, offset: nat, index: nat)
    requires AllComplete(fs) && offset <= |b| && b[offset..] == Concat(fs)
    ensures var r := ParseFrom(x, b, offset, index); r.Some? && Frames(r.value) == fs
    decreases |fs|
  {
    hide DecodePayload; hide ProtoWire.Message; hide Uint32;
    if fs != [] {
      var f, rest := fs[0], Concat(fs[1..]);
      assert b[offset..] == f + rest;
      var end := offset + |f|;
      assert b[offset..end] == f && b[end..] == rest;
      assert b[offset + 1..offset + 5] == f[1..5];
      CompleteFramesParse(x, b, fs[1..], end, index + 1);
      var r := ParseFrom(x, b, offset, index);
      assert r == Some([FrameOf(x, f, offset, index)] + ParseFrom(x, b, end, index + 1).value);
    }
  }

  /** The parser succeeds exactly on the non-empty runs of complete frames. */
  lemma {:induction false} ParsesIffFrames(x: Tools, b: seq<byte>)
    ensures Parse(x, b).Some? <==> exists fs :: fs != [] && AllComplete(fs) && Concat(fs) == b
  {
    assert b[0..] == b;
    if Parse(x, b).Some? {
      FramesPartition(x, b, 0, 0);
      var fs := Frames(Parse(x, b).value);
      assert fs != [] && AllComplete(fs) && Concat(fs) == b;
    }
    if fs :| fs != [] && AllComplete(fs) && Concat(fs) == b {
      CompleteFramesParse(x, b, fs, 0, 0);
      assert |b| >= |fs[0]| >= 5;
    }
  }

  /** The split into frames is unique, and a successful parse finds it. */
  lemma {:induction false} ParseFindsFrames(x: Tools, fs: seq<seq<byte>>)
    requires fs != [] && AllComplete(fs)
    ensures var r := Parse(x, Concat(fs));
      r.Some? && Frames(r.value) == fs && Partition(Concat(fs), r.value, 0, 0, |Concat(fs)|)
  {
    var b := Concat(fs);
    assert b[0..] == b;
    CompleteFramesParse(x, b, fs, 0, 0);
    FramesPartition(x, b, 0, 0);
    assert |b| >= |fs[0]| >= 5;
  }
}
