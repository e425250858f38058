/** What the records of Connect frames say of the frames: the flag bit, the unzipped payload, and the
    messages that were sent in them. */
module ConnectRoundTrip {
  import opened Bytes
  import opened ProtoWire
  import opened ProtoRoundTrip
  import opened ConnectEnvelope

  // ----- each record -----

  /** The payload is unzipped when the flag or the two magic bytes ask for it and it does unzip. */
  ghost predicate Told(x: Tools, f: ConnectFrame) {
    && |f.frame| >= 5
    && var raw := f.frame[5..];
       && (f.compressed <==> f.frame[0] as int % 2 == 1)
       && (if (f.compressed || (|raw| >= 2 && raw[0] == 0x1f && raw[1] == 0x8b)) && x.gunzip(raw).Some?
           then f.payload == x.gunzip(raw).value else f.payload == raw)
       && f.byteLength == |f.payload| && f.frameByteLength == |f.frame|
       && f.proto == Message(x.texts, f.payload, [Frame(f.index)], 0)
  }

  lemma {:induction false} FramesAreTold(x: Tools, b: seq<byte>, offset: nat, index: nat)
    requires offset <= |b| && ParseFrom(x, b, offset, index).Some?
    ensures var fs := ParseFrom(x, b, offset, index).value; forall i :: 0 <= i < |fs| ==> Told(x, fs[i])
    decreases |b| - offset
  {
    hide Message; hide Uint32; hide Told;
    if offset < |b| {
      var end := offset + 5 + Uint32(b[offset + 1..offset + 5]);
      FramesAreTold(x, b, end, index + 1);
      FrameIsTold(x, b[offset..end], offset, index);
    }
  }

  lemma {:induction false} FrameIsTold(x: Tools, bytes: seq<byte>, offset: nat, index: nat)
    requires |bytes| >= 5
    ensures Told(x, FrameOf(x, bytes, offset, index))
  {
    hide Message;
  }

  /** Every frame of a successful parse tells its flag, its payload and its message. */
  lemma {:induction false} ParsedFramesAreTold(x: Tools, b: seq<byte>)
    requires Parse(x, b).Some?
    ensures forall i :: 0 <= i < |Parse(x, b).value| ==> Told(x, Parse(x, b).value[i])
  {
    hide ParseFrom; hide Told;
    FramesAreTold(x, b, 0, 0);
  }

  // ----- what was sent arrives -----

  /** A message, the flags byte, and the payload that stands for it: its encoding, or that zipped. */
  datatype Packet = Packet(ts: seq<Tree>, flags: byte, raw: seq<byte>)

  ghost predicate ValidPacket(x: Tools, p: Packet) {
    var b := EncodeAll(Wires(p.ts));
    && 1 <= |p.ts| <= MAX_FIELDS && (forall i :: 0 <= i < |p.ts| ==> ValidTree(p.ts[i]) && Fits(p.ts[i], 0))
    && (PlainPacket(x, p, b) || ZippedPacket(x, p, b))
  }

  /** Without the flag, or with one that gunzip does not follow. */
  predicate PlainPacket(x: Tools, p: Packet, b: seq<byte>) {
    p.raw == b && (p.flags as int % 2 == 0 || x.gunzip(b).None?)
  }

  /** Any zip that gunzip undoes, flagged or known by its first two bytes. */
  predicate ZippedPacket(x: Tools, p: Packet, b: seq<byte>) {
    x.gunzip(p.raw) == Some(b) && (p.flags as int % 2 == 1 || (|p.raw| >= 2 && p.raw[0] == 0x1f && p.raw[1] == 0x8b))
  }

  function FrameBytes(p: Packet): seq<byte>
    requires |p.raw| < TWO_TO_32
  {
    [p.flags] + Uint32Bytes(|p.raw|) + p.raw
  }

  function AllFrames(ps: seq<Packet>): (fs: seq<seq<byte>>)
    requires forall i :: 0 <= i < |ps| ==> |ps[i].raw| < TWO_TO_32
    ensures |fs| == |ps| && forall i :: 0 <= i < |ps| ==> fs[i] == FrameBytes(ps[i])
  {
    seq(|ps|, i requires 0 <= i < |ps| => FrameBytes(ps[i]))
  }

  lemma {:induction false} FrameIsComplete(p: Packet)
    requires |p.raw| < TWO_TO_32
    ensures var f := FrameBytes(p); Complete(f) && f[0] == p.flags && f[5..] == p.raw
  {
    var f := FrameBytes(p);
    assert f[1..5] == Uint32Bytes(|p.raw|);
  }

  /** No encoded message looks zipped: its first byte would be a key of wire type 7. */
  lemma {:induction false} NeverGzip(ws: seq<WireField>)
    requires ws != []
    ensures var b := EncodeAll(ws); b != [] && b[0] != 0x1f
  {
    var w := ws[0];
    var key := 8 * w.number + w.WireType();
    var e := EncodeVarint(key);
    assert EncodeAll(ws)[0] == EncodeWire(w)[0] == e[0];
    if key < 0x80 {
      assert key % 8 == w.WireType() && 0x1f % 8 == 7;
    } else {
      assert e[0] as int >= 0x80;
    }
  }

  lemma {:induction false} PacketArrives(x: Tools, p: Packet, f: ConnectFrame)
    requires |p.raw| < TWO_TO_32 && ValidPacket(x, p) && f.frame == FrameBytes(p) && Told(x, f)
    ensures var b := EncodeAll(Wires(p.ts));
      && f.payload == b && (f.compressed <==> p.flags as int % 2 == 1)
      && f.proto.Some? && MatchesAll(x.texts, f.proto.value, p.ts, [Frame(f.index)], |b|)
  {
    hide Message; hide EncodeAll; hide Wires; hide ValidTree; hide Fits; hide MatchesAll; hide FrameBytes;
    FrameIsComplete(p);
    NeverGzip(Wires(p.ts));
    ForestRoundTrip(x.texts, p.ts, [Frame(f.index)]);
  }

  /** Frames built from messages, plain or zipped, come back as frames of the same number and order, each
      with its message. */
  lemma {:induction false} SentFramesArrive(x: Tools, ps: seq<Packet>)
    requires ps != [] && forall i :: 0 <= i < |ps| ==> |ps[i].raw| < TWO_TO_32 && ValidPacket(x, ps[i])
    ensures var r := Parse(x, Concat(AllFrames(ps)));
      && r.Some? && |r.value| == |ps|
      && forall i :: 0 <= i < |ps| ==>
           var f, b := r.value[i], EncodeAll(Wires(ps[i].ts));
           && f.index == i && f.frame == FrameBytes(ps[i]) && f.payload == b && f.byteLength == |b|
           && (f.compressed <==> ps[i].flags as int % 2 == 1)
           && f.proto.Some? && MatchesAll(x.texts, f.proto.value, ps[i].ts, [Frame(i)], |b|)
  {
    hide Parse; hide ValidPacket; hide EncodeAll; hide Wires; hide MatchesAll; hide FrameBytes; hide Told; hide Message;
    var fs := AllFrames(ps);
    forall i | 0 <= i < |fs| ensures Complete(fs[i]) { FrameIsComplete(ps[i]); }
    ParseFindsFrames(x, fs);
    var r := Parse(x, Concat(fs)).value;
    ParsedFramesAreTold(x, Concat(fs));
    forall i | 0 <= i < |ps|
      ensures var f, b := r[i], EncodeAll(Wires(ps[i].ts));
        && f.index == i && f.frame == FrameBytes(ps[i]) && f.payload == b && f.byteLength == |b|
        && (f.compressed <==> ps[i].flags as int % 2 == 1)
        && f.proto.Some? && MatchesAll(x.texts, f.proto.value, ps[i].ts, [Frame(i)], |b|)
    {
      assert Frames(r)[i] == fs[i];
      PacketArrives(x, ps[i], r[i]);
      NumberedInOrder(Concat(fs), r, 0, 0, |Concat(fs)|, i);
      LengthTold(x, r[i]);
    }
  }

  lemma {:induction false} LengthTold(x: Tools, f: ConnectFrame)
    requires Told(x, f)
    ensures f.byteLength == |f.payload|
  {}

  lemma {:induction false} NumberedInOrder(b: seq<byte>, fs: seq<ConnectFrame>, offset: nat, index: nat, end: nat,
                                           i: nat)
    requires Partition(b, fs, offset, index, end) && i < |fs|
    ensures fs[i].index == index + i
    decreases |fs|
  {
    if i > 0 { NumberedInOrder(b, fs[1..], offset + |fs[0].frame|, index + 1, end, i - 1); }
  }
}
