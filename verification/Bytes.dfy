/** Octets, big-endian numbers and the small types shared by the wire decoders. */
module Bytes {
  datatype Option<+T> = None | Some(value: T)

  datatype Result<+T, +E> = Ok(value: T) | Err(error: E)

  newtype byte = x: int | 0 <= x < 0x100

  const TWO_TO_32: int := 0x1_0000_0000

  /** Buffer.readUInt16BE on two bytes. */
  function Uint16(b: seq<byte>): (n: nat)
    requires |b| == 2
    ensures n < 0x1_0000
  {
    b[0] as int * 0x100 + b[1] as int
  }

  /** Buffer.readUInt32BE on four bytes. */
  function Uint32(b: seq<byte>): (n: nat)
    requires |b| == 4
    ensures n < TWO_TO_32
  {
    b[0] as int * 0x100_0000 + b[1] as int * 0x1_0000 + b[2] as int * 0x100 + b[3] as int
  }

  function Uint16Bytes(n: nat): (b: seq<byte>)
    requires n < 0x1_0000
    ensures |b| == 2 && Uint16(b) == n
  {
    [(n / 0x100) as byte, (n % 0x100) as byte]
  }

  function Uint32Bytes(n: nat): (b: seq<byte>)
    requires n < TWO_TO_32
    ensures |b| == 4 && Uint32(b) == n
  {
    assert n / 0x1_0000 == 0x100 * (n / 0x100_0000) + n / 0x1_0000 % 0x100;
    assert n / 0x100 == 0x100 * (n / 0x1_0000) + n / 0x100 % 0x100;
    [(n / 0x100_0000) as byte, (n / 0x1_0000 % 0x100) as byte, (n / 0x100 % 0x100) as byte, (n % 0x100) as byte]
  }

  lemma {:induction false} Uint32Injective(a: seq<byte>, b: seq<byte>)
    requires |a| == |b| == 4 && Uint32(a) == Uint32(b)
    ensures a == b
  {
    assert Uint32(a) / 0x100_0000 == a[0] as int && Uint32(b) / 0x100_0000 == b[0] as int;
    assert a[0] == b[0];
    assert a[1] as int * 0x1_0000 + Uint16(a[2..]) == b[1] as int * 0x1_0000 + Uint16(b[2..]);
    assert a[1] == b[1];
    assert a[2] == b[2] && a[3] == b[3];
  }

  /** The two's-complement reading of an unsigned number out of `range`. */
  function Signed(n: nat, range: nat): (i: int)
    requires n < range && range % 2 == 0
    ensures -(range / 2) <= i < range / 2
  {
    if n < range / 2 then n else n - range
  }

  function Unsigned(i: int, range: nat): (n: nat)
    requires range % 2 == 0 && -(range / 2) <= i < range / 2
    ensures n < range && Signed(n, range) == i
  {
    if i < 0 then i + range else i
  }

  /** Buffer.subarray: both ends clamp to the buffer. */
  function Subarray(b: seq<byte>, from: nat, to: nat): (r: seq<byte>)
    requires from <= to
    ensures to <= |b| ==> r == b[from..to]
  {
    var lo := if from < |b| then from else |b|;
    var hi := if to < |b| then to else |b|;
    b[lo..hi]
  }

  function Pow2(k: nat): (p: nat)
    ensures p > 0
  {
    if k == 0 then 1 else 2 * Pow2(k - 1)
  }

  /** Everything in `parts`, in order. */
  function Concat<T>(parts: seq<seq<T>>): seq<T> {
    if parts == [] then [] else parts[0] + Concat(parts[1..])
  }

  lemma {:induction false} ConcatAppend<T>(xs: seq<seq<T>>, ys: seq<seq<T>>)
    ensures Concat(xs + ys) == Concat(xs) + Concat(ys)
  {
    if xs == [] {
      assert xs + ys == ys;
    } else {
      ConcatAppend(xs[1..], ys);
      assert (xs + ys)[0] == xs[0] && (xs + ys)[1..] == xs[1..] + ys;
      assert xs[0] + (Concat(xs[1..]) + Concat(ys)) == (xs[0] + Concat(xs[1..])) + Concat(ys);
    }
  }
}
