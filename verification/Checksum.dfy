/** The table-driven CRC-32 of the event-stream decoder against the bit-at-a-time
    definition (RFC 1952, section 8), and what a changed byte does to it.
    A register is its unsigned value; `x >>> k` is `x / 2^k`, `x & 0xFF` is `x % 0x100`. */
module Checksum {
  import opened Bytes

  type word = x: int | 0 <= x < TWO_TO_32

  const POLYNOMIAL: word := 0xEDB8_8320
  const ALL_ONES: word := 0xFFFF_FFFF

  /** Exclusive or, bit by bit. */
  function Xor(x: nat, y: nat): (z: nat)
    ensures z == 0 <==> x == y
  {
    if x == 0 && y == 0 then 0
    else 2 * Xor(x / 2, y / 2) + (if x % 2 == y % 2 then 0 else 1)
  }

  lemma {:induction false} XorZero(x: nat)
    ensures Xor(x, 0) == x && Xor(0, x) == x
  {
    if x > 0 { XorZero(x / 2); }
  }

  lemma {:induction false} XorCommutes(x: nat, y: nat)
    ensures Xor(x, y) == Xor(y, x)
  {
    if x + y > 0 { XorCommutes(x / 2, y / 2); }
  }

  lemma {:induction false} XorAssociates(x: nat, y: nat, z: nat)
    ensures Xor(Xor(x, y), z) == Xor(x, Xor(y, z))
    decreases x + y + z
  {
    if x + y + z > 0 {
      XorAssociates(x / 2, y / 2, z / 2);
      XorHalves(x, y);
      XorHalves(y, z);
      XorHalves(Xor(x, y), z);
      XorHalves(x, Xor(y, z));
    }
  }

  lemma {:induction false} XorHalves(x: nat, y: nat)
    ensures Xor(x, y) / 2 == Xor(x / 2, y / 2)
    ensures Xor(x, y) % 2 == (if x % 2 == y % 2 then 0 else 1)
  {}

  /** Exclusive or cancels, so it is injective in each argument. */
  lemma {:induction false} XorCancels(x: nat, y: nat, z: nat)
    requires Xor(x, z) == Xor(y, z)
    ensures x == y
  {
    XorAssociates(x, z, z);
    XorAssociates(y, z, z);
    XorZero(x);
    XorZero(y);
  }

  lemma {:induction false} XorBound(x: nat, y: nat, k: nat)
    requires x < Pow2(k) && y < Pow2(k)
    ensures Xor(x, y) < Pow2(k)
  {
    if x + y > 0 { XorBound(x / 2, y / 2, k - 1); }
  }

  /** The top bit survives when the other operand lacks it. */
  lemma {:induction false} XorTopBit(x: nat, y: nat, k: nat)
    requires Pow2(k) <= x < Pow2(k + 1) && y < Pow2(k)
    ensures Xor(x, y) >= Pow2(k)
  {
    if k > 0 { XorTopBit(x / 2, y / 2, k - 1); }
    else { XorZero(1); }
  }

  lemma {:induction false} Pow2Values()
    ensures Pow2(8) == 0x100 && Pow2(31) == 0x8000_0000 && Pow2(32) == TWO_TO_32
  {
    assert Pow2(4) == 16;
    assert Pow2(8) == 256;
    assert Pow2(12) == 0x1000;
    assert Pow2(16) == 0x1_0000;
    assert Pow2(20) == 0x10_0000;
    assert Pow2(24) == 0x100_0000;
    assert Pow2(28) == 0x1000_0000;
  }

  function XorWord(x: word, y: word): (z: word)
    ensures z == Xor(x, y)
  {
    Pow2Values();
    XorBound(x, y, 32);
    Xor(x, y)
  }

  // ----- the reference: one bit at a time -----

  /** One shift of the register. */
  function Shift(r: word): word {
    if r % 2 == 1 then XorWord(POLYNOMIAL, r / 2) else r / 2
  }

  function Shifts(r: word, n: nat): word {
    if n == 0 then r else Shift(Shifts(r, n - 1))
  }

  /** Feed one byte to the register, bit by bit. */
  function Feed(r: word, b: byte): word {
    Shifts(XorWord(r, b as int), 8)
  }

  function FeedAll(r: word, data: seq<byte>): word
    decreases data
  {
    if data == [] then r else FeedAll(Feed(r, data[0]), data[1..])
  }

  /** The CRC-32 of a byte string. */
  function Crc(data: seq<byte>): word {
    XorWord(FeedAll(ALL_ONES, data), ALL_ONES)
  }

  // ----- the shift is linear, so a byte can go through a table -----

  lemma {:induction false} ShiftLinear(x: word, y: word)
    ensures Shift(XorWord(x, y)) == XorWord(Shift(x), Shift(y))
  {
    XorHalves(x, y);
    var p, a, b := POLYNOMIAL, x / 2, y / 2;
    XorAssociates(p, a, b);
    XorAssociates(a, p, b);
    XorCommutes(p, a);
    if x % 2 == 1 && y % 2 == 1 {
      XorAssociates(Xor(a, p), p, b);
      XorAssociates(a, p, p);
      XorZero(a);
    }
  }

  lemma {:induction false} ShiftsLinear(x: word, y: word, n: nat)
    ensures Shifts(XorWord(x, y), n) == XorWord(Shifts(x, n), Shifts(y, n))
  {
    if n > 0 {
      ShiftsLinear(x, y, n - 1);
      ShiftLinear(Shifts(x, n - 1), Shifts(y, n - 1));
    }
  }

  /** A register whose low bits are clear only moves down. */
  lemma {:induction false} ShiftsClear(x: word, h: nat, n: nat)
    requires x == h * Pow2(n)
    ensures Shifts(x, n) == h
    decreases n
  {
    if n > 0 {
      assert x == 2 * h * Pow2(n - 1);
      ShiftsClear(x, 2 * h, n - 1);
    }
  }

  lemma {:induction false} Doubled(h: nat, k: nat)
    requires k > 0
    ensures h * Pow2(k) == 2 * (h * Pow2(k - 1)) && Pow2(k) == 2 * Pow2(k - 1)
  {}

  lemma {:induction false} XorDouble(m: nat, l: nat)
    requires Xor(m, l / 2) == m + l / 2
    ensures Xor(2 * m, l) == 2 * m + l
  {
    XorHalves(2 * m, l);
    hide Xor;
  }

  /** High and low bits do not meet. */
  lemma {:induction false} XorSplit(h: nat, l: nat, k: nat)
    requires l < Pow2(k)
    ensures Xor(h * Pow2(k), l) == h * Pow2(k) + l
  {
    if k == 0 {
      XorZero(h);
    } else {
      var m := h * Pow2(k - 1);
      Doubled(h, k);
      XorSplit(h, l / 2, k - 1);
      XorDouble(m, l);
    }
  }

  /** One table lookup does the work of eight shifts. */
  lemma {:induction false} TableStep(r: word)
    ensures Shifts(r, 8) == XorWord(Shifts(r % 0x100, 8), r / 0x100)
  {
    Pow2Values();
    var h, l := r / 0x100, r % 0x100;
    XorSplit(h, l, 8);
    ShiftsLinear(h * 0x100, l, 8);
    ShiftsClear(h * 0x100, h, 8);
    XorCommutes(h, Shifts(l, 8));
  }

  /** The low byte of `register ^ byte`, and the rest of it. */
  lemma {:induction false} XorByte(r: word, b: byte)
    ensures XorWord(r, b as int) / 0x100 == r / 0x100
  {
    Pow2Values();
    var h, l := r / 0x100, r % 0x100;
    XorSplit(h, l, 8);
    XorAssociates(h * 0x100, l, b as int);
    XorBound(l, b as int, 8);
    XorSplit(h, Xor(l, b as int), 8);
  }

  // ----- the code: a table of 256 entries, then one lookup per byte -----

  /** CRC32_TABLE holds eight shifts of every byte value. */
  predicate IsTable(t: seq<word>) {
    |t| == 256 && forall i :: 0 <= i < 256 ==> t[i] == Shifts(i, 8)
  }

  /** The nested loops that fill CRC32_TABLE. */
  method BuildTable() returns (table: array<word>)
    ensures fresh(table) && IsTable(table[..])
  {
    table := new word[256];
    var index := 0;
    while index < table.Length
      invariant 0 <= index <= 256
      invariant forall i :: 0 <= i < index ==> table[i] == Shifts(i, 8)
    {
      var value: word := index;
      var bit := 0;
      while bit < 8
        invariant 0 <= bit <= 8
        invariant value == Shifts(index, bit)
      {
        value := if value % 2 == 1 then XorWord(POLYNOMIAL, value / 2) else value / 2;
        bit := bit + 1;
      }
      table[index] := value;
      index := index + 1;
    }
  }

  /** The loop of `crc32`. */
  method Crc32(table: seq<word>, data: seq<byte>) returns (crc: word)
    requires IsTable(table)
    ensures crc == Crc(data)
  {
    crc := ALL_ONES;
    var i := 0;
    while i < |data|
      invariant 0 <= i <= |data|
      invariant FeedAll(crc, data[i..]) == FeedAll(ALL_ONES, data)
    {
      ghost var before := crc;
      XorByte(crc, data[i]);
      TableStep(XorWord(crc, data[i] as int));
      crc := XorWord(table[XorWord(crc, data[i] as int) % 0x100], crc / 0x100);
      assert crc == Feed(before, data[i]);
      assert data[i..][1..] == data[i + 1..];
      i := i + 1;
    }
    crc := XorWord(crc, ALL_ONES);
  }

  // ----- what a changed byte does -----

  /** The shift can be undone: its top bit tells which branch was taken. */
  lemma {:induction false} ShiftInjective(x: word, y: word)
    requires Shift(x) == Shift(y)
    ensures x == y
  {
    Pow2Values();
    assert Pow2(32) == 2 * Pow2(31);
    XorTopBit(POLYNOMIAL, x / 2, 31);
    XorTopBit(POLYNOMIAL, y / 2, 31);
    XorCommutes(POLYNOMIAL, x / 2);
    XorCommutes(POLYNOMIAL, y / 2);
    if x % 2 == 1 && y % 2 == 1 {
      XorCancels(x / 2, y / 2, POLYNOMIAL);
    }
  }

  lemma {:induction false} ShiftsInjective(x: word, y: word, n: nat)
    requires Shifts(x, n) == Shifts(y, n)
    ensures x == y
  {
    if n > 0 {
      ShiftInjective(Shifts(x, n - 1), Shifts(y, n - 1));
      ShiftsInjective(x, y, n - 1);
    }
  }

  /** The register update is injective in the register and in the byte. */
  lemma {:induction false} FeedInjective(r: word, s: word, a: byte, b: byte)
    requires Feed(r, a) == Feed(s, b)
    ensures a == b <==> r == s
  {
    ShiftsInjective(XorWord(r, a as int), XorWord(s, b as int), 8);
    if a == b {
      XorCancels(r, s, a as int);
    } else if r == s {
      XorCommutes(r, a as int);
      XorCommutes(s, b as int);
      XorCancels(a as int, b as int, r);
    }
  }

  /** Undo one shift: the top bit of the result tells which branch was taken. */
  function Unshift(y: word): word {
    if y >= 0x8000_0000 then UnshiftHigh(y); 2 * XorWord(POLYNOMIAL, y) + 1 else 2 * y
  }

  lemma {:induction false} UnshiftHigh(y: word)
    requires y >= 0x8000_0000
    ensures Xor(POLYNOMIAL, y) < 0x8000_0000
  {
    Pow2Values();
    var p: nat, q: nat := POLYNOMIAL - 0x8000_0000, y - 0x8000_0000;
    XorSplit(1, p, 31);
    XorSplit(1, q, 31);
    XorAssociates(Pow2(31), p, Xor(Pow2(31), q));
    XorAssociates(p, Pow2(31), q);
    XorCommutes(p, Pow2(31));
    XorAssociates(Pow2(31), p, q);
    XorAssociates(Pow2(31), Pow2(31), Xor(p, q));
    XorZero(Xor(p, q));
    XorBound(p, q, 31);
  }

  function Unshifts(y: word, n: nat): word
    decreases n
  {
    if n == 0 then y else Unshifts(Unshift(y), n - 1)
  }

  lemma {:induction false} ShiftsUnshifts(y: word, n: nat)
    ensures Shifts(Unshifts(y, n), n) == y
    decreases n
  {
    if n > 0 {
      ShiftsUnshifts(Unshift(y), n - 1);
      ShiftUnshift(y);
      hide Shift; hide Unshift;
    }
  }

  lemma {:induction false} ShiftUnshift(y: word)
    ensures Shift(Unshift(y)) == y
  {
    hide Xor;
    if y >= 0x8000_0000 {
      UnshiftHigh(y);
      XorAssociates(POLYNOMIAL, POLYNOMIAL, y);
      XorZero(POLYNOMIAL);
      XorZero(y);
    }
  }

  /** Every register value is reached from exactly one register by feeding `b`. */
  lemma {:induction false} FeedBijective(y: word, b: byte)
    ensures var r := XorWord(Unshifts(y, 8), b as int);
            Feed(r, b) == y && forall s: word :: Feed(s, b) == y ==> s == r
  {
    var u := Unshifts(y, 8);
    ShiftsUnshifts(y, 8);
    XorAssociates(u, b as int, b as int);
    XorZero(u);
    forall s: word | Feed(s, b) == y ensures s == XorWord(u, b as int) {
      FeedInjective(s, XorWord(u, b as int), b, b);
    }
  }

  lemma {:induction false} FeedAllInjective(r: word, s: word, data: seq<byte>)
    requires FeedAll(r, data) == FeedAll(s, data)
    ensures r == s
    decreases data
  {
    if data != [] {
      FeedAllInjective(Feed(r, data[0]), Feed(s, data[0]), data[1..]);
      FeedInjective(r, s, data[0], data[0]);
    }
  }

  lemma {:induction false} FeedAllAppend(r: word, a: seq<byte>, b: seq<byte>)
    ensures FeedAll(r, a + b) == FeedAll(FeedAll(r, a), b)
    decreases a
  {
    if a == [] {
      assert a + b == b;
    } else {
      FeedAllAppend(Feed(r, a[0]), a[1..], b);
      assert (a + b)[1..] == a[1..] + b;
    }
  }

  /** Changing one byte anywhere always changes the checksum. */
  lemma {:induction false} ChangedByteChangesCrc(data: seq<byte>, i: nat, b: byte)
    requires i < |data| && data[i] != b
    ensures Crc(data[i := b]) != Crc(data)
  {
    var before, after := data[..i], data[i + 1..];
    assert data == before + ([data[i]] + after);
    assert data[i := b] == before + ([b] + after);
    var r := FeedAll(ALL_ONES, before);
    FeedAllAppend(ALL_ONES, before, [data[i]] + after);
    FeedAllAppend(ALL_ONES, before, [b] + after);
    assert ([data[i]] + after)[1..] == after && ([b] + after)[1..] == after;
    if Crc(data[i := b]) == Crc(data) {
      XorCancels(FeedAll(ALL_ONES, data[i := b]), FeedAll(ALL_ONES, data), ALL_ONES);
      FeedAllInjective(Feed(r, b), Feed(r, data[i]), after);
      FeedInjective(r, r, b, data[i]);
    }
  }

  // ----- known answers -----

  /** What decides every shift: an even register halves, and a lone low bit becomes the polynomial whose bits
      RFC 1952 lists, highest power lowest. */
  lemma {:induction false} ShiftIs(x: word)
    ensures x % 2 == 0 ==> Shift(x) == x / 2
    ensures Shift(1) == 0xEDB8_8320
    ensures x % 2 == 1 ==> Shift(x) == XorWord(0xEDB8_8320, Shift(x - 1))
  {
    hide Xor;
    XorZero(POLYNOMIAL);
    assert x % 2 == 1 ==> (x - 1) / 2 == x / 2;
  }

  /** The byte 0xFF against low bits that are all ones. */
  lemma {:induction false} FeedOnes(h: nat)
    requires h < 0x100_0000
    ensures Feed(0x100 * h + 0xFF, 0xFF) == h
  {
    Pow2Values();
    XorSplit(h, 0xFF, 8);
    XorAssociates(0x100 * h, 0xFF, 0xFF);
    XorZero(0x100 * h);
    hide Xor; hide Shifts;
    assert XorWord(0x100 * h + 0xFF, 0xFF) == 0x100 * h;
    ShiftsClear(0x100 * h, h, 8);
  }

  /** The checksums of no bytes, of the byte 0xFF and of two such bytes. */
  lemma {:induction false} KnownAnswers()
    ensures Crc([]) == 0 && Crc([0xFF]) == 0xFF00_0000 && Crc([0xFF, 0xFF]) == 0xFFFF_0000
  {
    hide Xor; hide Feed;
    FeedOnes(0xFF_FFFF);
    FeedOnes(0xFFFF);
    PowersOfBytes();
    Complement(0xFF, 0x100_0000, 24);
    Complement(0xFFFF, 0x1_0000, 16);
    var one, two: seq<byte> := [0xFF], [0xFF, 0xFF];
    assert one[1..] == [] && two[1..] == one;
    assert FeedAll(0xFF_FFFF, one) == FeedAll(0xFFFF, []);
  }

  lemma {:induction false} PowersOfBytes()
    ensures Pow2(16) == 0x1_0000 && Pow2(24) == 0x100_0000
  {
    assert Pow2(4) == 16;
    assert Pow2(8) == 256;
    assert Pow2(12) == 0x1000;
    assert Pow2(20) == 0x10_0000;
  }

  /** Ones above ones. */
  lemma {:induction false} Complement(h: nat, p: nat, k: nat)
    requires p == Pow2(k) && h * p + p - 1 == ALL_ONES
    ensures Xor(p - 1, ALL_ONES) == h * p
  {
    var low: nat := p - 1;
    XorSplit(h, low, k);
    XorCommutes(h * p, low);
    XorAssociates(low, low, h * p);
    XorZero(h * p);
  }
}
