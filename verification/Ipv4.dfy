/** Dotted-quad IPv4 text and its number: two maps that undo each other. */
module Ipv4 {
  import opened Bytes
  import opened Numerals

  // ----- split and join -----

  /** String.split on one character. */
  function Split(s: string, c: char): (parts: seq<string>)
    ensures parts != []
  {
    if s == "" then [""]
    else if s[0] == c then [""] + Split(s[1..], c)
    else
      var rest := Split(s[1..], c);
      [[s[0]] + rest[0]] + rest[1..]
  }

  function Join(parts: seq<string>, c: char): string
    requires parts != []
  {
    if |parts| == 1 then parts[0] else parts[0] + [c] + Join(parts[1..], c)
  }

  lemma {:induction false} JoinSplit(s: string, c: char)
    ensures Join(Split(s, c), c) == s
  {
    if s != "" {
      JoinSplit(s[1..], c);
      var rest := Split(s[1..], c);
      assert s == [s[0]] + s[1..];
      if s[0] == c {
        assert ([""] + rest)[1..] == rest && "" + [c] == [c];
      } else {
        var parts := [[s[0]] + rest[0]] + rest[1..];
        assert parts[1..] == rest[1..];
        if |rest| == 1 { assert Join(parts, c) == [s[0]] + rest[0]; }
        else { assert ([s[0]] + rest[0]) + [c] + Join(rest[1..], c) == [s[0]] + (rest[0] + [c] + Join(rest[1..], c)); }
      }
    }
  }

  lemma {:induction false} SplitPlain(p: string, c: char)
    requires c !in p
    ensures Split(p, c) == [p]
  {
    if p != "" {
      assert p[0] in p && p == [p[0]] + p[1..];
      assert forall x :: x in p[1..] ==> x in p;
      SplitPlain(p[1..], c);
    }
  }

  lemma {:induction false} SplitHead(p: string, c: char, rest: string)
    requires c !in p
    ensures Split(p + [c] + rest, c) == [p] + Split(rest, c)
  {
    var s := p + [c] + rest;
    if p == "" {
      assert s[0] == c && s[1..] == rest;
    } else {
      assert p[0] in p && forall x :: x in p[1..] ==> x in p;
      assert s[0] == p[0] && s[1..] == p[1..] + [c] + rest;
      SplitHead(p[1..], c, rest);
      var tail := Split(s[1..], c);
      assert tail[0] == p[1..] && tail[1..] == Split(rest, c);
      assert [p[0]] + p[1..] == p;
    }
  }

  lemma {:induction false} SplitJoin(parts: seq<string>, c: char)
    requires parts != [] && forall i :: 0 <= i < |parts| ==> c !in parts[i]
    ensures Split(Join(parts, c), c) == parts
  {
    if |parts| == 1 {
      SplitPlain(parts[0], c);
    } else {
      SplitJoin(parts[1..], c);
      SplitHead(parts[0], c, Join(parts[1..], c));
      assert parts == [parts[0]] + parts[1..];
    }
  }

  // ----- octets -----

  /** `^(0|[1-9][0-9]{0,2})$`. */
  predicate OctetSyntax(p: string) {
    p == "0" || (1 <= |p| <= 3 && '1' <= p[0] <= '9' && forall i :: 1 <= i < |p| ==> '0' <= p[i] <= '9')
  }

  function OctetValue(p: string): (n: nat)
    requires OctetSyntax(p)
  {
    Value(p)
  }

  predicate Octet(p: string) {
    OctetSyntax(p) && OctetValue(p) <= 255
  }

  lemma {:induction false} DecimalStep(n: nat, d: nat)
    requires n > 0 && d < 10
    ensures Decimal(10 * n + d) == Decimal(n) + [Digit(d)]
  {
    assert (10 * n + d) / 10 == n && (10 * n + d) % 10 == d;
  }

  lemma {:induction false} DecimalOfValue(p: string)
    requires p != "" && (forall i :: 0 <= i < |p| ==> '0' <= p[i] <= '9') && (|p| > 1 ==> p[0] != '0')
    ensures Decimal(Value(p)) == p
    ensures p[0] != '0' ==> Value(p) > 0
  {
    var m := |p| - 1;
    var front, d := p[..m], p[m] as int - '0' as int;
    assert Value(p) == 10 * Value(front) + d;
    assert p == front + [p[m]] && Digit(d) == p[m];
    if m > 0 {
      DecimalOfValue(front);
      DecimalStep(Value(front), d);
    }
  }

  lemma {:induction false} DecimalIsOctet(n: nat)
    requires n <= 255
    ensures Octet(Decimal(n)) && OctetValue(Decimal(n)) == n && '.' !in Decimal(n)
  {
    ValueOfDecimal(n);
    if n >= 10 {
      assert Decimal(n) == Decimal(n / 10) + [Digit(n % 10)];
      if n >= 100 { assert Decimal(n / 10) == Decimal(n / 100) + [Digit(n / 10 % 10)]; }
    }
  }

  // ----- addresses -----

  predicate Address(s: string) {
    var parts := Split(s, '.');
    |parts| == 4 && Octet(parts[0]) && Octet(parts[1]) && Octet(parts[2]) && Octet(parts[3])
  }

  function Pack(a: nat, b: nat, c: nat, d: nat): nat {
    a * 0x100_0000 + b * 0x1_0000 + c * 0x100 + d
  }

  /** The number of an accepted address. */
  function Parse(s: string): (r: Option<nat>)
    ensures r.Some? ==> r.value < TWO_TO_32
  {
    if !Address(s) then None
    else
      var p := Split(s, '.');
      Some(Pack(OctetValue(p[0]), OctetValue(p[1]), OctetValue(p[2]), OctetValue(p[3])))
  }

  /** `formatIpv4`; `>>> 8k & 0xff` is the k-th base-256 digit. */
  function Format(n: nat): string {
    Join([Decimal(n / 0x100_0000 % 0x100), Decimal(n / 0x1_0000 % 0x100),
          Decimal(n / 0x100 % 0x100), Decimal(n % 0x100)], '.')
  }

  function Fold(parts: seq<string>): nat
    requires forall i :: 0 <= i < |parts| ==> Octet(parts[i])
  {
    if parts == [] then 0
    else
      assert Octet(parts[|parts| - 1]);
      Fold(parts[..|parts| - 1]) * 0x100 % TWO_TO_32 + OctetValue(parts[|parts| - 1])
  }

  /** The loop of `parseIpv4`; `(output << 8 | octet) >>> 0` shifts in 32 bits. */
  method ParseIpv4(value: string) returns (r: Option<nat>)
    ensures r == Parse(value)
  {
    var parts := Split(value, '.');
    if |parts| != 4 {
      return None;
    }
    var output: nat := 0;
    var i := 0;
    while i < |parts|
      invariant 0 <= i <= 4
      invariant forall j :: 0 <= j < i ==> Octet(parts[j])
      invariant output == Fold(parts[..i])
    {
      if !OctetSyntax(parts[i]) {
        return None;
      }
      var octet := OctetValue(parts[i]);
      if octet > 255 {
        return None;
      }
      assert parts[..i + 1][..i] == parts[..i];
      output := output * 0x100 % TWO_TO_32 + octet;
      i := i + 1;
    }
    assert parts[..4] == parts;
    FoldPacks(parts);
    return Some(output);
  }

  lemma {:induction false} FoldPacks(p: seq<string>)
    requires |p| == 4 && forall j :: 0 <= j < 4 ==> Octet(p[j])
    ensures Fold(p) == Pack(OctetValue(p[0]), OctetValue(p[1]), OctetValue(p[2]), OctetValue(p[3]))
  {
    hide OctetSyntax; hide OctetValue;
    assert p[..3][..2] == p[..2] && p[..2][..1] == p[..1] && p[..1][..0] == [];
    assert Fold(p[..1]) == OctetValue(p[0]);
    assert Fold(p[..2]) == Fold(p[..1]) * 0x100 + OctetValue(p[1]);
    assert Fold(p[..3]) == Fold(p[..2]) * 0x100 + OctetValue(p[2]);
  }

  lemma {:induction false} Digits(a: nat, b: nat, c: nat, d: nat)
    requires a <= 255 && b <= 255 && c <= 255 && d <= 255
    ensures var n := Pack(a, b, c, d);
      n / 0x100_0000 % 0x100 == a && n / 0x1_0000 % 0x100 == b && n / 0x100 % 0x100 == c && n % 0x100 == d
  {
    var n := Pack(a, b, c, d);
    assert n / 0x100_0000 == a;
    assert n / 0x1_0000 == a * 0x100 + b;
    assert n / 0x100 == a * 0x1_0000 + b * 0x100 + c;
  }

  /** Formatting undoes parsing: the text of an accepted address is the only text of its number. */
  lemma {:induction false} FormatParse(s: string)
    requires Parse(s).Some?
    ensures Format(Parse(s).value) == s
  {
    hide Split; hide Join; hide Decimal; hide OctetValue; hide OctetSyntax; hide Pack;
    var p := Split(s, '.');
    Digits(OctetValue(p[0]), OctetValue(p[1]), OctetValue(p[2]), OctetValue(p[3]));
    OctetText(p[0]);
    OctetText(p[1]);
    OctetText(p[2]);
    OctetText(p[3]);
    assert p == [p[0], p[1], p[2], p[3]];
    JoinSplit(s, '.');
  }

  lemma {:induction false} OctetText(p: string)
    requires Octet(p)
    ensures Decimal(OctetValue(p)) == p
  {
    DecimalOfValue(p);
  }

  /** Parsing undoes formatting, on every 32-bit number. */
  lemma {:induction false} ParseFormat(n: nat)
    requires n < TWO_TO_32
    ensures Parse(Format(n)) == Some(n)
  {
    var a, b, c, d := n / 0x100_0000 % 0x100, n / 0x1_0000 % 0x100, n / 0x100 % 0x100, n % 0x100;
    DecimalIsOctet(a);
    DecimalIsOctet(b);
    DecimalIsOctet(c);
    DecimalIsOctet(d);
    SplitJoin([Decimal(a), Decimal(b), Decimal(c), Decimal(d)], '.');
    assert Split(Format(n), '.') == [Decimal(a), Decimal(b), Decimal(c), Decimal(d)];
    Unpack(n);
  }

  lemma {:induction false} Unpack(n: nat)
    requires n < TWO_TO_32
    ensures Pack(n / 0x100_0000 % 0x100, n / 0x1_0000 % 0x100, n / 0x100 % 0x100, n % 0x100) == n
  {
    assert n / 0x1_0000 == 0x100 * (n / 0x100_0000) + n / 0x1_0000 % 0x100;
    assert n / 0x100 == 0x100 * (n / 0x1_0000) + n / 0x100 % 0x100;
  }

  lemma {:induction false} ParseInjective(s: string, t: string)
    requires Parse(s).Some? && Parse(s) == Parse(t)
    ensures s == t
  {
    FormatParse(s);
    FormatParse(t);
  }

  // ----- private space (RFC 1918, section 3) -----

  datatype PrivateBlock = Ten | OneSevenTwo | OneNineTwo

  function BlockOf(n: nat): Option<PrivateBlock> {
    var first, second := n / 0x100_0000 % 0x100, n / 0x1_0000 % 0x100;
    if first == 10 then Some(Ten)
    else if first == 172 && 16 <= second <= 31 then Some(OneSevenTwo)
    else if first == 192 && second == 168 then Some(OneNineTwo)
    else None
  }

  predicate IsPrivate(n: nat) {
    BlockOf(n).Some?
  }

  function Subnet24(n: nat): nat {
    n - n % 0x100
  }
}
