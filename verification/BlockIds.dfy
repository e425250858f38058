/** The text identifiers of calls and blocks. Those of blocks are the store's primary key. */
module BlockIds {
  import opened Numerals
  import opened SpyTables

  // ----- `stableId` and `idPart` -----

  predicate IdChar(c: char) {
    'A' <= c <= 'Z' || 'a' <= c <= 'z' || '0' <= c <= '9' || c == '_' || c == '.' || c == '-'
  }

  /** Without the other characters it starts with. */
  function SkipOthers(s: string): (r: string)
    ensures |r| <= |s|
  {
    if s != "" && !IdChar(s[0]) then SkipOthers(s[1..]) else s
  }

  /** Every run of other characters becomes a dash. */
  function Dashed(s: string): string
    decreases |s|
  {
    if s == "" then "" else if IdChar(s[0]) then [s[0]] + Dashed(s[1..]) else "-" + Dashed(SkipOthers(s[1..]))
  }

  function StripLeft(s: string): string {
    if s != "" && s[0] == '-' then StripLeft(s[1..]) else s
  }

  function StripRight(s: string): string {
    if s != "" && s[|s| - 1] == '-' then StripRight(s[..|s| - 1]) else s
  }

  /** `idPart`; `digest` stands for the first sixteen hexadecimal digits of a hash. */
  function IdPart(digest: string -> string, v: string): string {
    var cleaned := StripRight(StripLeft(Dashed(v)));
    if cleaned != "" then cleaned else digest(v)
  }

  function DirectionText(dir: Direction): string {
    if dir == Request then "request" else "response"
  }

  function CallIdText(digest: string -> string, flow: string): string {
    "call-" + IdPart(digest, flow)
  }

  function BlockId(digest: string -> string, callId: string, dir: Direction, ordinal: nat): string {
    "block-" + IdPart(digest, callId) + "-" + IdPart(digest, DirectionText(dir))
      + "-" + IdPart(digest, Decimal(ordinal))
  }

  // ----- call ids come through unchanged -----

  predicate AllIdChars(s: string) {
    forall i :: 0 <= i < |s| ==> IdChar(s[i])
  }

  predicate Clean(s: string) {
    s != "" && AllIdChars(s) && s[0] != '-' && s[|s| - 1] != '-'
  }

  lemma {:induction false} DashedIs(s: string)
    ensures AllIdChars(Dashed(s)) && (AllIdChars(s) ==> Dashed(s) == s)
    decreases |s|
  {
    if s != "" {
      if IdChar(s[0]) {
        DashedIs(s[1..]);
        assert s == [s[0]] + s[1..];
      } else {
        DashedIs(SkipOthers(s[1..]));
      }
    }
  }

  lemma {:induction false} StripLeftIs(s: string)
    requires AllIdChars(s)
    ensures var r := StripLeft(s); AllIdChars(r) && (r != "" ==> r[0] != '-')
  {
    if s != "" && s[0] == '-' { StripLeftIs(s[1..]); }
  }

  lemma {:induction false} StripRightIs(s: string)
    requires AllIdChars(s)
    ensures var r := StripRight(s); AllIdChars(r) && (r != "" ==> r[0] == s[0] && r[|r| - 1] != '-')
  {
    if s != "" && s[|s| - 1] == '-' { StripRightIs(s[..|s| - 1]); }
  }

  /** What `idPart` makes is clean, and what is clean stays. */
  lemma {:induction false} PartIsClean(digest: string -> string, v: string)
    requires Clean(digest(v))
    ensures Clean(IdPart(digest, v)) && (Clean(v) ==> IdPart(digest, v) == v)
  {
    DashedIs(v);
    StripLeftIs(Dashed(v));
    StripRightIs(StripLeft(Dashed(v)));
  }

  lemma {:induction false} CallIdIsClean(digest: string -> string, flow: string)
    requires Clean(digest(flow))
    ensures Clean(CallIdText(digest, flow))
  {
    PartIsClean(digest, flow);
    hide IdPart;
    var id := CallIdText(digest, flow);
    assert forall i :: 5 <= i < |id| ==> id[i] == IdPart(digest, flow)[i - 5];
  }

  lemma {:induction false} CleanTexts(dir: Direction, ordinal: nat)
    ensures Clean(DirectionText(dir)) && Clean(Decimal(ordinal))
  {}

  // ----- and block ids tell them apart -----

  /** Text after the last dash is determined, and so is the text before it. */
  lemma {:induction false} LastDash(p: string, m: string, q: string, n: string)
    requires '-' !in m && '-' !in n && p + "-" + m == q + "-" + n
    ensures p == q && m == n
  {
    var s, t := p + "-" + m, q + "-" + n;
    assert s[|p|] == '-' && t[|q|] == '-';
    assert forall k :: |p| < k < |s| ==> s[k] == m[k - |p| - 1];
    assert forall k :: |q| < k < |t| ==> t[k] == n[k - |q| - 1];
    assert p == s[..|p|] && q == t[..|q|] && m == s[|p| + 1..] && n == t[|q| + 1..];
  }

  lemma {:induction false} DirectionLast(p: string, q: string, d: Direction, e: Direction)
    requires p + DirectionText(d) == q + DirectionText(e)
    ensures d == e && p == q
  {
    var s, t := p + DirectionText(d), q + DirectionText(e);
    assert s[|s| - 1] == (if d == Request then 't' else 'e');
    assert t[|t| - 1] == (if e == Request then 't' else 'e');
    assert p == s[..|p|] && q == t[..|q|];
  }

  lemma {:induction false} CallMiddle(c: string, d: string)
    requires "block-" + c + "-" == "block-" + d + "-"
    ensures c == d
  {
    var s, t := "block-" + c + "-", "block-" + d + "-";
    assert c == s[6..|s| - 1] && d == t[6..|t| - 1];
  }

  /** The identifier of a block tells its call, direction and ordinal, all three. */
  lemma {:induction false} BlockIdsInjective(digest: string -> string, c: string, dir: Direction, i: nat,
                                             d: string, dir': Direction, j: nat)
    requires Clean(c) && Clean(d) && forall v :: Clean(digest(v))
    requires BlockId(digest, c, dir, i) == BlockId(digest, d, dir', j)
    ensures c == d && dir == dir' && i == j
  {
    assert '-' !in Decimal(i) && '-' !in Decimal(j);
    CleanTexts(dir, i);
    CleanTexts(dir', j);
    PartIsClean(digest, c);
    PartIsClean(digest, d);
    PartIsClean(digest, DirectionText(dir));
    PartIsClean(digest, DirectionText(dir'));
    PartIsClean(digest, Decimal(i));
    PartIsClean(digest, Decimal(j));
    hide *;
    LastDash("block-" + c + "-" + DirectionText(dir), Decimal(i), "block-" + d + "-" + DirectionText(dir'), Decimal(j));
    DecimalInjective(i, j);
    DirectionLast("block-" + c + "-", "block-" + d + "-", dir, dir');
    CallMiddle(c, d);
  }

  /** Call ids do not tell all flows apart. */
  lemma {:induction false} FlowsShareCallIds(digest: string -> string)
    ensures CallIdText(digest, "a b") == CallIdText(digest, "a-b") && "a b" != "a-b"
  {
    assert Dashed("a b") == "a-b";
    DashedIs("a-b");
    assert "a b"[1] != "a-b"[1];
  }
}
