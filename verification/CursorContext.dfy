/** The request blocks a Cursor response adds: numbered from 1000, so that they do not meet those of
    the request itself. */
module CursorContext {
  import opened Bytes
  import opened Numerals
  import opened SpyTables
  import opened SpyInvariants
  import opened SpyBatches
  import opened SpyDrain
  import opened SpyReplay
  import opened SpyDuplicates

  const FIRST_ORDINAL: nat := 1000

  /** What was found in the response; the text is already trimmed. */
  datatype Candidate = Candidate(kind: string, role: string, text: string, path: string)

  datatype Section = Section(kind: string, key: string, size: nat, path: string)

  /** Text truncation, the sentence about a section, and whether earlier blocks cover a section already. */
  datatype Wording = Wording(
    truncate: string -> string, describe: Section -> string, covered: (seq<NewBlock>, Section) -> bool)

  function KeyOf(c: Candidate): string {
    c.kind + "\n" + c.role + "\n" + c.text
  }

  function SectionKey(s: Section): string {
    "metadata\n" + s.key + "\n" + Decimal(s.size)
  }

  function CandidateBlock(w: Wording, c: Candidate, i: nat): NewBlock {
    NewBlock(Request, FIRST_ORDINAL + i,
      Block("cursor-response-request-context", Some(w.truncate(c.text)), c.kind + "\n" + c.role + "\n" + c.path))
  }

  function SectionBlock(w: Wording, s: Section, i: nat): NewBlock {
    NewBlock(Request, FIRST_ORDINAL + i,
      Block("cursor-response-context-metadata", Some(w.describe(s)), s.kind + "\n" + s.key + "\n" + s.path))
  }

  /** The candidates with text, without those whose key came before. */
  function Firsts(cs: seq<Candidate>): seq<Candidate> {
    if cs == [] then []
    else
      var n := |cs| - 1;
      var before := Firsts(cs[..n]);
      if cs[n].text == "" || KeyOf(cs[n]) in Keys(before) then before else before + [cs[n]]
  }

  function Keys(cs: seq<Candidate>): set<string> {
    set c | c in cs :: KeyOf(c)
  }

  /** Every text found is there, once. */
  lemma {:induction false} FirstsAreTheDistinctOnes(cs: seq<Candidate>)
    ensures forall i, j :: 0 <= i < j < |Firsts(cs)| ==> KeyOf(Firsts(cs)[i]) != KeyOf(Firsts(cs)[j])
    ensures forall c :: c in cs && c.text != "" ==> KeyOf(c) in Keys(Firsts(cs))
    ensures forall c :: c in Firsts(cs) ==> c in cs && c.text != ""
  {
    hide KeyOf;
    if cs != [] {
      var n := |cs| - 1;
      FirstsAreTheDistinctOnes(cs[..n]);
      assert cs == cs[..n] + [cs[n]];
      var before := Firsts(cs[..n]);
      forall i | 0 <= i < |before| ensures KeyOf(before[i]) in Keys(before) { assert before[i] in before; }
      assert Keys(before) <= Keys(Firsts(cs)) by { assert forall c :: c in before ==> c in Firsts(cs); }
    }
  }

  /** Numbered without gaps from 1000, and marked as coming from a response. */
  ghost predicate Numbered(bs: seq<NewBlock>) {
    forall i :: 0 <= i < |bs| ==>
      bs[i].dir == Request && bs[i].ordinal == FIRST_ORDINAL + i && ResponseDerived(bs[i].block)
  }

  function CandidateBlocks(w: Wording, cs: seq<Candidate>): (r: seq<NewBlock>)
    ensures |r| == |cs| && forall i :: 0 <= i < |cs| ==> r[i] == CandidateBlock(w, cs[i], i)
  {
    seq(|cs|, i requires 0 <= i < |cs| => CandidateBlock(w, cs[i], i))
  }

  /** The blocks `bs`, then one for each of the sections. */
  function WithSections(w: Wording, bs: seq<NewBlock>, ss: seq<Section>): (r: seq<NewBlock>)
    ensures |r| == |bs| + |ss|
  {
    if ss == [] then bs
    else
      var n := |ss| - 1;
      WithSections(w, bs, ss[..n]) + [SectionBlock(w, ss[n], |bs| + n)]
  }

  function SectionKeys(ss: seq<Section>): set<string> {
    set s | s in ss :: SectionKey(s)
  }

  /** The sections that get a block: those with a new key that the blocks so far do not cover. */
  function Added(w: Wording, bs: seq<NewBlock>, seen: set<string>, ss: seq<Section>): seq<Section> {
    if ss == [] then []
    else
      var n := |ss| - 1;
      var before := Added(w, bs, seen, ss[..n]);
      if w.covered(WithSections(w, bs, before), ss[n]) || SectionKey(ss[n]) in seen + SectionKeys(before)
      then before
      else before + [ss[n]]
  }

  /** `normalizeCursorResponseRequestContext`. */
  method NormalizeCursorResponseRequestContext(w: Wording, candidates: seq<Candidate>, sections: seq<Section>)
    returns (blocks: seq<NewBlock>)
    ensures Numbered(blocks)
    ensures var firsts := Firsts(candidates);
      var bs := CandidateBlocks(w, firsts);
      blocks == WithSections(w, bs, Added(w, bs, Keys(firsts), sections))
  {
    hide *;
    blocks := [];
    NoCandidates(w);
    var seen: set<string> := {};
    var ordinal := FIRST_ORDINAL;
    var i := 0;
    while i < |candidates|
      invariant 0 <= i <= |candidates| && ordinal == FIRST_ORDINAL + |blocks|
      invariant seen == Keys(Firsts(candidates[..i])) && blocks == CandidateBlocks(w, Firsts(candidates[..i]))
    {
      FirstsStep(w, candidates, i);
      var c := candidates[i];
      i := i + 1;
      if c.text == "" || KeyOf(c) in seen {
        continue;
      }
      seen := seen + {KeyOf(c)};
      blocks := blocks + [CandidateBlock(w, c, ordinal - FIRST_ORDINAL)];
      ordinal := ordinal + 1;
    }
    assert candidates[..i] == candidates;
    ghost var bs, keys := blocks, seen;
    CandidatesNumbered(w, Firsts(candidates));
    NothingAdded(w, bs, keys);
    i := 0;
    while i < |sections|
      invariant 0 <= i <= |sections| && ordinal == FIRST_ORDINAL + |blocks| && Numbered(blocks)
      invariant var added := Added(w, bs, keys, sections[..i]);
        blocks == WithSections(w, bs, added) && seen == keys + SectionKeys(added)
    {
      AddedStep(w, bs, keys, sections, i);
      ghost var added := Added(w, bs, keys, sections[..i]);
      var s := sections[i];
      i := i + 1;
      if w.covered(blocks, s) || SectionKey(s) in seen {
        continue;
      }
      SectionAdded(w, bs, added, s);
      seen := seen + {SectionKey(s)};
      blocks := blocks + [SectionBlock(w, s, ordinal - FIRST_ORDINAL)];
      ordinal := ordinal + 1;
    }
    assert sections[..i] == sections;
  }

  lemma {:induction false} NoCandidates(w: Wording)
    ensures Firsts([]) == [] && Keys([]) == {} && CandidateBlocks(w, []) == []
  {}

  lemma {:induction false} FirstsStep(w: Wording, cs: seq<Candidate>, i: nat)
    requires i < |cs|
    ensures var before, c := Firsts(cs[..i]), cs[i];
      && Firsts(cs[..i + 1]) == (if c.text == "" || KeyOf(c) in Keys(before) then before else before + [c])
      && Keys(before + [c]) == Keys(before) + {KeyOf(c)}
      && CandidateBlocks(w, before + [c]) == CandidateBlocks(w, before) + [CandidateBlock(w, c, |before|)]
  {
    hide KeyOf; hide CandidateBlock;
    assert cs[..i + 1][..i] == cs[..i];
  }

  lemma {:induction false} CandidatesNumbered(w: Wording, cs: seq<Candidate>)
    ensures Numbered(CandidateBlocks(w, cs))
  {}

  lemma {:induction false} NothingAdded(w: Wording, bs: seq<NewBlock>, seen: set<string>)
    ensures Added(w, bs, seen, []) == [] && WithSections(w, bs, []) == bs && SectionKeys([]) == {}
  {}

  lemma {:induction false} AddedStep(w: Wording, bs: seq<NewBlock>, seen: set<string>, ss: seq<Section>, i: nat)
    requires i < |ss|
    ensures var before, s := Added(w, bs, seen, ss[..i]), ss[i];
      Added(w, bs, seen, ss[..i + 1])
        == if w.covered(WithSections(w, bs, before), s) || SectionKey(s) in seen + SectionKeys(before) then before
           else before + [s]
  {
    hide WithSections; hide SectionKeys; hide SectionKey;
    assert ss[..i + 1][..i] == ss[..i];
  }

  lemma {:induction false} SectionAdded(w: Wording, bs: seq<NewBlock>, added: seq<Section>, s: Section)
    requires Numbered(WithSections(w, bs, added))
    ensures WithSections(w, bs, added + [s]) == WithSections(w, bs, added) + [SectionBlock(w, s, |bs| + |added|)]
    ensures Numbered(WithSections(w, bs, added + [s]))
    ensures SectionKeys(added + [s]) == SectionKeys(added) + {SectionKey(s)}
  {
    assert (added + [s])[..|added|] == added;
  }

  /** Some of the first blocks cover the section. */
  ghost predicate CoveredBySome(w: Wording, bs: seq<NewBlock>, added: seq<Section>, s: Section) {
    exists n: nat :: n <= |added| && w.covered(WithSections(w, bs, added[..n]), s)
  }

  /** A section is added when its key is new and the blocks so far do not cover it. */
  ghost predicate AddedFresh(w: Wording, bs: seq<NewBlock>, seen: set<string>, ss: seq<Section>, added: seq<Section>) {
    && (forall i :: 0 <= i < |added| ==> added[i] in ss && SectionKey(added[i]) !in seen
                                         && !w.covered(WithSections(w, bs, added[..i]), added[i]))
    && forall i, j :: 0 <= i < j < |added| ==> SectionKey(added[i]) != SectionKey(added[j])
  }

  /** A section without a block has the key of a candidate or of an added section, or is covered. */
  ghost predicate NoneForgotten(w: Wording, bs: seq<NewBlock>, seen: set<string>, ss: seq<Section>,
                                added: seq<Section>) {
    forall s :: s in ss ==> SectionKey(s) in seen + SectionKeys(added) || CoveredBySome(w, bs, added, s)
  }

  lemma {:induction false} OneMoreAdded(w: Wording, bs: seq<NewBlock>, seen: set<string>, ss: seq<Section>,
                                        before: seq<Section>, s: Section)
    requires AddedFresh(w, bs, seen, ss, before)
    requires !w.covered(WithSections(w, bs, before), s) && SectionKey(s) !in seen + SectionKeys(before)
    ensures AddedFresh(w, bs, seen, ss + [s], before + [s])
  {
    hide SectionKey; hide WithSections;
    var added := before + [s];
    assert forall i :: 0 <= i <= |before| ==> added[..i] == before[..i];
    assert before[..|before|] == before;
    forall i | 0 <= i < |before| ensures SectionKey(before[i]) in SectionKeys(before) {
      assert before[i] in before;
    }
  }

  lemma {:induction false} OneMoreRemembered(w: Wording, bs: seq<NewBlock>, seen: set<string>, ss: seq<Section>,
                                             before: seq<Section>, s: Section, added: seq<Section>)
    requires NoneForgotten(w, bs, seen, ss, before) && (added == before || added == before + [s])
    requires added == before ==>
      w.covered(WithSections(w, bs, before), s) || SectionKey(s) in seen + SectionKeys(before)
    ensures NoneForgotten(w, bs, seen, ss + [s], added)
  {
    hide SectionKey; hide WithSections;
    assert before[..|before|] == before;
    assert forall x :: x in before ==> x in added;
    forall x | x in ss && CoveredBySome(w, bs, before, x) ensures CoveredBySome(w, bs, added, x) {
      var m: nat :| m <= |before| && w.covered(WithSections(w, bs, before[..m]), x);
      assert added[..m] == before[..m];
    }
    if added == before {
      if w.covered(WithSections(w, bs, before), s) { assert CoveredBySome(w, bs, added, s); }
    } else {
      assert s in added;
    }
  }

  /** Every section with a key of its own gets a block unless earlier blocks cover it, and no key
      gets two. */
  lemma {:induction false} EverySectionOnce(w: Wording, bs: seq<NewBlock>, seen: set<string>, ss: seq<Section>)
    ensures var added := Added(w, bs, seen, ss);
      AddedFresh(w, bs, seen, ss, added) && NoneForgotten(w, bs, seen, ss, added)
  {
    hide SectionKey; hide WithSections; hide SectionKeys;
    if ss != [] {
      hide CoveredBySome;
      var n := |ss| - 1;
      EverySectionOnce(w, bs, seen, ss[..n]);
      var before, s := Added(w, bs, seen, ss[..n]), ss[n];
      var added := Added(w, bs, seen, ss);
      assert ss == ss[..n] + [s];
      OneMoreRemembered(w, bs, seen, ss[..n], before, s, added);
      if added != before { OneMoreAdded(w, bs, seen, ss[..n], before, s); }
    }
  }

  predicate InRange(ordinal: nat, n: nat) {
    FIRST_ORDINAL <= ordinal < FIRST_ORDINAL + n
  }

  /** Such blocks can be stored beside the recorded request blocks exactly when none of these has
      an ordinal in their range; with recorded ordinals below 1000, always. */
  lemma {:induction false} StoredIffRangeIsFree(t: Indexed, call: CallId, own: seq<NewBlock>)
    requires Numbered(own) && own != []
    ensures AmendRequestBlocks(t, call, own).Some?
      <==> forall i: nat :: Keeps(t.blocks, call, i) ==> !InRange(i, |own|)
  {
    hide KeptBlocks; hide ReplaceBlocks; hide ResponseDerived; hide InRange;
    var kept := KeptBlocks(t.blocks, call);
    ReplaceIs(t, call, Request, kept + own);
    KeptBlocksIs(t.blocks, call);
    KeptDistinct(t.blocks, call);
    DistinctIff(kept, own);
    hide Distinct; hide Keeps;
    if forall i: nat :: Keeps(t.blocks, call, i) ==> !InRange(i, |own|) {
      forall b | b in kept ensures !InRange(b.ordinal, |own|) { assert Keeps(t.blocks, call, b.ordinal); }
    }
  }

  lemma {:induction false} DistinctIff(kept: seq<NewBlock>, own: seq<NewBlock>)
    requires Numbered(own) && Distinct(kept)
    ensures Distinct(kept + own) <==> forall b :: b in kept ==> !InRange(b.ordinal, |own|)
  {
    hide ResponseDerived;
    forall b | b in kept ensures InRange(b.ordinal, |own|) ==> !Distinct(kept + own) {
      if InRange(b.ordinal, |own|) { RangeClashes(kept, own, b); }
    }
  }

  lemma {:induction false} RangeClashes(kept: seq<NewBlock>, own: seq<NewBlock>, b: NewBlock)
    requires Numbered(own) && b in kept && InRange(b.ordinal, |own|)
    ensures !Distinct(kept + own)
  {
    hide ResponseDerived;
    var i :| 0 <= i < |kept| && kept[i] == b;
    var j := b.ordinal - FIRST_ORDINAL;
    assert (kept + own)[|kept| + j] == own[j] && (kept + own)[i] == b;
  }

  lemma {:induction false} NumberedAreDerived(own: seq<NewBlock>)
    requires Numbered(own)
    ensures AllDerived(own)
  {
    hide ResponseDerived;
    forall b | b in own ensures ResponseDerived(b.block) { var i :| 0 <= i < |own| && own[i] == b; }
  }

  /** At any moment of a drain, a response that adds such request blocks can be ingested again. */
  lemma {:induction false} CursorReplaySucceeds(a: Adapter, plan: Plan, db: Db, left: seq<File>, c: CallId)
    requires Inv(a, plan, db, left) && c in plan && plan[c].response.Some? && !Has(left, plan[c].response.value)
    requires plan[c].response.value.ResponseEvent? ==> Numbered(OwnRequestBlocks(a, db, plan[c].response.value))
    ensures var (o, db') := IngestFile(a, db, plan[c].response);
      o == Ingested && Bare(db') == Bare(db) && Inv(a, plan, db', left)
  {
    hide IngestFile; hide Inv; hide OwnRequestBlocks; hide Numbered; hide AllDerived; hide Has;
    ReplayInDrain(a, plan, db, left, c);
    NumberedAreDerived(OwnRequestBlocks(a, db, plan[c].response.value));
  }

  // ----- the blocks themselves -----

  /** Each kept candidate and each added section has a block of its own with its text, candidates first,
      in order. */
  lemma {:induction false} BlocksSay(w: Wording, cs: seq<Candidate>, ss: seq<Section>)
    ensures var blocks := WithSections(w, CandidateBlocks(w, cs), ss);
      && |blocks| == |cs| + |ss|
      && (forall i :: 0 <= i < |blocks| ==> blocks[i].dir == Request && blocks[i].ordinal == 1000 + i)
      && (forall i :: 0 <= i < |cs| ==> SaysCandidate(w, blocks[i].block, cs[i]))
      && forall i :: |cs| <= i < |blocks| ==> SaysSection(w, blocks[i].block, ss[i - |cs|])
  {
    hide WithSections; hide CandidateBlocks;
    SectionsAt(w, CandidateBlocks(w, cs), ss);
  }

  predicate SaysCandidate(w: Wording, b: Block, c: Candidate) {
    && b.source == "cursor-response-request-context" && b.text == Some(w.truncate(c.text))
    && b.rest == c.kind + "\n" + c.role + "\n" + c.path
  }

  predicate SaysSection(w: Wording, b: Block, s: Section) {
    && b.source == "cursor-response-context-metadata" && b.text == Some(w.describe(s))
    && b.rest == s.kind + "\n" + s.key + "\n" + s.path
  }

  lemma {:induction false} SectionsAt(w: Wording, bs: seq<NewBlock>, ss: seq<Section>)
    ensures var blocks := WithSections(w, bs, ss);
      && (forall i :: 0 <= i < |bs| ==> blocks[i] == bs[i])
      && forall i :: |bs| <= i < |blocks| ==> blocks[i] == SectionBlock(w, ss[i - |bs|], i)
  {
    hide SectionBlock;
    if ss != [] {
      var n := |ss| - 1;
      SectionsAt(w, bs, ss[..n]);
      forall i | |bs| <= i < |bs| + n ensures WithSections(w, bs, ss)[i] == SectionBlock(w, ss[i - |bs|], i) {
        assert WithSections(w, bs, ss)[i] == WithSections(w, bs, ss[..n])[i]
            == SectionBlock(w, ss[..n][i - |bs|], i);
        assert ss[..n][i - |bs|] == ss[i - |bs|];
      }
    }
  }

  // ----- the keys -----

  predicate OneLine(s: string) {
    '\n' !in s
  }

  /** A first line without a newline is determined, and so is what follows. */
  lemma {:induction false} FirstLine(a: string, x: string, b: string, y: string)
    requires OneLine(a) && OneLine(b) && a + "\n" + x == b + "\n" + y
    ensures a == b && x == y
  {
    var s, t := a + "\n" + x, b + "\n" + y;
    assert s[|a|] == '\n' && t[|b|] == '\n';
    assert forall k :: 0 <= k < |a| ==> s[k] == a[k];
    assert forall k :: 0 <= k < |b| ==> t[k] == b[k];
    assert |a| == |b|;
    assert a == s[..|a|] && b == t[..|b|] && x == s[|a| + 1..] && y == t[|b| + 1..];
  }

  lemma {:induction false} LastLine(a: string, x: string, b: string, y: string)
    requires OneLine(x) && OneLine(y) && a + "\n" + x == b + "\n" + y
    ensures a == b && x == y
  {
    var s, t := a + "\n" + x, b + "\n" + y;
    assert s[|a|] == '\n' && t[|b|] == '\n';
    assert forall k :: |a| < k < |s| ==> s[k] == x[k - |a| - 1];
    assert forall k :: |b| < k < |t| ==> t[k] == y[k - |b| - 1];
    assert |a| == |b|;
    assert a == s[..|a|] && b == t[..|b|] && x == s[|a| + 1..] && y == t[|b| + 1..];
  }

  predicate SameCandidate(c: Candidate, d: Candidate) {
    c.kind == d.kind && c.role == d.role && c.text == d.text
  }

  predicate OneLiners(c: Candidate) {
    OneLine(c.kind) && OneLine(c.role)
  }

  lemma {:induction false} KeyTells(c: Candidate, d: Candidate)
    ensures SameCandidate(c, d) ==> KeyOf(c) == KeyOf(d)
    ensures OneLiners(c) && OneLiners(d) && KeyOf(c) == KeyOf(d) ==> SameCandidate(c, d)
  {
    if OneLiners(c) && OneLiners(d) && KeyOf(c) == KeyOf(d) {
      assert KeyOf(c) == c.kind + "\n" + (c.role + "\n" + c.text);
      assert KeyOf(d) == d.kind + "\n" + (d.role + "\n" + d.text);
      FirstLine(c.kind, c.role + "\n" + c.text, d.kind, d.role + "\n" + d.text);
      FirstLine(c.role, c.text, d.role, d.text);
    }
  }

  /** Of the candidates with text one of each is kept, told apart by kind, role and text. */
  lemma {:induction false} OneOfEach(cs: seq<Candidate>)
    requires forall c :: c in cs ==> OneLiners(c)
    ensures var kept := Firsts(cs);
      && (forall c :: c in kept ==> c in cs && c.text != "")
      && (forall c :: c in cs && c.text != "" ==> exists d :: d in kept && SameCandidate(c, d))
      && forall i, j :: 0 <= i < j < |kept| ==> !SameCandidate(kept[i], kept[j])
  {
    FirstsAreTheDistinctOnes(cs);
    hide KeyOf; hide OneLiners;
    var kept := Firsts(cs);
    forall c | c in cs && c.text != "" ensures exists d :: d in kept && SameCandidate(c, d) {
      var d :| d in kept && KeyOf(d) == KeyOf(c);
      KeyTells(c, d);
    }
    forall i, j | 0 <= i < j < |kept| ensures !SameCandidate(kept[i], kept[j]) { KeyTells(kept[i], kept[j]); }
  }

  lemma {:induction false} SectionKeyTells(s: Section, t: Section)
    ensures SectionKey(s) == SectionKey(t) <==> s.key == t.key && s.size == t.size
  {
    var a, b := "metadata\n" + s.key, "metadata\n" + t.key;
    if SectionKey(s) == SectionKey(t) {
      assert OneLine(Decimal(s.size)) && OneLine(Decimal(t.size));
      LastLine(a, Decimal(s.size), b, Decimal(t.size));
      DecimalInjective(s.size, t.size);
      assert s.key == a[9..] && t.key == b[9..];
    }
  }

  lemma {:induction false} KindTells(c: Candidate, s: Section)
    requires OneLine(c.kind) && KeyOf(c) == SectionKey(s)
    ensures c.kind == "metadata"
  {
    assert KeyOf(c) == c.kind + "\n" + (c.role + "\n" + c.text);
    assert SectionKey(s) == "metadata" + "\n" + (s.key + "\n" + Decimal(s.size));
    assert OneLine("metadata");
    hide Decimal;
    FirstLine(c.kind, c.role + "\n" + c.text, "metadata", s.key + "\n" + Decimal(s.size));
  }

  /** After candidates of other kinds, each section has a block with its key and size unless blocks that
      come before cover it; no two blocks are for one key and size. */
  lemma {:induction false} SectionsByKeyAndSize(w: Wording, bs: seq<NewBlock>, cs: seq<Candidate>, ss: seq<Section>)
    requires forall c :: c in cs ==> OneLine(c.kind) && c.kind != "metadata"
    ensures var added := Added(w, bs, Keys(cs), ss);
      && (forall s :: s in ss ==>
            CoveredBySome(w, bs, added, s) || exists t :: t in added && t.key == s.key && t.size == s.size)
      && (forall i :: 0 <= i < |added| ==> added[i] in ss && !w.covered(WithSections(w, bs, added[..i]), added[i]))
      && forall i, j :: 0 <= i < j < |added| ==> added[i].key != added[j].key || added[i].size != added[j].size
  {
    var added := Added(w, bs, Keys(cs), ss);
    EverySectionOnce(w, bs, Keys(cs), ss);
    hide SectionKey; hide KeyOf; hide WithSections; hide Added; hide CoveredBySome; hide OneLine;
    forall s | s in ss && !CoveredBySome(w, bs, added, s)
      ensures exists t :: t in added && t.key == s.key && t.size == s.size
    {
      forall c | c in cs ensures KeyOf(c) != SectionKey(s) { if KeyOf(c) == SectionKey(s) { KindTells(c, s); } }
      var t :| t in added && SectionKey(t) == SectionKey(s);
      SectionKeyTells(s, t);
    }
    forall i, j | 0 <= i < j < |added| ensures added[i].key != added[j].key || added[i].size != added[j].size {
      SectionKeyTells(added[i], added[j]);
    }
  }
}
