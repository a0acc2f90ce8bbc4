/** `extractMermaidBlocks`: runs the block pattern over a markdown document with
    `regex.exec` until it fails, and turns each match into a labelled block. */
module Extractor {
  import opened Wrappers
  import opened JsText
  import opened Decimal
  import opened MermaidRegex

  /** One fenced diagram: its label and its trimmed source text. */
  datatype Block = Block(title: string, mermaid: string)

  /** `[A-Z]+` or `\d+` having consumed `n` characters, then `(?::|$)`: the quantifier
      gives back one character at a time until a ':' or the end of the heading follows. */
  function RunThenColonOrEnd(h: string, n: nat): (r: Option<nat>)
    requires n <= |h|
    ensures r.Some? ==> 1 <= r.value <= n && (r.value == |h| || h[r.value] == ':')
    decreases n
  {
    if n == 0 then None
    else if n == |h| || h[n] == ':' then Some(n)
    else RunThenColonOrEnd(h, n - 1)
  }

  /** `heading.match(/^([A-Z]+|\d+|CURRENT)(?::|$)/)`, giving group 1 when it matches. */
  function LabelCode(h: string): Option<string>
  {
    match RunThenColonOrEnd(h, Run(h, 0, Upper))
    case Some(n) => Some(h[..n])
    case None =>
      match RunThenColonOrEnd(h, Run(h, 0, Digit))
      case Some(n) => Some(h[..n])
      case None =>
        if StartsAt(h, 0, "CURRENT") && (|h| == 7 || h[7] == ':') then Some("CURRENT") else None
  }

  /** `labelMatch ? labelMatch[1] : heading` */
  function LabelFromHeading(h: string): string
  {
    match LabelCode(h)
    case Some(code) => code
    case None => h
  }

  /** The label of the block found after `found` others: the heading's code or the
      heading itself when there is a non-empty trimmed heading (an empty string is
      falsy), otherwise "Diagram " and the block's 1-based position. */
  function BlockLabel(heading: Option<string>, found: nat): string
  {
    var code := if heading.Some? && heading.value != "" then Some(LabelFromHeading(heading.value)) else None;
    if code.Some? && code.value != "" then code.value else "Diagram " + NatToString(found + 1)
  }

  /** `match[2] ? match[2].trim() : null` */
  function HeadingOf(s: string, m: Match): Option<string>
    requires Bounded(s, m)
  {
    match m.heading
    case None => None
    case Some(h) => Some(Trim(s[h.lo..h.hi]))
  }

  function ToBlock(s: string, m: Match, found: nat): Block
    requires Bounded(s, m)
  {
    Block(BlockLabel(HeadingOf(s, m), found), Trim(s[m.BodyStart()..m.close]))
  }

  /** The blocks read from successive matches, `found` blocks having been read before. */
  function ToBlocks(s: string, ms: seq<Match>, found: nat): seq<Block>
    requires forall k :: 0 <= k < |ms| ==> Bounded(s, ms[k])
    decreases |ms|
  {
    if ms == [] then [] else [ToBlock(s, ms[0], found)] + ToBlocks(s, ms[1..], found + 1)
  }

  /** The blocks of a document, one per successive match. */
  function Blocks(s: string): seq<Block>
  {
    ToBlocks(s, Matches(s, 0), 0)
  }

  method ExtractMermaidBlocks(markdown: string) returns (blocks: seq<Block>)
    ensures blocks == Blocks(markdown)
  {
    blocks := [];
    var lastIndex: nat := 0;
    var found := Exec(markdown, lastIndex);
    while found.Some?
      invariant lastIndex <= |markdown|
      invariant found == Exec(markdown, lastIndex)
      invariant blocks + ToBlocks(markdown, Matches(markdown, lastIndex), |blocks|) == Blocks(markdown)
      decreases |markdown| - lastIndex
    {
      var m := found.value;
      var heading := HeadingOf(markdown, m);
      var mermaid := Trim(markdown[m.BodyStart()..m.close]);
      var block := Block(BlockLabel(heading, |blocks|), mermaid);
      ghost var rest := ToBlocks(markdown, Matches(markdown, m.End()), |blocks| + 1);
      MatchesUnfold(markdown, lastIndex);
      assert (blocks + [block]) + rest == blocks + ([block] + rest);
      blocks := blocks + [block];
      lastIndex := m.End();
      found := Exec(markdown, lastIndex);
    }
    MatchesUnfold(markdown, lastIndex);
  }

  /** Block `k` is read from match `k` and numbered after the blocks before it. */
  lemma {:induction false} ToBlocksAt(s: string, ms: seq<Match>, found: nat, k: nat)
    requires forall k :: 0 <= k < |ms| ==> Bounded(s, ms[k])
    requires k < |ms|
    ensures |ToBlocks(s, ms, found)| == |ms|
    ensures ToBlocks(s, ms, found)[k] == ToBlock(s, ms[k], found + k)
    decreases k
  {
    if k > 0 {
      ToBlocksAt(s, ms[1..], found + 1, k - 1);
    } else {
      ToBlocksLength(s, ms[1..], found + 1);
    }
  }

  lemma {:induction false} ToBlocksLength(s: string, ms: seq<Match>, found: nat)
    requires forall k :: 0 <= k < |ms| ==> Bounded(s, ms[k])
    ensures |ToBlocks(s, ms, found)| == |ms|
    decreases |ms|
  {
    if ms != [] {
      ToBlocksLength(s, ms[1..], found + 1);
    }
  }

  // ---- the label rule ----

  /** Backtracking a run of upper-case letters or digits only succeeds at its full length. */
  lemma {:induction false} RunBacktrack(h: string, k: CharClass, n: nat)
    requires k == Upper || k == Digit
    requires n <= Run(h, 0, k)
    ensures RunThenColonOrEnd(h, n) ==
              if n == Run(h, 0, k) && n >= 1 && (n == |h| || h[n] == ':') then Some(n) else None
    decreases n
  {
    var top := Run(h, 0, k);
    if 0 < n {
      if n < top {
        AllAt(h, 0, top, k, n);
        assert h[n] != ':';
      }
      if !(n == |h| || h[n] == ':') {
        RunBacktrack(h, k, n - 1);
      }
    }
  }

  /** A heading that the `CURRENT` alternative would accept is accepted by `[A-Z]+`
      first, with the same seven letters. */
  lemma CurrentIsUpperRun(h: string)
    requires StartsAt(h, 0, "CURRENT") && (|h| == 7 || h[7] == ':')
    ensures Run(h, 0, Upper) == 7
  {
    var u := Run(h, 0, Upper);
    assert All(h, 0, 7, Upper) by {
      assert h[..7] == "CURRENT";
    }
    RunCovers(h, 0, 7, Upper);
    if u > 7 {
      AllAt(h, 0, u, Upper, 7);
    }
  }

  /** The label rule: a heading that starts with a run of upper-case letters, or else a
      run of digits, followed by ':' or by the end of the heading, is labelled by that
      run; every other heading is its own label. The `CURRENT` alternative never
      decides anything, being a run of upper-case letters itself. */
  lemma LabelRule(h: string)
    ensures var u := Run(h, 0, Upper);
            var d := Run(h, 0, Digit);
            LabelFromHeading(h) ==
              if u >= 1 && (u == |h| || h[u] == ':') then h[..u]
              else if d >= 1 && (d == |h| || h[d] == ':') then h[..d]
              else h
  {
    var u := Run(h, 0, Upper);
    var d := Run(h, 0, Digit);
    RunBacktrack(h, Upper, u);
    RunBacktrack(h, Digit, d);
    if StartsAt(h, 0, "CURRENT") && (|h| == 7 || h[7] == ':') {
      CurrentIsUpperRun(h);
    }
  }

  lemma LabelOfLetterCode()
    ensures LabelFromHeading("A: Shape Name") == "A"
  {
    var h := "A: Shape Name";
    LabelRule(h);
    assert Run(h, 1, Upper) == 0;
  }

  lemma LabelOfCurrent()
    ensures LabelFromHeading("CURRENT: Live View") == "CURRENT"
  {
    var h := "CURRENT: Live View";
    LabelRule(h);
    CurrentIsUpperRun(h);
  }

  /** A number followed by anything but ':' is not a code: "12. Something" keeps its
      whole text as label, while "12" alone is labelled "12". */
  lemma LabelOfNumberedTitle()
    ensures LabelFromHeading("12") == "12"
    ensures LabelFromHeading("12. Something") == "12. Something"
  {
    var h := "12. Something";
    LabelRule("12");
    LabelRule(h);
    assert Run(h, 0, Upper) == 0;
    assert Run(h, 2, Digit) == 0;
  }

  lemma LabelOfPlainTitle()
    ensures LabelFromHeading("Just A Title") == "Just A Title"
  {
    var h := "Just A Title";
    LabelRule(h);
    assert Run(h, 1, Upper) == 0;
  }

  /** A non-empty heading always yields a non-empty label, so `label || ...` only falls
      back to "Diagram N" when there is no usable heading. */
  lemma HeadingLabelNonEmpty(h: string)
    requires h != ""
    ensures LabelFromHeading(h) != ""
  {
    LabelRule(h);
  }

  /** Which label a block gets. */
  lemma BlockLabelRule(heading: Option<string>, found: nat)
    ensures heading.Some? && heading.value != "" ==> BlockLabel(heading, found) == LabelFromHeading(heading.value)
    ensures heading.None? || heading.value == "" ==> BlockLabel(heading, found) == "Diagram " + NatToString(found + 1)
  {
    if heading.Some? && heading.value != "" {
      HeadingLabelNonEmpty(heading.value);
    }
  }

  // ---- properties of the extracted blocks ----

  /** Block `k` comes from the `k`-th match: its text is the trimmed body between the
      fence and the first "```" after it, and its label comes from the heading group
      right above the fence, numbered by `k` when there is none. */
  lemma BlockFromMatch(s: string, k: nat)
    requires k < |Matches(s, 0)|
    ensures |Blocks(s)| == |Matches(s, 0)|
    ensures var m := Matches(s, 0)[k];
            && Shaped(s, m)
            && Blocks(s)[k].mermaid == Trim(s[m.BodyStart()..m.close])
            && (m.heading.None? ==> Blocks(s)[k].title == "Diagram " + NatToString(k + 1))
            && (m.heading.Some? ==>
                  var h := Trim(s[m.heading.value.lo..m.heading.value.hi]);
                  Blocks(s)[k].title == if h == "" then "Diagram " + NatToString(k + 1) else LabelFromHeading(h))
  {
    ToBlocksLength(s, Matches(s, 0), 0);
    ToBlocksAt(s, Matches(s, 0), 0, k);
    MatchesShaped(s, 0, k);
    BlockLabelRule(HeadingOf(s, Matches(s, 0)[k]), k);
  }

  /** The body of a match, between its fence and its closing "```", holds no "```". */
  lemma BodyHasNoClose(s: string, m: Match)
    requires Shaped(s, m)
    ensures !Occurs(s[m.BodyStart()..m.close], Close)
  {
    assert FencedAt(s, m.fence, m.close);
    NowhereInSlice(s, m.BodyStart(), m.close, Close);
  }

  /** A block's text never contains "```": the body stops at the first one. */
  lemma BlockHasNoClose(s: string, k: nat)
    requires k < |Matches(s, 0)|
    ensures |Blocks(s)| == |Matches(s, 0)|
    ensures !Occurs(Blocks(s)[k].mermaid, Close)
  {
    var m := Matches(s, 0)[k];
    ToBlocksAt(s, Matches(s, 0), 0, k);
    MatchesShaped(s, 0, k);
    BodyHasNoClose(s, m);
    TrimmedOccurs(s[m.BodyStart()..m.close], Close);
  }

  /** Blocks come out in document order: the regions they were read from do not overlap
      and appear one after the other. */
  lemma BlocksInOrder(s: string, k: nat, l: nat)
    requires k < l < |Matches(s, 0)|
    ensures Matches(s, 0)[k].End() <= Matches(s, 0)[l].start
  {
  }

  /** Every block was read from a "```mermaid\n" fence in the document, so a document
      without one has no blocks. */
  lemma BlocksNeedFence(s: string)
    ensures Blocks(s) != [] ==> Occurs(s, Fence)
  {
    ToBlocksLength(s, Matches(s, 0), 0);
    if Blocks(s) != [] {
      MatchesShaped(s, 0, 0);
      var m := Matches(s, 0)[0];
      assert StartsAt(s, m.fence, Fence);
    }
  }

  /** The label of a first block headed "A: Map" is its code. */
  lemma HeadedDocumentLabel()
    ensures BlockLabel(Some(Trim("A: Map")), 0) == "A"
  {
    var h := "A: Map";
    assert Trim(h) == h;
    LabelRule(h);
    assert Run(h, 1, Upper) == 0;
  }

  /** The block's source is its body without the line feed before the closing "```". */
  lemma HeadedDocumentSource()
    ensures Trim("X\n") == "X"
  {
    assert TrimStart("X\n") == "X\n";
  }

  /** A document with one headed diagram yields one block, labelled with the heading's
      code and holding the trimmed diagram source. */
  lemma HeadedDocumentBlocks(s: string)
    requires s == HeadedDocument
    ensures Blocks(s) == [Block("A", "X")]
  {
    HeadedDocumentMatches(s);
    HeadedDocumentText(s);
    HeadedDocumentLabel();
    HeadedDocumentSource();
    var m := Match(0, 0, Some(Heading(2, 3, 9)), 10, 23);
    assert ToBlock(s, m, 0) == Block("A", "X");
    assert Blocks(s) == [ToBlock(s, m, 0)];
  }
}
