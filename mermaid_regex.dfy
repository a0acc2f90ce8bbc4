/** The pattern `extractMermaidBlocks` runs over a markdown document,

      (?:^|\n)(#{1,3}\s+([^\n]+))?\n*```mermaid\n([\s\S]*?)```     (flag g, no m)

    modelled as the backtracking search a JavaScript engine performs: at each start
    position the alternatives are tried in order, every greedy quantifier first takes
    its longest run and then gives back one character at a time, and the lazy body
    stops at the first "```" after the fence. `Exec` is one call of `regex.exec`. */
module MermaidRegex {
  import opened Wrappers
  import opened JsText

  const Fence: string := "```mermaid\n"
  const Close: string := "```"

  /** A heading group `#{1,3}\s+([^\n]+)`: how many `#` it used and where group 2 lies. */
  datatype Heading = Heading(hashes: nat, lo: nat, hi: nat)

  /** The fence "```mermaid\n" at `fence`, closed by the "```" at `close`. */
  datatype Fenced = Fenced(fence: nat, close: nat)

  /** One match. `start` is where it begins (the `^` position or the consumed line feed),
      `lineStart` where the optional heading group was tried. */
  datatype Match = Match(start: nat, lineStart: nat, heading: Option<Heading>, fence: nat, close: nat)
  {
    function BodyStart(): nat { fence + |Fence| }
    function End(): nat { close + |Close| }
  }

  /** Everything between `lo` and `hi` is a line feed. */
  predicate LineFeeds(s: string, lo: nat, hi: nat)
    requires hi <= |s|
  {
    All(s, lo, hi, LineFeed)
  }

  /** "```mermaid\n" at `f`, and `c` is the first "```" after it. */
  ghost predicate FencedAt(s: string, f: nat, c: nat)
  {
    && StartsAt(s, f, Fence)
    && f + |Fence| <= c
    && StartsAt(s, c, Close)
    && NowhereIn(s, f + |Fence|, c, Close)
  }

  /** A heading group starting at `q`: one to three `#`, at least one whitespace
      character, then text without a line feed ending at `h.hi`, and nothing but
      line feeds from there up to the fence. */
  ghost predicate HeadingShaped(s: string, q: nat, h: Heading, fence: nat)
  {
    && 1 <= h.hashes <= 3
    && q + h.hashes < h.lo < h.hi <= fence <= |s|
    && All(s, q, q + h.hashes, Hash)
    && All(s, q + h.hashes, h.lo, Space)
    && All(s, h.lo, h.hi, NotLineFeed)
    && LineFeeds(s, h.hi, fence)
  }

  /** What the pattern matches after `(?:^|\n)`, from `q` on: the optional heading
      group, then only line feeds, then a closed fence. */
  ghost predicate TailShaped(s: string, q: nat, heading: Option<Heading>, fence: nat, close: nat)
  {
    && q <= fence
    && FencedAt(s, fence, close)
    && match heading
       case None => LineFeeds(s, q, fence)
       case Some(h) => HeadingShaped(s, q, h, fence)
  }

  /** What every match of the pattern looks like. */
  ghost predicate Shaped(s: string, m: Match)
  {
    && ((m.lineStart == m.start == 0) || (m.lineStart == m.start + 1 && m.start < |s| && s[m.start] == '\n'))
    && TailShaped(s, m.lineStart, m.heading, m.fence, m.close)
  }

  /** `([\s\S]*?)```` from `b`: the first "```" at or after `b`, if any. */
  function FirstClose(s: string, b: nat): (r: Option<nat>)
    requires b <= |s|
    ensures r.Some? ==> b <= r.value && StartsAt(s, r.value, Close)
    ensures r.Some? ==> NowhereIn(s, b, r.value, Close)
    ensures r.None? ==> forall c: nat :: b <= c ==> !StartsAt(s, c, Close)
    decreases |s| - b
  {
    if b + |Close| > |s| then None
    else if StartsAt(s, b, Close) then Some(b)
    else FirstClose(s, b + 1)
  }

  /** "```mermaid\n" at `f` followed by a lazily closed body. */
  function FencedBody(s: string, f: nat): (r: Option<nat>)
    requires f <= |s|
    ensures r.Some? ==> FencedAt(s, f, r.value)
  {
    if StartsAt(s, f, Fence) then FirstClose(s, f + |Fence|) else None
  }

  /** `\n*` at `e` having consumed `n` line feeds, giving them back one at a time. */
  function NewlinesThenFence(s: string, e: nat, n: nat): Option<Fenced>
    requires e + n <= |s|
    requires LineFeeds(s, e, e + n)
    decreases n
  {
    match FencedBody(s, e + n)
    case Some(c) => Some(Fenced(e + n, c))
    case None =>
      if n == 0 then None
      else
        AllPrefix(s, e, e + n, e + n - 1, LineFeed);
        NewlinesThenFence(s, e, n - 1)
  }

  /** Group 2 `[^\n]+` starting at `t0` having consumed `t` characters. */
  function HeadingText(s: string, t0: nat, t: nat): Option<(nat, Fenced)>
    requires t0 + t <= |s|
    requires All(s, t0, t0 + t, NotLineFeed)
    decreases t
  {
    if t == 0 then None
    else
      match NewlinesThenFence(s, t0 + t, Run(s, t0 + t, LineFeed))
      case Some(fc) => Some((t0 + t, fc))
      case None =>
        AllPrefix(s, t0, t0 + t, t0 + t - 1, NotLineFeed);
        HeadingText(s, t0, t - 1)
  }

  /** `\s+` starting at `r0` having consumed `w` whitespace characters. */
  function SpaceThenText(s: string, r0: nat, w: nat): Option<(nat, nat, Fenced)>
    requires r0 + w <= |s|
    requires All(s, r0, r0 + w, Space)
    decreases w
  {
    if w == 0 then None
    else
      match HeadingText(s, r0 + w, Run(s, r0 + w, NotLineFeed))
      case Some((hi, fc)) => Some((r0 + w, hi, fc))
      case None =>
        AllPrefix(s, r0, r0 + w, r0 + w - 1, Space);
        SpaceThenText(s, r0, w - 1)
  }

  /** `#{1,3}` at `q` having consumed `h` hashes. */
  function HashesThen(s: string, q: nat, h: nat): Option<(Heading, Fenced)>
    requires h <= 3 && q + h <= |s|
    requires All(s, q, q + h, Hash)
    decreases h
  {
    if h == 0 then None
    else
      match SpaceThenText(s, q + h, Run(s, q + h, Space))
      case Some((lo, hi, fc)) => Some((Heading(h, lo, hi), fc))
      case None =>
        AllPrefix(s, q, q + h, q + h - 1, Hash);
        HashesThen(s, q, h - 1)
  }

  /** How many `#` the greedy `#{1,3}` takes first at `q`: the run, capped at three. */
  function HashRun(s: string, q: nat): (h: nat)
    requires q <= |s|
    ensures h <= 3 && q + h <= |s| && All(s, q, q + h, Hash)
  {
    var hashes := Run(s, q, Hash);
    var h := if hashes <= 3 then hashes else 3;
    AllPrefix(s, q, q + hashes, q + h, Hash);
    h
  }

  // ---- what each search finds has the pattern's shape ----

  /** `\n*` finds only line feeds, up to a closed fence. */
  lemma {:induction false} NewlinesThenFenceShaped(s: string, e: nat, n: nat)
    requires e + n <= |s| && LineFeeds(s, e, e + n)
    ensures var r := NewlinesThenFence(s, e, n);
            r.Some? ==> && e <= r.value.fence <= e + n && LineFeeds(s, e, r.value.fence)
                        && FencedAt(s, r.value.fence, r.value.close)
    decreases n
  {
    if FencedBody(s, e + n).None? && n > 0 {
      AllPrefix(s, e, e + n, e + n - 1, LineFeed);
      NewlinesThenFenceShaped(s, e, n - 1);
    }
  }

  /** Group 2 is non-empty and free of line feeds, and only line feeds follow it up to a
      closed fence. */
  lemma {:induction false} HeadingTextShaped(s: string, t0: nat, t: nat)
    requires t0 + t <= |s| && All(s, t0, t0 + t, NotLineFeed)
    ensures var r := HeadingText(s, t0, t);
            r.Some? ==> && t0 < r.value.0 <= t0 + t <= |s| && All(s, t0, r.value.0, NotLineFeed)
                        && FencedAt(s, r.value.1.fence, r.value.1.close)
                        && r.value.0 <= r.value.1.fence && LineFeeds(s, r.value.0, r.value.1.fence)
    decreases t
  {
    if t > 0 {
      NewlinesThenFenceShaped(s, t0 + t, Run(s, t0 + t, LineFeed));
      if NewlinesThenFence(s, t0 + t, Run(s, t0 + t, LineFeed)).None? {
        AllPrefix(s, t0, t0 + t, t0 + t - 1, NotLineFeed);
        HeadingTextShaped(s, t0, t - 1);
      }
    }
  }

  /** `\s+` takes at least one whitespace character, and group 2 follows it. */
  lemma {:induction false} SpaceThenTextShaped(s: string, r0: nat, w: nat)
    requires r0 + w <= |s| && All(s, r0, r0 + w, Space)
    ensures var r := SpaceThenText(s, r0, w);
            r.Some? ==> && r0 < r.value.0 <= r0 + w && r.value.0 < r.value.1 <= r.value.2.fence <= |s|
                        && All(s, r0, r.value.0, Space) && All(s, r.value.0, r.value.1, NotLineFeed)
                        && LineFeeds(s, r.value.1, r.value.2.fence) && FencedAt(s, r.value.2.fence, r.value.2.close)
    decreases w
  {
    if w > 0 {
      HeadingTextShaped(s, r0 + w, Run(s, r0 + w, NotLineFeed));
      if HeadingText(s, r0 + w, Run(s, r0 + w, NotLineFeed)).None? {
        AllPrefix(s, r0, r0 + w, r0 + w - 1, Space);
        SpaceThenTextShaped(s, r0, w - 1);
      }
    }
  }

  /** The heading group uses at most the hashes it consumed and has the shape
      `#{1,3}\s+[^\n]+`, followed by line feeds and a closed fence. */
  lemma {:induction false} HashesThenShaped(s: string, q: nat, h: nat)
    requires h <= 3 && q + h <= |s| && All(s, q, q + h, Hash)
    ensures var r := HashesThen(s, q, h);
            r.Some? ==> && r.value.0.hashes <= h && HeadingShaped(s, q, r.value.0, r.value.1.fence)
                        && FencedAt(s, r.value.1.fence, r.value.1.close)
    decreases h
  {
    if h > 0 {
      SpaceThenTextShaped(s, q + h, Run(s, q + h, Space));
      if SpaceThenText(s, q + h, Run(s, q + h, Space)).None? {
        AllPrefix(s, q, q + h, q + h - 1, Hash);
        HashesThenShaped(s, q, h - 1);
      }
    }
  }

  /** Everything after `(?:^|\n)`: the optional heading group (tried first, being
      greedy), then `\n*`, the fence and the body. */
  function Tail(s: string, q: nat): (r: Option<(Option<Heading>, Fenced)>)
    requires q <= |s|
    ensures r.Some? ==> TailShaped(s, q, r.value.0, r.value.1.fence, r.value.1.close)
  {
    HashesThenShaped(s, q, HashRun(s, q));
    NewlinesThenFenceShaped(s, q, Run(s, q, LineFeed));
    match HashesThen(s, q, HashRun(s, q))
    case Some((h, fc)) => Some((Some(h), fc))
    case None =>
      match NewlinesThenFence(s, q, Run(s, q, LineFeed))
      case Some(fc) => Some((None, fc))
      case None => None
  }

  // ---- every search tries every split: what has the pattern's shape is found ----

  /** The lazy body stops at the "```" that a closed fence names. */
  lemma FirstCloseAt(s: string, b: nat, c: nat)
    requires b <= c && StartsAt(s, c, Close) && NowhereIn(s, b, c, Close)
    ensures FirstClose(s, b) == Some(c)
  {
    var r := FirstClose(s, b);
    if r.value < c {
      NowhereAt(s, b, c, Close, r.value);
    } else if c < r.value {
      NowhereAt(s, b, r.value, Close, c);
    }
  }

  lemma FencedBodyAt(s: string, f: nat, c: nat)
    requires FencedAt(s, f, c)
    ensures f <= |s| && FencedBody(s, f) == Some(c)
  {
    FirstCloseAt(s, f + |Fence|, c);
  }

  /** `\n*` with `n` line feeds succeeds when the fence is closed right after them, or
      after giving one back. */
  lemma NewlinesThenFenceStep(s: string, e: nat, n: nat)
    requires 0 < n && e + n <= |s| && LineFeeds(s, e, e + n) && LineFeeds(s, e, e + n - 1)
    ensures FencedBody(s, e + n).Some? ==> NewlinesThenFence(s, e, n).Some?
    ensures NewlinesThenFence(s, e, n - 1).Some? ==> NewlinesThenFence(s, e, n).Some?
  {
  }

  /** `\n*` finds a closed fence that only line feeds separate from `e`. */
  lemma {:induction false} NewlinesThenFenceFinds(s: string, e: nat, n: nat, f: nat)
    requires e + n <= |s| && LineFeeds(s, e, e + n)
    requires e <= f <= e + n && FencedBody(s, f).Some?
    ensures NewlinesThenFence(s, e, n).Some?
    decreases n
  {
    if f < e + n {
      AllPrefix(s, e, e + n, e + n - 1, LineFeed);
      NewlinesThenFenceStep(s, e, n);
      NewlinesThenFenceFinds(s, e, n - 1, f);
    }
  }

  /** Group 2 succeeds with `t` characters when the rest succeeds right after them, or
      after giving one back. */
  lemma HeadingTextStep(s: string, t0: nat, t: nat)
    requires 0 < t && t0 + t <= |s| && All(s, t0, t0 + t, NotLineFeed) && All(s, t0, t0 + t - 1, NotLineFeed)
    ensures NewlinesThenFence(s, t0 + t, Run(s, t0 + t, LineFeed)).Some? ==> HeadingText(s, t0, t).Some?
    ensures HeadingText(s, t0, t - 1).Some? ==> HeadingText(s, t0, t).Some?
  {
  }

  /** Group 2 finds a heading text ending at `hi` when the rest of the pattern succeeds
      right after it. */
  lemma {:induction false} HeadingTextFinds(s: string, t0: nat, t: nat, hi: nat)
    requires t0 + t <= |s| && All(s, t0, t0 + t, NotLineFeed)
    requires t0 < hi <= t0 + t && NewlinesThenFence(s, hi, Run(s, hi, LineFeed)).Some?
    ensures HeadingText(s, t0, t).Some?
    decreases t
  {
    AllPrefix(s, t0, t0 + t, t0 + t - 1, NotLineFeed);
    HeadingTextStep(s, t0, t);
    if hi < t0 + t {
      HeadingTextFinds(s, t0, t - 1, hi);
    }
  }

  /** `\s+` succeeds with `w` characters when group 2 succeeds right after them, or
      after giving one back. */
  lemma SpaceThenTextStep(s: string, r0: nat, w: nat)
    requires 0 < w && r0 + w <= |s| && All(s, r0, r0 + w, Space) && All(s, r0, r0 + w - 1, Space)
    ensures HeadingText(s, r0 + w, Run(s, r0 + w, NotLineFeed)).Some? ==> SpaceThenText(s, r0, w).Some?
    ensures SpaceThenText(s, r0, w - 1).Some? ==> SpaceThenText(s, r0, w).Some?
  {
  }

  /** `\s+` finds whitespace up to `lo` when group 2 succeeds from `lo`. */
  lemma {:induction false} SpaceThenTextFinds(s: string, r0: nat, w: nat, lo: nat)
    requires r0 + w <= |s| && All(s, r0, r0 + w, Space)
    requires r0 < lo <= r0 + w && HeadingText(s, lo, Run(s, lo, NotLineFeed)).Some?
    ensures SpaceThenText(s, r0, w).Some?
    decreases w
  {
    AllPrefix(s, r0, r0 + w, r0 + w - 1, Space);
    SpaceThenTextStep(s, r0, w);
    if lo < r0 + w {
      SpaceThenTextFinds(s, r0, w - 1, lo);
    }
  }

  /** `#{1,3}` succeeds with `h` hashes when `\s+` succeeds right after them, or after
      giving one back. */
  lemma HashesThenStep(s: string, q: nat, h: nat)
    requires 0 < h <= 3 && q + h <= |s| && All(s, q, q + h, Hash) && All(s, q, q + h - 1, Hash)
    ensures SpaceThenText(s, q + h, Run(s, q + h, Space)).Some? ==> HashesThen(s, q, h).Some?
    ensures HashesThen(s, q, h - 1).Some? ==> HashesThen(s, q, h).Some?
  {
  }

  /** `#{1,3}` finds a heading group with `k` hashes when `\s+` succeeds after them. */
  lemma {:induction false} HashesThenFinds(s: string, q: nat, h: nat, k: nat)
    requires h <= 3 && q + h <= |s| && All(s, q, q + h, Hash)
    requires 0 < k <= h && SpaceThenText(s, q + k, Run(s, q + k, Space)).Some?
    ensures HashesThen(s, q, h).Some?
    decreases h
  {
    AllPrefix(s, q, q + h, q + h - 1, Hash);
    HashesThenStep(s, q, h);
    if k < h {
      HashesThenFinds(s, q, h - 1, k);
    }
  }

  /** Each quantifier, starting from its greedy run, reaches a split after which the
      rest of the pattern succeeds. */
  lemma FenceFromRun(s: string, hi: nat, f: nat)
    requires hi <= f <= |s| && LineFeeds(s, hi, f) && FencedBody(s, f).Some?
    ensures NewlinesThenFence(s, hi, Run(s, hi, LineFeed)).Some?
  {
    RunCovers(s, hi, f, LineFeed);
    NewlinesThenFenceFinds(s, hi, Run(s, hi, LineFeed), f);
  }

  lemma TextFromRun(s: string, lo: nat, hi: nat)
    requires lo < hi <= |s| && All(s, lo, hi, NotLineFeed)
    requires NewlinesThenFence(s, hi, Run(s, hi, LineFeed)).Some?
    ensures HeadingText(s, lo, Run(s, lo, NotLineFeed)).Some?
  {
    RunCovers(s, lo, hi, NotLineFeed);
    HeadingTextFinds(s, lo, Run(s, lo, NotLineFeed), hi);
  }

  lemma SpaceFromRun(s: string, r: nat, lo: nat)
    requires r < lo <= |s| && All(s, r, lo, Space)
    requires HeadingText(s, lo, Run(s, lo, NotLineFeed)).Some?
    ensures SpaceThenText(s, r, Run(s, r, Space)).Some?
  {
    RunCovers(s, r, lo, Space);
    SpaceThenTextFinds(s, r, Run(s, r, Space), lo);
  }

  lemma HashesFromRun(s: string, q: nat, k: nat)
    requires 0 < k <= 3 && q + k <= |s| && All(s, q, q + k, Hash)
    requires SpaceThenText(s, q + k, Run(s, q + k, Space)).Some?
    ensures HashesThen(s, q, HashRun(s, q)).Some?
  {
    RunCovers(s, q, q + k, Hash);
    assert k <= HashRun(s, q);
    HashesThenFinds(s, q, HashRun(s, q), k);
  }

  /** A closed fence that only line feeds separate from `hi` is reached. */
  lemma FenceFollows(s: string, hi: nat, f: nat, c: nat)
    requires hi <= f <= |s| && LineFeeds(s, hi, f) && FencedAt(s, f, c)
    ensures NewlinesThenFence(s, hi, Run(s, hi, LineFeed)).Some?
  {
    FencedBodyAt(s, f, c);
    FenceFromRun(s, hi, f);
  }

  /** A heading line with the pattern's shape is reached, layer by layer. */
  lemma HashesFollow(s: string, q: nat, hd: Heading, f: nat, c: nat)
    requires HeadingShaped(s, q, hd, f) && FencedAt(s, f, c)
    ensures HashesThen(s, q, HashRun(s, q)).Some?
  {
    FenceFollows(s, hd.hi, f, c);
    TextFromRun(s, hd.lo, hd.hi);
    SpaceFromRun(s, q + hd.hashes, hd.lo);
    HashesFromRun(s, q, hd.hashes);
  }

  /** When the heading group succeeds, `Tail` keeps it. */
  lemma TailTakesHeading(s: string, q: nat)
    requires q <= |s| && HashesThen(s, q, HashRun(s, q)).Some?
    ensures Tail(s, q).Some? && Tail(s, q).value.0.Some?
  {
  }

  /** Without a heading group, `Tail` falls back to `\n*` and the fence. */
  lemma TailWithoutHeading(s: string, q: nat)
    requires q <= |s| && NewlinesThenFence(s, q, Run(s, q, LineFeed)).Some?
    ensures Tail(s, q).Some?
  {
  }

  /** Whatever has the pattern's shape after `(?:^|\n)` is found, and the greedy optional
      heading group is taken whenever a heading line sits above the fence with only line
      feeds in between. */
  lemma TailFinds(s: string, q: nat, heading: Option<Heading>, f: nat, c: nat)
    requires q <= |s| && TailShaped(s, q, heading, f, c)
    ensures Tail(s, q).Some?
    ensures heading.Some? ==> Tail(s, q).value.0.Some?
  {
    match heading
    case Some(hd) =>
      HashesFollow(s, q, hd, f, c);
      TailTakesHeading(s, q);
    case None =>
      FenceFollows(s, q, f, c);
      TailWithoutHeading(s, q);
  }

  /** The match whose `(?:^|\n)` part starts at `start` and ends at `q`. */
  function MatchFrom(s: string, start: nat, q: nat): (r: Option<Match>)
    requires q <= |s|
    requires (q == start == 0) || (q == start + 1 && start < |s| && s[start] == '\n')
    ensures r.Some? ==> r.value.start == start && Shaped(s, r.value)
    ensures r.Some? ==> start < r.value.End() <= |s| && Bounded(s, r.value)
  {
    match Tail(s, q)
    case None => None
    case Some((h, fc)) => Some(Match(start, q, h, fc.fence, fc.close))
  }

  /** The match starting exactly at `p`, if any: `^` first (only at 0), then `\n`. */
  function MatchAt(s: string, p: nat): (r: Option<Match>)
    ensures r.Some? ==> r.value.start == p && Shaped(s, r.value)
    ensures r.Some? ==> p < r.value.End() <= |s| && Bounded(s, r.value)
  {
    var atStart := if p == 0 then MatchFrom(s, 0, 0) else None;
    if atStart.Some? then atStart
    else if p < |s| && s[p] == '\n' then MatchFrom(s, p, p + 1)
    else None
  }

  /** The positions a block is built from lie inside the document, in order. */
  predicate Bounded(s: string, m: Match)
  {
    && m.BodyStart() <= m.close
    && m.End() <= |s|
    && (m.heading.Some? ==> m.heading.value.lo <= m.heading.value.hi <= m.fence)
  }

  // ---- the search of `exec` and the extractor's loop, for any matcher ----

  /** What a pattern reports at each start position. */
  type Matcher = nat -> Option<Match>

  /** What `at` reports at `p` starts at `p` and ends after it, by `n`. */
  ghost predicate Anchored(at: Matcher, n: nat)
  {
    forall p: nat :: at(p).Some? ==> at(p).value.start == p < at(p).value.End() <= n
  }

  /** A global regex's `exec` from `lastIndex == from`: the match at the first position
      from `from` up to `n` where there is one. */
  function Scan(at: Matcher, n: nat, from: nat): Option<Match>
    requires from <= n
    decreases n - from
  {
    match at(from)
    case Some(m) => Some(m)
    case None => if from == n then None else Scan(at, n, from + 1)
  }

  /** `exec` reports the match at the position where it stopped, at or after `from`. */
  lemma {:induction false} ScanReports(at: Matcher, n: nat, from: nat)
    requires from <= n && Anchored(at, n)
    ensures var r := Scan(at, n, from);
            r.Some? ==> from <= r.value.start && at(r.value.start) == r
    decreases n - from
  {
    if at(from).None? && from < n {
      ScanReports(at, n, from + 1);
    }
  }

  /** `exec` does not skip a position where the pattern matches: it reports that
      match or one that starts earlier. */
  lemma {:induction false} ScanFinds(at: Matcher, n: nat, from: nat, g: nat)
    requires from <= g <= n && Anchored(at, n) && at(g).Some?
    ensures Scan(at, n, from).Some? && Scan(at, n, from).value.start <= g
    decreases g - from
  {
    if at(from).None? {
      ScanFinds(at, n, from + 1, g);
    }
  }

  /** The successive results of `exec` in a loop that resumes each call at the end of
      the previous match, until a call finds nothing. */
  function ScanAll(at: Matcher, n: nat, from: nat): (ms: seq<Match>)
    requires from <= n && Anchored(at, n)
    ensures forall k :: 0 <= k < |ms| ==> from <= ms[k].start && at(ms[k].start) == Some(ms[k])
    ensures forall k, l :: 0 <= k < l < |ms| ==> ms[k].End() <= ms[l].start
    decreases n - from
  {
    match Scan(at, n, from)
    case None => []
    case Some(m) =>
      ScanReports(at, n, from);
      [m] + ScanAll(at, n, m.End())
  }

  /** A position where the pattern matches lies inside one of the loop's matches. */
  lemma {:induction false} ScanAllCovers(at: Matcher, n: nat, from: nat, g: nat) returns (k: nat)
    requires from <= g <= n && Anchored(at, n) && at(g).Some?
    ensures k < |ScanAll(at, n, from)| && ScanAll(at, n, from)[k].start <= g < ScanAll(at, n, from)[k].End()
    decreases n - from
  {
    ScanFinds(at, n, from, g);
    ScanReports(at, n, from);
    var m := Scan(at, n, from).value;
    assert ScanAll(at, n, from) == [m] + ScanAll(at, n, m.End());
    if m.End() <= g {
      var j := ScanAllCovers(at, n, m.End(), g);
      k := j + 1;
    } else {
      k := 0;
    }
  }

  // ---- the extractor's pattern ----

  function MatcherOf(s: string): Matcher
  {
    (p: nat) => MatchAt(s, p)
  }

  lemma MatcherAnchored(s: string)
    ensures Anchored(MatcherOf(s), |s|)
  {
  }

  /** `regex.exec(markdown)` with `lastIndex == from`: the leftmost match at or after `from`. */
  function Exec(s: string, from: nat): (r: Option<Match>)
    requires from <= |s|
    ensures r.Some? ==> from <= r.value.start < r.value.End() <= |s| && Bounded(s, r.value)
  {
    MatcherAnchored(s);
    ScanReports(MatcherOf(s), |s|, from);
    Scan(MatcherOf(s), |s|, from)
  }

  /** The successive results of `regex.exec` in the extractor's loop: each call resumes
      at `lastIndex`, the end of the previous match. */
  function Matches(s: string, from: nat): (ms: seq<Match>)
    requires from <= |s|
    ensures forall k :: 0 <= k < |ms| ==> from <= ms[k].start < ms[k].End() <= |s| && Bounded(s, ms[k])
    ensures forall k, l :: 0 <= k < l < |ms| ==> ms[k].End() <= ms[l].start
  {
    MatcherAnchored(s);
    ScanAll(MatcherOf(s), |s|, from)
  }

  /** The loop's matches from `from`: none when `exec` finds nothing, otherwise its
      result followed by the matches from that result's end. */
  lemma MatchesUnfold(s: string, from: nat)
    requires from <= |s|
    ensures Matches(s, from) == match Exec(s, from)
                                case None => []
                                case Some(m) => [m] + Matches(s, m.End())
  {
    MatcherAnchored(s);
  }

  /** Every match the loop sees has the shape of the pattern. */
  lemma MatchesShaped(s: string, from: nat, k: nat)
    requires from <= |s| && k < |Matches(s, from)|
    ensures Shaped(s, Matches(s, from)[k])
  {
    MatcherAnchored(s);
    var ms := ScanAll(MatcherOf(s), |s|, from);
    assert MatchAt(s, ms[k].start) == Some(ms[k]);
  }

  /** A match from `q` exists exactly when the rest of the pattern matches at `q`, and
      it carries the heading group the rest of the pattern found. */
  lemma MatchFromTail(s: string, start: nat, q: nat)
    requires q <= |s|
    requires (q == start == 0) || (q == start + 1 && start < |s| && s[start] == '\n')
    ensures MatchFrom(s, start, q).Some? <==> Tail(s, q).Some?
    ensures MatchFrom(s, start, q).Some? ==> MatchFrom(s, start, q).value.heading == Tail(s, q).value.0
  {
  }

  /** Away from position 0, only the `\n` alternative can match. */
  lemma MatchAtLineFeed(s: string, p: nat)
    requires 0 < p < |s| && s[p] == '\n'
    ensures MatchAt(s, p) == MatchFrom(s, p, p + 1)
  {
  }

  /** At position 0, `^` is tried first and `\n` only when `^` fails. */
  lemma MatchAtZero(s: string)
    ensures MatchFrom(s, 0, 0).Some? ==> MatchAt(s, 0) == MatchFrom(s, 0, 0)
    ensures MatchFrom(s, 0, 0).None? && 0 < |s| && s[0] == '\n' ==> MatchAt(s, 0) == MatchFrom(s, 0, 1)
  {
  }

  /** A fence at the start of the document or of a line, with a "```" somewhere after
      it, gives a match starting at that line's line feed (or at 0). */
  lemma LineStartFenceMatches(s: string, f: nat, c: nat)
    requires StartsAt(s, f, Fence) && f + |Fence| <= c && StartsAt(s, c, Close)
    requires f == 0 || s[f - 1] == '\n'
    ensures MatchAt(s, if f == 0 then 0 else f - 1).Some?
  {
    FenceTail(s, f, c);
    var g := if f == 0 then 0 else f - 1;
    MatchFromTail(s, g, f);
    if g == 0 {
      MatchAtZero(s);
      if f == 1 {
        MatchFromTail(s, 0, 0);
      }
    } else {
      MatchAtLineFeed(s, g);
    }
  }

  /** A fence with a "```" somewhere after it completes the pattern without a heading. */
  lemma FenceTail(s: string, f: nat, c: nat)
    requires StartsAt(s, f, Fence) && f + |Fence| <= c && StartsAt(s, c, Close)
    ensures Tail(s, f).Some?
  {
    var close := FirstClose(s, f + |Fence|).value;
    assert FencedBody(s, f) == Some(close);
    TailFinds(s, f, None, f, close);
  }



  /** A line feed followed by a `#` is not where `^` can match. */
  lemma NoMatchBeforeHashLine(s: string)
    requires 2 <= |s| && s[0] == '\n' && s[1] == '#'
    ensures Tail(s, 0).None?
  {
    assert Run(s, 0, Hash) == 0 && Run(s, 0, LineFeed) == 1;
    assert !StartsAt(s, 0, Fence) && !StartsAt(s, 1, Fence);
  }

  /** What the rest of the pattern finds after a line feed (or at 0) is the match at
      that line feed, when `^` has not already matched at 0. */
  lemma MatchAtCarries(s: string, q: nat)
    requires q <= |s| && (q == 0 || s[q - 1] == '\n')
    requires q == 1 ==> Tail(s, 0).None?
    requires Tail(s, q).Some? && Tail(s, q).value.0.Some?
    ensures MatchAt(s, if q == 0 then 0 else q - 1).Some?
    ensures MatchAt(s, if q == 0 then 0 else q - 1).value.heading.Some?
  {
    var g := if q == 0 then 0 else q - 1;
    if q == 1 {
      MatchFromTail(s, 0, 0);
    }
    MatchFromTail(s, g, q);
    var m := MatchFrom(s, g, q).value;
    assert m.heading.Some?;
    if g == 0 {
      MatchAtZero(s);
    } else {
      MatchAtLineFeed(s, g);
    }
    assert MatchAt(s, g) == Some(m);
  }

  /** A heading line at the start of the document or of a line, separated from a closed
      fence by line feeds only, gives a match at that line feed (or at 0) that carries
      a heading group. */
  lemma HeadingAttached(s: string, q: nat, hd: Heading, f: nat, c: nat)
    requires q == 0 || (q <= |s| && s[q - 1] == '\n')
    requires HeadingShaped(s, q, hd, f) && FencedAt(s, f, c)
    ensures MatchAt(s, if q == 0 then 0 else q - 1).Some?
    ensures MatchAt(s, if q == 0 then 0 else q - 1).value.heading.Some?
  {
    TailFinds(s, q, Some(hd), f, c);
    if q == 1 {
      AllAt(s, q, q + hd.hashes, Hash, q);
      NoMatchBeforeHashLine(s);
    }
    MatchAtCarries(s, q);
  }

  /** A position where the pattern matches lies inside one of the loop's matches. */
  lemma MatchCovered(s: string, g: nat)
    requires g <= |s| && MatchAt(s, g).Some?
    ensures exists k :: 0 <= k < |Matches(s, 0)| && Matches(s, 0)[k].start <= g < Matches(s, 0)[k].End()
  {
    MatcherAnchored(s);
    assert MatcherOf(s)(g) == MatchAt(s, g);
    var k := ScanAllCovers(MatcherOf(s), |s|, 0, g);
    assert Matches(s, 0) == ScanAll(MatcherOf(s), |s|, 0);
    assert 0 <= k < |Matches(s, 0)| && Matches(s, 0)[k].start <= g < Matches(s, 0)[k].End();
  }

  /** No fence that starts a line and has a "```" after it is skipped: the loop's matches cover the line
      feed in front of it (or position 0), either as that fence's own match or because
      an earlier match's body or a later match's heading swallowed it. */
  lemma FenceCovered(s: string, f: nat, c: nat)
    requires StartsAt(s, f, Fence) && f + |Fence| <= c && StartsAt(s, c, Close)
    requires f == 0 || s[f - 1] == '\n'
    ensures var g := if f == 0 then 0 else f - 1;
            exists k :: 0 <= k < |Matches(s, 0)| && Matches(s, 0)[k].start <= g < Matches(s, 0)[k].End()
  {
    LineStartFenceMatches(s, f, c);
    MatchCovered(s, if f == 0 then 0 else f - 1);
  }

  // ---- one document, step by step ----

  /** A level-2 heading on the line before a fenced body. */
  const HeadedDocument: string := "## A: Map\n```mermaid\nX\n```"

  /** The fence on the second line is closed by the first "```" after it. */
  lemma HeadedDocumentFence(s: string)
    requires s == HeadedDocument
    ensures FencedBody(s, 10) == Some(23)
  {
    assert StartsAt(s, 23, Close);
    assert s[21..24][0] == 'X' && s[22..25][0] == '\n';
    FirstCloseAt(s, 21, 23);
    assert StartsAt(s, 10, Fence);
  }

  /** How far the greedy `#{1,3}` and `\s+` reach first. */
  lemma HeadedDocumentMarker(s: string)
    requires s == HeadedDocument
    ensures Run(s, 0, Hash) == 2 && Run(s, 2, Space) == 1
  {
    assert s[0] == '#' && s[1] == '#' && s[2] == ' ' && s[3] == 'A';
    RunTo(s, 0, 2, Hash);
    RunTo(s, 2, 3, Space);
  }

  /** How far the greedy `[^\n]+` and `\n*` reach first. */
  lemma HeadedDocumentLine(s: string)
    requires s == HeadedDocument
    ensures Run(s, 3, NotLineFeed) == 6 && Run(s, 9, LineFeed) == 1
  {
    assert s[3] == 'A' && s[4] == ':' && s[5] == ' ' && s[6] == 'M' && s[7] == 'a' && s[8] == 'p';
    assert s[9] == '\n' && s[10] == '`';
    assert All(s, 3, 9, NotLineFeed);
    RunTo(s, 3, 9, NotLineFeed);
    RunTo(s, 9, 10, LineFeed);
  }

  /** The match takes the heading's text from after "## " to the end of its line, the
      fence on the next line and the first "```" after it: no quantifier gives back. */
  lemma HeadedDocumentMatch(s: string)
    requires s == HeadedDocument
    ensures MatchAt(s, 0) == Some(Match(0, 0, Some(Heading(2, 3, 9)), 10, 23))
  {
    HeadedDocumentFence(s);
    HeadedDocumentMarker(s);
    HeadedDocumentLine(s);
    assert NewlinesThenFence(s, 9, 1) == Some(Fenced(10, 23));
    assert HeadingText(s, 3, 6) == Some((9, Fenced(10, 23)));
    assert SpaceThenText(s, 2, 1) == Some((3, 9, Fenced(10, 23)));
    assert HashesThen(s, 0, 2) == Some((Heading(2, 3, 9), Fenced(10, 23)));
  }

  /** The loop finds that one match and nothing after it. */
  lemma HeadedDocumentMatches(s: string)
    requires s == HeadedDocument
    ensures Matches(s, 0) == [Match(0, 0, Some(Heading(2, 3, 9)), 10, 23)]
  {
    HeadedDocumentMatch(s);
    MatchesUnfold(s, 0);
    MatchesUnfold(s, |s|);
    assert MatcherOf(s)(0) == MatchAt(s, 0);
    assert MatcherOf(s)(|s|) == None;
  }

  /** The heading's text and the diagram's source. */
  lemma HeadedDocumentText(s: string)
    requires s == HeadedDocument
    ensures s[3..9] == "A: Map" && s[21..23] == "X\n"
  {
    assert s[3..9] == "A: Map" by {
      assert s[3] == 'A' && s[4] == ':' && s[5] == ' ' && s[6] == 'M' && s[7] == 'a' && s[8] == 'p';
    }
    assert s[21..23] == "X\n" by {
      assert s[21] == 'X' && s[22] == '\n';
    }
  }
}
