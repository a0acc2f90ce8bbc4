/** The parts of JavaScript's string semantics that the extractor relies on: the
    character class `\s` (which `String.prototype.trim` strips as well), substring
    tests and the trimming of both ends. */
module JsText {

  /** ECMAScript WhiteSpace and LineTerminator code points: the set matched by `\s`
      and removed by `trim()`. */
  predicate IsSpace(c: char)
  {
    || c == '\t' || c == '\n' || c == '\U{000B}' || c == '\U{000C}' || c == '\r' || c == ' '
    || c == '\U{00A0}' || c == '\U{1680}' || ('\U{2000}' <= c <= '\U{200A}')
    || c == '\U{2028}' || c == '\U{2029}' || c == '\U{202F}' || c == '\U{205F}'
    || c == '\U{3000}' || c == '\U{FEFF}'
  }

  /** The character classes the extractor's two patterns use. */
  datatype CharClass =
    | LineFeed      // \n
    | NotLineFeed   // [^\n]
    | Space         // \s
    | Hash          // #
    | Upper         // [A-Z]
    | Digit         // \d (ASCII digits only in JavaScript)

  predicate InClass(c: char, k: CharClass)
  {
    match k
    case LineFeed => c == '\n'
    case NotLineFeed => c != '\n'
    case Space => IsSpace(c)
    case Hash => c == '#'
    case Upper => 'A' <= c <= 'Z'
    case Digit => '0' <= c <= '9'
  }

  /** Every character of `s[lo..hi]` satisfies `p`. */
  predicate All(s: string, lo: nat, hi: nat, p: CharClass)
    requires hi <= |s|
    decreases hi - lo
  {
    lo >= hi || (InClass(s[lo], p) && All(s, lo + 1, hi, p))
  }

  lemma {:induction false} AllAt(s: string, lo: nat, hi: nat, p: CharClass, j: nat)
    requires hi <= |s| && All(s, lo, hi, p) && lo <= j < hi
    ensures InClass(s[j], p)
    decreases j - lo
  {
    if lo < j {
      AllAt(s, lo + 1, hi, p, j);
    }
  }

  lemma {:induction false} AllPrefix(s: string, lo: nat, hi: nat, mid: nat, p: CharClass)
    requires hi <= |s| && mid <= hi && All(s, lo, hi, p)
    ensures All(s, lo, mid, p)
    decreases hi - lo
  {
    if lo < mid {
      AllPrefix(s, lo + 1, hi, mid, p);
    }
  }

  /** No occurrence of `pat` starts in `[lo, hi)`. */
  predicate NowhereIn(s: string, lo: nat, hi: nat, pat: string)
    decreases hi - lo
  {
    lo >= hi || (!StartsAt(s, lo, pat) && NowhereIn(s, lo + 1, hi, pat))
  }

  lemma {:induction false} NowhereAt(s: string, lo: nat, hi: nat, pat: string, j: nat)
    requires NowhereIn(s, lo, hi, pat) && lo <= j < hi
    ensures !StartsAt(s, j, pat)
    decreases j - lo
  {
    if lo < j {
      NowhereAt(s, lo + 1, hi, pat, j);
    }
  }

  /** A slice in which no occurrence starts holds no occurrence. */
  lemma NowhereInSlice(s: string, lo: nat, hi: nat, pat: string)
    requires lo <= hi <= |s| && pat != [] && NowhereIn(s, lo, hi, pat)
    ensures !Occurs(s[lo..hi], pat)
  {
    var body := s[lo..hi];
    forall j: nat | j <= |body|
      ensures !StartsAt(body, j, pat)
    {
      if StartsAt(body, j, pat) {
        var found, here := body[j..j + |pat|], s[lo + j..lo + j + |pat|];
        assert forall i :: 0 <= i < |pat| ==> here[i] == found[i];
        assert here == pat;
        NowhereAt(s, lo, hi, pat, lo + j);
        assert false;
      }
    }
  }

  /** Length of the longest run of characters satisfying `p` that starts at `i`:
      what a greedy quantifier over that class consumes first. */
  function Run(s: string, i: nat, p: CharClass): (n: nat)
    requires i <= |s|
    ensures i + n <= |s|
    ensures All(s, i, i + n, p)
    ensures i + n < |s| ==> !InClass(s[i + n], p)
    decreases |s| - i
  {
    if i < |s| && InClass(s[i], p) then 1 + Run(s, i + 1, p) else 0
  }

  /** A run of `p` from `i` to `j` is no longer than the greedy run from `i`. */
  lemma {:induction false} RunCovers(h: string, i: nat, j: nat, k: CharClass)
    requires i <= j <= |h| && All(h, i, j, k)
    ensures Run(h, i, k) >= j - i
    decreases j - i
  {
    if i < j {
      RunCovers(h, i + 1, j, k);
    }
  }

  /** The greedy run from `i` ends exactly at the first character outside the class. */
  lemma {:induction false} RunTo(s: string, i: nat, j: nat, p: CharClass)
    requires i <= j <= |s| && All(s, i, j, p) && (j < |s| ==> !InClass(s[j], p))
    ensures Run(s, i, p) == j - i
    decreases j - i
  {
    if i < j {
      RunTo(s, i + 1, j, p);
    }
  }

  predicate StartsAt(s: string, i: nat, pat: string)
  {
    i + |pat| <= |s| && s[i..i + |pat|] == pat
  }

  predicate Occurs(s: string, pat: string)
  {
    exists i: nat | i <= |s| :: StartsAt(s, i, pat)
  }

  predicate AllSpace(s: string)
  {
    forall i :: 0 <= i < |s| ==> IsSpace(s[i])
  }

  /** `s` without its leading whitespace. */
  function TrimStart(s: string): string
    decreases |s|
  {
    if s != [] && IsSpace(s[0]) then TrimStart(s[1..]) else s
  }

  /** `s` without its trailing whitespace. */
  function TrimEnd(s: string): string
    decreases |s|
  {
    if s != [] && IsSpace(s[|s| - 1]) then TrimEnd(s[..|s| - 1]) else s
  }

  /** `String.prototype.trim`. */
  function Trim(s: string): string
  {
    TrimEnd(TrimStart(s))
  }

  lemma {:induction false} TrimStartShape(s: string) returns (lo: nat)
    ensures lo <= |s| && TrimStart(s) == s[lo..]
    ensures AllSpace(s[..lo])
    ensures lo < |s| ==> !IsSpace(s[lo])
    decreases |s|
  {
    if s != [] && IsSpace(s[0]) {
      var l := TrimStartShape(s[1..]);
      lo := l + 1;
      assert s[1..][l..] == s[lo..];
      assert forall i :: 0 <= i < lo ==> s[..lo][i] == s[i];
      assert forall i :: 1 <= i < lo ==> s[i] == s[1..][..l][i - 1];
    } else {
      lo := 0;
    }
  }

  lemma {:induction false} TrimEndShape(s: string) returns (hi: nat)
    ensures hi <= |s| && TrimEnd(s) == s[..hi]
    ensures AllSpace(s[hi..])
    ensures 0 < hi ==> !IsSpace(s[hi - 1])
    decreases |s|
  {
    if s != [] && IsSpace(s[|s| - 1]) {
      var init := s[..|s| - 1];
      hi := TrimEndShape(init);
      assert init[..hi] == s[..hi];
      assert forall i :: 0 <= i < |s| - 1 - hi ==> s[hi..][i] == init[hi..][i];
    } else {
      hi := |s|;
    }
  }

  /** What `trim()` returns: the part of `s` between a whitespace prefix and a
      whitespace suffix that neither starts nor ends with whitespace. */
  lemma TrimShape(s: string) returns (lo: nat, hi: nat)
    ensures lo <= hi <= |s| && Trim(s) == s[lo..hi]
    ensures AllSpace(s[..lo]) && AllSpace(s[hi..])
    ensures lo < hi ==> !IsSpace(s[lo]) && !IsSpace(s[hi - 1])
  {
    lo := TrimStartShape(s);
    var t := s[lo..];
    var h := TrimEndShape(t);
    hi := lo + h;
    assert t[..h] == s[lo..hi];
    assert t[h..] == s[hi..];
  }

  /** Whatever occurs in the trimmed form of a string occurs in the string. */
  lemma TrimmedOccurs(s: string, pat: string)
    ensures Occurs(Trim(s), pat) ==> Occurs(s, pat)
  {
    var lo, hi := TrimShape(s);
    var t := Trim(s);
    if Occurs(t, pat) {
      var i: nat :| i <= |t| && StartsAt(t, i, pat);
      assert forall j :: 0 <= j < |pat| ==> pat[j] == t[i + j] == s[lo + i + j];
      assert t[i..i + |pat|] == s[lo + i..lo + i + |pat|];
      assert StartsAt(s, lo + i, pat);
    }
  }
}
