/**
 * The clean-up applied once to the whole extracted document text
 * (src/mastra/tools/pdf-ingest.ts:151): every whitespace run becomes one space,
 * then every newline-whitespace-newline run becomes one newline, then the
 * result is trimmed. One function per step.
 */
module Whitespace {
  import opened Strings

  /** End of the whitespace run that starts at `i` (`i` itself when `s[i]` is not whitespace). */
  function SpanSpace(s: string, i: nat): (e: nat)
    requires i <= |s|
    ensures i <= e <= |s|
    ensures forall k :: i <= k < e ==> IsSpace(s[k])
    ensures e < |s| ==> !IsSpace(s[e])
    decreases |s| - i
  {
    if i < |s| && IsSpace(s[i]) then SpanSpace(s, i + 1) else i
  }

  /** No two whitespace characters stand next to each other. */
  predicate NoAdjacentSpaces(t: string)
  {
    forall k :: 0 < k < |t| ==> !IsSpace(t[k - 1]) || !IsSpace(t[k])
  }

  /** The only whitespace character present is the plain space (so, in particular, no newline). */
  predicate OnlyPlainSpaces(t: string)
  {
    forall k :: 0 <= k < |t| && IsSpace(t[k]) ==> t[k] == ' '
  }

  /** What the clean-up promises of its result. */
  predicate IsNormalized(t: string)
  {
    && NoAdjacentSpaces(t)
    && OnlyPlainSpaces(t)
    && (t != "" ==> !IsSpace(t[0]) && !IsSpace(t[|t| - 1]))
  }

  lemma SubstringKeepsSpacing(s: string, a: nat, b: nat)
    requires a <= b <= |s|
    requires NoAdjacentSpaces(s) && OnlyPlainSpaces(s)
    ensures NoAdjacentSpaces(s[a..b]) && OnlyPlainSpaces(s[a..b])
  {
    var t := s[a..b];
    forall k | 0 < k < |t| ensures !IsSpace(t[k - 1]) || !IsSpace(t[k]) {
      assert t[k - 1] == s[a + k - 1] && t[k] == s[a + k];
    }
    forall k | 0 <= k < |t| && IsSpace(t[k]) ensures t[k] == ' ' {
      assert t[k] == s[a + k];
    }
  }

  lemma NormalizedHasNoNewline(t: string)
    requires IsNormalized(t)
    ensures forall k :: 0 <= k < |t| ==> t[k] != '\n'
  {
    forall k | 0 <= k < |t| ensures t[k] != '\n' {
      if t[k] == '\n' {
        assert IsSpace(t[k]);
      }
    }
  }

  // ---------------------------------------------------------------- step 1: /\s+/g -> ' '

  /** Replaces every maximal run of whitespace by one plain space. */
  function CollapseWhitespace(s: string): (r: string)
    ensures NoAdjacentSpaces(r) && OnlyPlainSpaces(r)
    ensures s != "" ==> r != "" && r[0] == (if IsSpace(s[0]) then ' ' else s[0])
    decreases |s|
  {
    if s == "" then ""
    else if IsSpace(s[0]) then " " + CollapseWhitespace(s[SpanSpace(s, 0)..])
    else [s[0]] + CollapseWhitespace(s[1..])
  }

  /** Collapsing runs only ever removes whitespace. */
  lemma {:induction false} CollapseKeepsText(s: string)
    ensures Strip(CollapseWhitespace(s)) == Strip(s)
    decreases |s|
  {
    if s != "" {
      if IsSpace(s[0]) {
        var e := SpanSpace(s, 0);
        CollapseKeepsText(s[e..]);
        StripAppend(" ", CollapseWhitespace(s[e..]));
        assert s == s[..e] + s[e..];
        StripAppend(s[..e], s[e..]);
        StripAllSpace(s[..e]);
      } else {
        CollapseKeepsText(s[1..]);
        StripAppend([s[0]], CollapseWhitespace(s[1..]));
      }
    }
  }

  /** Text that already has single plain spaces between words is left alone. */
  lemma {:induction false} CollapseFixesSpaced(t: string)
    requires NoAdjacentSpaces(t) && OnlyPlainSpaces(t)
    ensures CollapseWhitespace(t) == t
    decreases |t|
  {
    if t != "" {
      SubstringKeepsSpacing(t, 1, |t|);
      if IsSpace(t[0]) {
        assert |t| > 1 ==> !IsSpace(t[1]);
        assert SpanSpace(t, 0) == 1;
      }
      CollapseFixesSpaced(t[1..]);
    }
  }

  /** A run of whitespace from `i` up to a non-whitespace character or the end is the run `SpanSpace` finds. */
  lemma SpanSpaceIs(s: string, i: nat, e: nat)
    requires i <= e <= |s|
    requires forall k :: i <= k < e ==> IsSpace(s[k])
    requires e < |s| ==> !IsSpace(s[e])
    ensures SpanSpace(s, i) == e
  {
  }

  /** Text that starts with a whitespace run `w` collapses to one space and the rest collapsed. */
  lemma CollapseLeadingRun(w: string, b: string)
    requires w != "" && forall k :: 0 <= k < |w| ==> IsSpace(w[k])
    requires b != "" ==> !IsSpace(b[0])
    ensures CollapseWhitespace(w + b) == " " + CollapseWhitespace(b)
  {
    var s := w + b;
    SpanSpaceIs(s, 0, |w|);
    assert s[|w|..] == b;
  }

  /** Text that ends in a non-whitespace character collapses on its own, whatever follows it. */
  lemma {:induction false} CollapseAppend(a: string, r: string)
    requires a != "" ==> !IsSpace(a[|a| - 1])
    ensures CollapseWhitespace(a + r) == CollapseWhitespace(a) + CollapseWhitespace(r)
    decreases |a|
  {
    if a == "" {
      assert a + r == r;
    } else {
      var s := a + r;
      var e := if IsSpace(a[0]) then SpanSpace(a, 0) else 1;
      assert s[e..] == a[e..] + r;
      if IsSpace(a[0]) {
        SpanSpaceIs(s, 0, e);
      }
      CollapseAppend(a[e..], r);
    }
  }

  /**
   * A whitespace run between two words becomes exactly one space: the words on
   * either side are collapsed on their own and joined by a single space, so
   * words are never glued together and never split further apart.
   */
  lemma {:induction false} CollapseSeam(a: string, w: string, b: string)
    requires w != "" && forall k :: 0 <= k < |w| ==> IsSpace(w[k])
    requires a != "" ==> !IsSpace(a[|a| - 1])
    requires b != "" ==> !IsSpace(b[0])
    ensures CollapseWhitespace(a + w + b) == CollapseWhitespace(a) + " " + CollapseWhitespace(b)
  {
    assert a + w + b == a + (w + b);
    CollapseAppend(a, w + b);
    CollapseLeadingRun(w, b);
  }

  // ---------------------------------------------------------------- step 2: /\n\s*\n/g -> '\n'

  /**
   * The greatest index in [lo, hi) holding a newline, or 0 when there is none
   * (`lo` is at least 1, so 0 is never a real answer).
   */
  function LastNewline(s: string, lo: nat, hi: nat): (k: nat)
    requires 1 <= lo <= hi <= |s|
    ensures k == 0 || (lo <= k < hi && s[k] == '\n')
    ensures forall m :: (if k == 0 then lo else k + 1) <= m < hi ==> s[m] != '\n'
    decreases hi
  {
    if hi == lo then 0
    else if s[hi - 1] == '\n' then hi - 1
    else LastNewline(s, lo, hi - 1)
  }

  /**
   * Global replace of `\n\s*\n` by one newline, scanning left to right. A match
   * starts at a newline; the greedy `\s*` then backs off to the last newline of
   * the whitespace run that follows, and the scan resumes after that newline.
   */
  function CollapseBlankLines(s: string): string
    decreases |s|
  {
    if s == "" then ""
    else if s[0] == '\n' then
      var m := LastNewline(s, 1, SpanSpace(s, 1));
      if m != 0 then "\n" + CollapseBlankLines(s[m + 1..])
      else [s[0]] + CollapseBlankLines(s[1..])
    else [s[0]] + CollapseBlankLines(s[1..])
  }

  /** Without a newline there is nothing for the blank-line replace to match. */
  lemma {:induction false} BlankLinesNeedNewline(s: string)
    requires forall k :: 0 <= k < |s| ==> s[k] != '\n'
    ensures CollapseBlankLines(s) == s
    decreases |s|
  {
    if s != "" {
      BlankLinesNeedNewline(s[1..]);
    }
  }

  /** After the first replace no newline is left, so the second replace never changes anything. */
  lemma BlankLineReplaceIsNoOp(s: string)
    ensures CollapseBlankLines(CollapseWhitespace(s)) == CollapseWhitespace(s)
  {
    var c := CollapseWhitespace(s);
    forall k | 0 <= k < |c| ensures c[k] != '\n' {
      if c[k] == '\n' {
        assert IsSpace(c[k]);
      }
    }
    BlankLinesNeedNewline(c);
  }

  // ---------------------------------------------------------------- step 3: trim()

  function TrimEnd(s: string): (r: string)
    ensures |r| <= |s| && r == s[..|r|]
    ensures r != "" ==> !IsSpace(r[|r| - 1])
    ensures forall k :: |r| <= k < |s| ==> IsSpace(s[k])
    decreases |s|
  {
    if s != "" && IsSpace(s[|s| - 1]) then TrimEnd(s[..|s| - 1]) else s
  }

  /** `s.trim()`: the part between the leading and the trailing whitespace. */
  function Trim(s: string): (r: string)
    ensures SpanSpace(s, 0) + |r| <= |s|
    ensures r == s[SpanSpace(s, 0)..SpanSpace(s, 0) + |r|]
    ensures r != "" ==> !IsSpace(r[0]) && !IsSpace(r[|r| - 1])
    ensures forall k :: SpanSpace(s, 0) + |r| <= k < |s| ==> IsSpace(s[k])
  {
    var a := SpanSpace(s, 0);
    var r := TrimEnd(s[a..]);
    assert forall k :: |r| <= k < |s| - a ==> IsSpace(s[a..][k]);
    r
  }

  lemma TrimKeepsText(s: string)
    ensures Strip(Trim(s)) == Strip(s)
  {
    var a := SpanSpace(s, 0);
    var b := a + |Trim(s)|;
    assert s == s[..a] + (s[a..b] + s[b..]);
    StripAppend(s[..a], s[a..b] + s[b..]);
    StripAppend(s[a..b], s[b..]);
    StripAllSpace(s[..a]);
    StripAllSpace(s[b..]);
  }

  lemma TrimFixesUnpadded(s: string)
    requires s != "" ==> !IsSpace(s[0]) && !IsSpace(s[|s| - 1])
    ensures Trim(s) == s
  {
    assert SpanSpace(s, 0) == 0;
    assert s[0..] == s;
    assert TrimEnd(s) == s;
  }

  // ---------------------------------------------------------------- the whole chain

  /** The clean-up of line 151 of pdf-ingest.ts. */
  function Normalize(s: string): string
  {
    Trim(CollapseBlankLines(CollapseWhitespace(s)))
  }

  /**
   * The cleaned text has no leading or trailing whitespace, no two adjacent
   * whitespace characters and no character of whitespace but the plain space
   * (hence no newline: the document comes out as a single line).
   */
  lemma NormalizeIsNormalized(s: string)
    ensures IsNormalized(Normalize(s))
  {
    var c := CollapseWhitespace(s);
    BlankLineReplaceIsNoOp(s);
    var t := Trim(c);
    assert Normalize(s) == t;
    var a := SpanSpace(c, 0);
    assert t == c[a..a + |t|];
    SubstringKeepsSpacing(c, a, a + |t|);
  }

  /** The clean-up removes whitespace and nothing else. */
  lemma NormalizeKeepsText(s: string)
    ensures Strip(Normalize(s)) == Strip(s)
  {
    BlankLineReplaceIsNoOp(s);
    TrimKeepsText(CollapseWhitespace(s));
    CollapseKeepsText(s);
  }

  /** Already-clean text is a fixed point. */
  lemma NormalizeFixesNormalized(t: string)
    requires IsNormalized(t)
    ensures Normalize(t) == t
  {
    CollapseFixesSpaced(t);
    BlankLineReplaceIsNoOp(t);
    TrimFixesUnpadded(t);
  }

  lemma NormalizeIdempotent(s: string)
    ensures Normalize(Normalize(s)) == Normalize(s)
  {
    NormalizeIsNormalized(s);
    NormalizeFixesNormalized(Normalize(s));
  }
}
