/**
 * Sentence splitting of the chunker (src/mastra/tools/pdf-ingest.ts:178-180):
 * the text is split at every whitespace run that directly follows a `.`, `!`
 * or `?`, each piece is trimmed, and empty pieces are dropped.
 */
module Sentences {
  import opened Strings
  import opened Whitespace

  predicate IsTerminal(c: char)
  {
    c == '.' || c == '!' || c == '?'
  }

  /** A split separator starts at `q`: a whitespace character right after a terminal. */
  predicate IsBoundary(s: string, q: int)
  {
    1 <= q < |s| && IsTerminal(s[q - 1]) && IsSpace(s[q])
  }

  predicate EndsWithTerminal(t: string)
  {
    t != "" && IsTerminal(t[|t| - 1])
  }

  /** No leading and no trailing whitespace. */
  predicate IsTrimmed(t: string)
  {
    t != "" ==> !IsSpace(t[0]) && !IsSpace(t[|t| - 1])
  }

  /** The first separator at or after `q`, or `|s|` when there is none. */
  function FirstBoundary(s: string, q: nat): (b: nat)
    requires 1 <= q
    ensures b == |s| || (q <= b < |s| && IsBoundary(s, b))
    ensures forall m :: q <= m < b ==> !IsBoundary(s, m)
    decreases |s| - q
  {
    if q >= |s| then |s|
    else if IsBoundary(s, q) then q
    else FirstBoundary(s, q + 1)
  }

  /**
   * The pieces the regular-expression split yields: the text before the first
   * separator, then the pieces of what follows the separator's whole
   * whitespace run.
   */
  function SplitPieces(s: string): (pieces: seq<string>)
    ensures pieces != []
    decreases |s|
  {
    var b := FirstBoundary(s, 1);
    if b == |s| then [s]
    else [s[..b]] + SplitPieces(s[SpanSpace(s, b)..])
  }

  /** Trims every piece and drops the empty ones, keeping the order. */
  function KeepSentences(pieces: seq<string>): (r: seq<string>)
    ensures |r| <= |pieces|
    ensures forall k :: 0 <= k < |r| ==> r[k] != "" && IsTrimmed(r[k])
  {
    if pieces == [] then []
    else (if Trim(pieces[0]) == "" then [] else [Trim(pieces[0])]) + KeepSentences(pieces[1..])
  }

  /** `splitIntoSentences`: every sentence is non-empty and trimmed, and empty text has none. */
  function SplitIntoSentences(text: string): (r: seq<string>)
    ensures forall k :: 0 <= k < |r| ==> r[k] != "" && IsTrimmed(r[k])
    ensures text == "" ==> r == []
  {
    assert text == "" ==> SplitPieces(text) == [text] && Trim(text) == "";
    KeepSentences(SplitPieces(text))
  }

  // ---------------------------------------------------------------- the raw pieces

  /** Every piece but the last ends with a terminal: a piece ends only at a separator. */
  lemma {:induction false} PiecesEndWithTerminal(s: string)
    ensures forall k :: 0 <= k < |SplitPieces(s)| - 1 ==> EndsWithTerminal(SplitPieces(s)[k])
    decreases |s|
  {
    var b := FirstBoundary(s, 1);
    if b < |s| {
      var e := SpanSpace(s, b);
      var rest := SplitPieces(s[e..]);
      var p := SplitPieces(s);
      assert p == [s[..b]] + rest;
      PiecesEndWithTerminal(s[e..]);
      forall k | 0 <= k < |p| - 1 ensures EndsWithTerminal(p[k]) {
        if k == 0 {
          assert IsBoundary(s, b);
          assert p[0] == s[..b] && |p[0]| == b && p[0][b - 1] == s[b - 1];
        } else {
          assert p[k] == rest[k - 1];
        }
      }
    }
  }

  /** No piece holds a separator: the split takes every one of them. */
  lemma {:induction false} PiecesNoBoundary(s: string)
    ensures forall k, m :: 0 <= k < |SplitPieces(s)| ==> !IsBoundary(SplitPieces(s)[k], m)
    decreases |s|
  {
    var b := FirstBoundary(s, 1);
    if b < |s| {
      var e := SpanSpace(s, b);
      var rest := SplitPieces(s[e..]);
      var p := SplitPieces(s);
      assert p == [s[..b]] + rest;
      PiecesNoBoundary(s[e..]);
      forall k, m | 0 <= k < |p| ensures !IsBoundary(p[k], m) {
        if k == 0 {
          if IsBoundary(s[..b], m) {
            assert IsBoundary(s, m);
          }
        } else {
          assert p[k] == rest[k - 1];
        }
      }
    }
  }

  /** Between them the pieces hold every non-whitespace character of the text. */
  lemma {:induction false} PiecesKeepText(s: string)
    ensures Strip(Concat(SplitPieces(s))) == Strip(s)
    decreases |s|
  {
    var b := FirstBoundary(s, 1);
    if b == |s| {
      assert SplitPieces(s) == [s];
      assert [s][1..] == [];
      assert Concat([s]) == s + "" == s;
    } else {
      var e := SpanSpace(s, b);
      var rest := SplitPieces(s[e..]);
      PiecesKeepText(s[e..]);
      assert SplitPieces(s) == [s[..b]] + rest;
      assert Concat([s[..b]] + rest) == s[..b] + Concat(rest) by {
        assert ([s[..b]] + rest)[1..] == rest;
      }
      StripAppend(s[..b], Concat(rest));
      StripSkipsSpaceRun(s, b, e);
    }
  }

  lemma {:induction false} StripSkipsSpaceRun(s: string, b: nat, e: nat)
    requires b <= e <= |s|
    requires forall k :: b <= k < e ==> IsSpace(s[k])
    ensures Strip(s) == Strip(s[..b]) + Strip(s[e..])
  {
    var x, y, z := s[..b], s[b..e], s[e..];
    assert s == x + y + z;
    assert forall k :: 0 <= k < |y| ==> IsSpace(y[k]) by {
      forall k | 0 <= k < |y| ensures IsSpace(y[k]) {
        assert y[k] == s[b + k];
      }
    }
    StripAllSpace(y);
    StripAppend(x, y);
    StripAppend(x + y, z);
  }

  // ---------------------------------------------------------------- trimming and filtering

  /** Trimming text that ends in a non-whitespace character keeps that character last. */
  lemma TrimKeepsLast(s: string)
    requires s != "" && !IsSpace(s[|s| - 1])
    ensures Trim(s) != "" && Trim(s)[|Trim(s)| - 1] == s[|s| - 1]
  {
    var a := SpanSpace(s, 0);
    var r := Trim(s);
    assert a < |s|;
    assert a + |r| == |s|;
  }

  /** Trimming cannot create a separator: the trimmed text is a slice of the text. */
  lemma TrimNoBoundary(s: string)
    requires forall m :: !IsBoundary(s, m)
    ensures forall m :: !IsBoundary(Trim(s), m)
  {
    var a := SpanSpace(s, 0);
    var r := Trim(s);
    forall m | 1 <= m < |r| ensures !IsBoundary(r, m) {
      assert r[m - 1] == s[a + m - 1] && r[m] == s[a + m];
      assert !IsBoundary(s, a + m);
    }
  }

  lemma {:induction false} KeepEndsWithTerminal(pieces: seq<string>)
    requires forall k :: 0 <= k < |pieces| - 1 ==> EndsWithTerminal(pieces[k])
    ensures forall k :: 0 <= k < |KeepSentences(pieces)| - 1 ==> EndsWithTerminal(KeepSentences(pieces)[k])
  {
    if |pieces| > 1 {
      var p := pieces[0];
      TrimKeepsLast(p);
      KeepEndsWithTerminal(pieces[1..]);
      var r := KeepSentences(pieces);
      assert r == [Trim(p)] + KeepSentences(pieces[1..]);
    }
  }

  lemma {:induction false} KeepNoBoundary(pieces: seq<string>)
    requires forall k, m :: 0 <= k < |pieces| ==> !IsBoundary(pieces[k], m)
    ensures forall k, m :: 0 <= k < |KeepSentences(pieces)| ==> !IsBoundary(KeepSentences(pieces)[k], m)
  {
    if pieces != [] {
      var p := pieces[0];
      KeepNoBoundary(pieces[1..]);
      var r := KeepSentences(pieces);
      var tail := KeepSentences(pieces[1..]);
      var head := if Trim(p) == "" then [] else [Trim(p)];
      assert r == head + tail;
      forall k, m | 0 <= k < |r| ensures !IsBoundary(r[k], m) {
        if Trim(p) == "" {
          assert r[k] == tail[k];
        } else if k == 0 {
          assert r[k] == Trim(p);
          assert forall m' :: !IsBoundary(pieces[0], m');
          TrimNoBoundary(p);
        } else {
          assert r[k] == tail[k - 1];
        }
      }
    }
  }

  lemma {:induction false} KeepKeepsText(pieces: seq<string>)
    ensures Strip(Concat(KeepSentences(pieces))) == Strip(Concat(pieces))
  {
    if pieces != [] {
      var p := pieces[0];
      var head := if Trim(p) == "" then [] else [Trim(p)];
      KeepKeepsText(pieces[1..]);
      ConcatAppend(head, KeepSentences(pieces[1..]));
      StripAppend(Concat(head), Concat(KeepSentences(pieces[1..])));
      StripAppend(p, Concat(pieces[1..]));
      TrimKeepsText(p);
      assert Concat(head) == Trim(p) by {
        if head != [] {
          assert Concat(head) == Trim(p) + Concat([]);
        }
      }
    }
  }

  // ---------------------------------------------------------------- properties of the split

  /** Every sentence but the last ends with `.`, `!` or `?`: a split happens only after one. */
  lemma SentencesEndWithTerminal(text: string)
    ensures forall k :: 0 <= k < |SplitIntoSentences(text)| - 1 ==> EndsWithTerminal(SplitIntoSentences(text)[k])
  {
    assert SplitIntoSentences(text) == KeepSentences(SplitPieces(text));
    PiecesEndWithTerminal(text);
    KeepEndsWithTerminal(SplitPieces(text));
  }

  /** No sentence holds a terminal followed by whitespace: every such place is split. */
  lemma SentencesHaveNoInnerBoundary(text: string)
    ensures forall k, m :: 0 <= k < |SplitIntoSentences(text)| ==> !IsBoundary(SplitIntoSentences(text)[k], m)
  {
    assert SplitIntoSentences(text) == KeepSentences(SplitPieces(text));
    PiecesNoBoundary(text);
    KeepNoBoundary(SplitPieces(text));
  }

  /** Splitting drops whitespace only: the sentences hold every other character of the text, in order. */
  lemma SentencesKeepText(text: string)
    ensures Strip(Concat(SplitIntoSentences(text))) == Strip(text)
  {
    PiecesKeepText(text);
    KeepKeepsText(SplitPieces(text));
  }

  /** For cleaned-up text, joining the sentences with single spaces gives the text back. */
  lemma {:induction false} SplitJoinRoundTrip(text: string)
    requires IsNormalized(text)
    ensures Join(" ", SplitIntoSentences(text)) == text
    decreases |text|
  {
    var s := text;
    var b := FirstBoundary(s, 1);
    if s == "" {
      assert SplitIntoSentences(s) == [];
    } else if b == |s| {
      TrimFixesUnpadded(s);
      assert SplitPieces(s) == [s];
      assert KeepSentences([s]) == [s] + KeepSentences([]);
    } else {
      assert s[b] == ' ';
      assert b + 1 < |s|;
      assert !IsSpace(s[b + 1]);
      assert SpanSpace(s, b + 1) == b + 1;
      assert SpanSpace(s, b) == b + 1;
      var rest := s[b + 1..];
      SubstringKeepsSpacing(s, b + 1, |s|);
      assert IsNormalized(rest);
      SplitJoinRoundTrip(rest);
      var piece := s[..b];
      TrimFixesUnpadded(piece);
      var tail := SplitIntoSentences(rest);
      assert tail != [];
      assert SplitPieces(s) == [piece] + SplitPieces(rest);
      assert ([piece] + SplitPieces(rest))[1..] == SplitPieces(rest);
      assert SplitIntoSentences(s) == [piece] + tail;
      assert ([piece] + tail)[1..] == tail;
      assert Join(" ", [piece] + tail) == piece + " " + Join(" ", tail);
      assert s == piece + " " + rest;
    }
  }
}
