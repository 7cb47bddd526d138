/**
 * Character classes and sequence helpers shared by the text stages.
 * Strings are sequences of Unicode scalar values.
 */
module Strings {

  /**
   * The JavaScript regular-expression class `\s`: the WhiteSpace and
   * LineTerminator code points of ECMA-262. `String.prototype.trim` removes
   * exactly the same set from both ends of a string.
   */
  predicate IsSpace(c: char)
  {
    || c == '\t' || c == '\n' || c == '\U{B}' || c == '\U{C}' || c == '\r' || c == ' '
    || c == '\U{A0}' || c == '\U{1680}' || ('\U{2000}' <= c <= '\U{200A}')
    || c == '\U{2028}' || c == '\U{2029}' || c == '\U{202F}' || c == '\U{205F}'
    || c == '\U{3000}' || c == '\U{FEFF}'
  }

  /** The characters the regular-expression `.` does not match. */
  predicate IsLineTerminator(c: char)
  {
    c == '\n' || c == '\r' || c == '\U{2028}' || c == '\U{2029}'
  }

  /** `parts.join(sep)`. */
  function Join(sep: string, parts: seq<string>): string
  {
    if |parts| == 0 then ""
    else if |parts| == 1 then parts[0]
    else parts[0] + sep + Join(sep, parts[1..])
  }

  /** Joining two non-empty lists puts exactly one separator between their joins. */
  lemma {:induction false} JoinAppend(sep: string, a: seq<string>, b: seq<string>)
    requires a != [] && b != []
    ensures Join(sep, a + b) == Join(sep, a) + sep + Join(sep, b)
  {
    if |a| == 1 {
      assert (a + b)[1..] == b;
    } else {
      assert (a + b)[1..] == a[1..] + b;
      JoinAppend(sep, a[1..], b);
    }
  }

  /** The non-whitespace characters of `s`, in order. */
  function Strip(s: string): string
  {
    if s == "" then ""
    else (if IsSpace(s[0]) then "" else [s[0]]) + Strip(s[1..])
  }

  lemma {:induction false} StripAppend(a: string, b: string)
    ensures Strip(a + b) == Strip(a) + Strip(b)
  {
    if a == "" {
      assert a + b == b;
    } else {
      assert (a + b)[0] == a[0];
      assert (a + b)[1..] == a[1..] + b;
      StripAppend(a[1..], b);
    }
  }

  lemma {:induction false} StripAllSpace(s: string)
    requires forall k :: 0 <= k < |s| ==> IsSpace(s[k])
    ensures Strip(s) == ""
  {
    if s != "" {
      StripAllSpace(s[1..]);
    }
  }

  /** A string without non-whitespace characters is all whitespace. */
  lemma {:induction false} StripEmptyAllSpace(s: string)
    requires Strip(s) == ""
    ensures forall k :: 0 <= k < |s| ==> IsSpace(s[k])
  {
    if s != "" {
      StripEmptyAllSpace(s[1..]);
      assert forall k :: 1 <= k < |s| ==> s[k] == s[1..][k - 1];
    }
  }

  /** Concatenation of a list of strings. */
  function Concat(parts: seq<string>): string
  {
    if parts == [] then "" else parts[0] + Concat(parts[1..])
  }

  lemma {:induction false} ConcatAppend(a: seq<string>, b: seq<string>)
    ensures Concat(a + b) == Concat(a) + Concat(b)
  {
    if a == [] {
      assert a + b == b;
    } else {
      assert (a + b)[1..] == a[1..] + b;
      ConcatAppend(a[1..], b);
    }
  }

  /** Joining with a separator keeps every non-whitespace character when the separator is whitespace. */
  lemma {:induction false} StripJoin(sep: string, parts: seq<string>)
    requires forall k :: 0 <= k < |sep| ==> IsSpace(sep[k])
    ensures Strip(Join(sep, parts)) == Strip(Concat(parts))
  {
    if |parts| == 1 {
      assert Concat(parts[1..]) == "";
      assert Concat(parts) == parts[0];
    } else if |parts| > 1 {
      StripJoin(sep, parts[1..]);
      StripAppend(parts[0] + sep, Join(sep, parts[1..]));
      StripAppend(parts[0], sep);
      StripAllSpace(sep);
      StripAppend(parts[0], Concat(parts[1..]));
    }
  }

  function Min(a: int, b: int): int
  {
    if a < b then a else b
  }
}
