/**
  The whitespace class of ECMAScript regular expressions (`\s`), which is also
  the set of code units `String.prototype.trim` removes: the WhiteSpace and
  LineTerminator productions of the ECMAScript grammar. Text is a sequence of
  `char`s, which count like UTF-16 code units for text inside the Basic
  Multilingual Plane; every member of the class lies in that plane.
 */
module Whitespace {

  /** ECMAScript `\s`: TAB, LF, VT, FF, CR, the space separators (category Zs),
      LINE SEPARATOR, PARAGRAPH SEPARATOR and the byte order mark. Each lies
      in the Basic Multilingual Plane, so each is one UTF-16 code unit. */
  predicate IsWs(c: char)
    ensures IsWs(c) ==> c as int < 0x1_0000
  {
    || c == '\t' || c == '\n' || c == '\U{B}' || c == '\U{C}' || c == '\r'
    || c == ' ' || c == '\U{A0}' || c == '\U{1680}'
    || ('\U{2000}' <= c <= '\U{200A}')
    || c == '\U{2028}' || c == '\U{2029}' || c == '\U{202F}' || c == '\U{205F}'
    || c == '\U{3000}' || c == '\U{FEFF}'
  }

  /** Every code unit of `s` is whitespace (vacuously true of ""). */
  predicate AllWs(s: string) {
    forall i :: 0 <= i < |s| ==> IsWs(s[i])
  }

  /** No two adjacent code units of `s` are both whitespace. */
  predicate NoDoubleWs(s: string) {
    forall i, j :: 0 <= i < |s| && 0 <= j < |s| && j == i + 1 ==> !(IsWs(s[i]) && IsWs(s[j]))
  }

  /** `s` neither starts nor ends with whitespace. */
  predicate Trimmed(s: string) {
    |s| == 0 || (!IsWs(s[0]) && !IsWs(s[|s| - 1]))
  }

  /** The non-whitespace code units of `s`, in order: the visible content that
      whitespace normalisation must not disturb. */
  function NonWs(s: string): (r: string)
    ensures |r| <= |s|
  {
    if |s| == 0 then []
    else (if IsWs(s[0]) then [] else [s[0]]) + NonWs(s[1..])
  }

  /** Filtering distributes over concatenation. */
  lemma {:induction false} NonWsConcat(a: string, b: string)
    ensures NonWs(a + b) == NonWs(a) + NonWs(b)
    decreases |a|
  {
    if |a| > 0 {
      assert (a + b)[1..] == a[1..] + b;
      NonWsConcat(a[1..], b);
    } else {
      assert a + b == b;
    }
  }

  /** A string has no visible content exactly when it is all whitespace. */
  lemma {:induction false} NonWsEmptyIff(s: string)
    ensures NonWs(s) == [] <==> AllWs(s)
    decreases |s|
  {
    if |s| > 0 {
      NonWsEmptyIff(s[1..]);
      if AllWs(s[1..]) && IsWs(s[0]) {
        assert forall i :: 0 < i < |s| ==> s[i] == s[1..][i - 1];
      }
    }
  }
}
