/** Character classes of the two Ruby regular expressions, and maximal runs of them. */
module Chars {

  /** Ruby's `\s`: space, tab, line feed, vertical tab, form feed, carriage return. */
  predicate IsSpace(c: char) {
    c == ' ' || c == '\t' || c == '\n' || c == '\U{000B}' || c == '\U{000C}' || c == '\r'
  }

  /** Ruby's `\d`, which matches ASCII digits only. */
  predicate IsDigit(c: char) {
    '0' <= c <= '9'
  }

  /** The class `[A-Z]`. */
  predicate IsUpper(c: char) {
    'A' <= c <= 'Z'
  }

  /** The class `[^ ]`: everything but the space character itself (tabs included). */
  predicate IsNotBlank(c: char) {
    c != ' '
  }

  /** The class `[^\s]`. */
  predicate IsNotSpace(c: char) {
    !IsSpace(c)
  }

  /** The class `[^\s=]` of characters a key is made of. */
  predicate IsKeyChar(c: char) {
    !IsSpace(c) && c != '='
  }

  /** What Ruby's `String#strip` removes at either end: NUL and the `\s` characters. */
  predicate IsStripChar(c: char) {
    c == '\0' || IsSpace(c)
  }

  /** Every character of `s` is in class `p`. */
  predicate All(s: string, p: char -> bool) {
    forall i :: 0 <= i < |s| ==> p(s[i])
  }

  /** Length of the longest prefix of `s` in class `p`: what a greedy `p*` consumes. */
  function Span(s: string, p: char -> bool): (n: nat)
    ensures n <= |s|
    ensures All(s[..n], p)
    ensures n == |s| || !p(s[n])
    decreases |s|
  {
    if s == [] || !p(s[0]) then 0 else 1 + Span(s[1..], p)
  }

  /** Length of the longest suffix of `s` in class `p`. */
  function SpanBack(s: string, p: char -> bool): (n: nat)
    ensures n <= |s|
    ensures All(s[|s| - n..], p)
    ensures n == |s| || !p(s[|s| - n - 1])
    decreases |s|
  {
    if s == [] || !p(s[|s| - 1]) then 0
    else
      var n := SpanBack(s[..|s| - 1], p);
      assert s[|s| - 1 - n..] == s[..|s| - 1][|s| - 1 - n..] + [s[|s| - 1]];
      n + 1
  }

  /** `s` cut after its longest prefix in class `p`. */
  function SplitSpan(s: string, p: char -> bool): (r: (string, string))
    ensures r.0 + r.1 == s
    ensures All(r.0, p)
    ensures r.1 == [] || !p(r.1[0])
  {
    var n := Span(s, p);
    assert s[..n] + s[n..] == s;
    (s[..n], s[n..])
  }

  /** A prefix in class `p` followed by a character outside it is exactly what `Span` measures. */
  lemma {:induction false} SpanOf(a: string, b: string, p: char -> bool)
    requires All(a, p)
    requires b == [] || !p(b[0])
    ensures Span(a + b, p) == |a|
    decreases |a|
  {
    if a != [] {
      assert (a + b)[0] == a[0];
      assert (a + b)[1..] == a[1..] + b;
      SpanOf(a[1..], b, p);
    } else {
      assert a + b == b;
    }
  }

  /** `Span` measured by position: a run in class `p` ending at `n`. */
  lemma SpanAt(s: string, n: nat, p: char -> bool)
    requires n <= |s| && All(s[..n], p) && (n == |s| || !p(s[n]))
    ensures Span(s, p) == n
  {
    assert s[..n] + s[n..] == s;
    SpanOf(s[..n], s[n..], p);
  }

  /** `SplitSpan` cut by position. */
  lemma SplitSpanAt(s: string, n: nat, p: char -> bool)
    requires n <= |s| && All(s[..n], p) && (n == |s| || !p(s[n]))
    ensures SplitSpan(s, p) == (s[..n], s[n..])
  {
    SpanAt(s, n, p);
  }

  /** The same fact stated for `SplitSpan`. */
  lemma SplitSpanOf(a: string, b: string, p: char -> bool)
    requires All(a, p)
    requires b == [] || !p(b[0])
    ensures SplitSpan(a + b, p) == (a, b)
  {
    SpanOf(a, b, p);
    assert (a + b)[..|a|] == a;
    assert (a + b)[|a|..] == b;
  }
}
