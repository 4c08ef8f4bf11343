/** The two Ruby `String` methods that decode a bracketed kv value: `split(',')` and `strip`. */
module RubyString {
  import opened Chars

  /** Every field between separators, trailing empty ones included (`split(sep, -1)`). */
  function Fields(s: string, sep: char): (r: seq<string>)
    ensures |r| >= 1
    ensures forall k :: 0 <= k < |r| ==> sep !in r[k]
    decreases |s|
  {
    if s == [] then [[]]
    else if s[0] == sep then [[]] + Fields(s[1..], sep)
    else
      var rest := Fields(s[1..], sep);
      [[s[0]] + rest[0]] + rest[1..]
  }

  /** Fields glued back together with the separator between them. */
  function Join(xs: seq<string>, sep: char): string
    requires |xs| >= 1
    decreases |xs|
  {
    if |xs| == 1 then xs[0] else xs[0] + [sep] + Join(xs[1..], sep)
  }

  /** `Join` extended to the empty list, which joins to the empty string. */
  function JoinAll(xs: seq<string>, sep: char): string {
    if xs == [] then [] else Join(xs, sep)
  }

  /** Splitting loses nothing: the fields join back to the original string. */
  lemma {:induction false} JoinFields(s: string, sep: char)
    ensures Join(Fields(s, sep), sep) == s
    decreases |s|
  {
    if s != [] {
      JoinFields(s[1..], sep);
      var rest := Fields(s[1..], sep);
      if s[0] == sep {
        assert Fields(s, sep)[1..] == rest;
      } else {
        if |rest| == 1 {
          assert Join(Fields(s, sep), sep) == [s[0]] + rest[0];
        } else {
          assert Fields(s, sep)[1..] == rest[1..];
          assert Join(rest, sep) == rest[0] + [sep] + Join(rest[1..], sep);
        }
      }
      assert s == [s[0]] + s[1..];
    }
  }

  /** A separator-free prefix sticks to the first field. */
  lemma {:induction false} FieldsPrefix(a: string, rest: string, sep: char)
    requires sep !in a
    ensures Fields(a + rest, sep) == [a + Fields(rest, sep)[0]] + Fields(rest, sep)[1..]
    decreases |a|
  {
    if a == [] {
      var f := Fields(rest, sep);
      assert a + rest == rest;
      assert a + f[0] == f[0];
      assert f == [f[0]] + f[1..];
    } else {
      assert (a + rest)[0] == a[0];
      assert (a + rest)[1..] == a[1..] + rest;
      FieldsPrefix(a[1..], rest, sep);
      assert [a[0]] + (a[1..] + Fields(rest, sep)[0]) == a + Fields(rest, sep)[0];
    }
  }

  /** Joining separator-free fields and splitting again gives the same fields. */
  lemma {:induction false} FieldsJoin(xs: seq<string>, sep: char)
    requires |xs| >= 1
    requires forall k :: 0 <= k < |xs| ==> sep !in xs[k]
    ensures Fields(Join(xs, sep), sep) == xs
    decreases |xs|
  {
    if |xs| == 1 {
      FieldsPrefix(xs[0], [], sep);
      assert xs[0] + [] == xs[0];
    } else {
      var j := Join(xs[1..], sep);
      FieldsJoin(xs[1..], sep);
      FieldsPrefix(xs[0], [sep] + j, sep);
      assert xs[0] + [sep] + j == xs[0] + ([sep] + j);
      assert ([sep] + j)[1..] == j;
      assert Fields([sep] + j, sep) == [[]] + xs[1..];
      assert xs[0] + [] == xs[0];
      assert xs == [xs[0]] + xs[1..];
    }
  }

  /** `xs` without its trailing empty strings. */
  function DropTrailingEmpty(xs: seq<string>): (r: seq<string>)
    ensures r <= xs
    ensures r == [] || r[|r| - 1] != []
    ensures forall k :: |r| <= k < |xs| ==> xs[k] == []
    decreases |xs|
  {
    if xs == [] || xs[|xs| - 1] != [] then xs else DropTrailingEmpty(xs[..|xs| - 1])
  }

  /**
   * Ruby's `String#split` with a one-character separator other than a space: the
   * fields, with trailing empty fields removed (so `""` and `",,"` give `[]`).
   */
  function Split(s: string, sep: char): (r: seq<string>)
    ensures forall k :: 0 <= k < |r| ==> sep !in r[k]
    ensures r == [] || r[|r| - 1] != []
    ensures r <= Fields(s, sep)
    ensures forall k :: |r| <= k < |Fields(s, sep)| ==> Fields(s, sep)[k] == []
  {
    DropTrailingEmpty(Fields(s, sep))
  }

  /** Separator-free fields whose last one is not empty survive a join and a split. */
  lemma SplitJoinAll(xs: seq<string>, sep: char)
    requires forall k :: 0 <= k < |xs| ==> sep !in xs[k]
    requires xs == [] || xs[|xs| - 1] != []
    ensures Split(JoinAll(xs, sep), sep) == xs
  {
    if xs != [] {
      FieldsJoin(xs, sep);
    }
  }

  /**
   * Ruby's `String#strip`: the middle part of `s` left once the NUL and whitespace
   * characters at both ends are removed.
   */
  function Strip(s: string): (r: string)
    ensures r == [] || (!IsStripChar(r[0]) && !IsStripChar(r[|r| - 1]))
    ensures exists a, b ::
              && 0 <= a <= b <= |s| && r == s[a..b]
              && All(s[..a], IsStripChar) && All(s[b..], IsStripChar)
  {
    var a := Span(s, IsStripChar);
    if a == |s| then
      assert s[..a] == s && s[a..a] == [];
      []
    else
      var t := SpanBack(s, IsStripChar);
      var b := |s| - t;
      s[a..b]
  }

  /** A string with no NUL or whitespace at either end is left as it is. */
  lemma StripStripped(s: string)
    requires s == [] || (!IsStripChar(s[0]) && !IsStripChar(s[|s| - 1]))
    ensures Strip(s) == s
  {
  }

  /** `map(&:strip)`. */
  function StripAll(xs: seq<string>): (r: seq<string>)
    ensures |r| == |xs|
    ensures forall k :: 0 <= k < |xs| ==> r[k] == Strip(xs[k])
  {
    seq(|xs|, k requires 0 <= k < |xs| => Strip(xs[k]))
  }
}
