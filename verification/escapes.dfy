/**
 * Backslash-escaped literals: the `"…"` and `[…]` bodies of both patterns, Ruby's
 * `gsub(/\\(.)/, '\1')` that unescapes a quoted kv value, and its inverse.
 */
module Escapes {
  import opened Wrappers

  /**
   * `c` is a literal body closed by `close`: the pattern `[^C\\]*(?:\\.[^C\\]*)*`,
   * where `C` is `close` and `.` is any character but a line feed.
   */
  predicate WellEscaped(c: string, close: char)
    decreases |c|
  {
    if c == [] then true
    else if c[0] == '\\' then |c| >= 2 && c[1] != '\n' && WellEscaped(c[2..], close)
    else c[0] != close && WellEscaped(c[1..], close)
  }

  /**
   * Position of the character that closes a literal whose body starts at the head of
   * `s`: the first `close` not consumed by a backslash escape.
   */
  function FindClose(s: string, close: char): (r: Option<nat>)
    ensures r.Some? ==> r.value < |s| && s[r.value] == close
    decreases |s|
  {
    if s == [] then None
    else if s[0] == close then Some(0)
    else if s[0] == '\\' then
      if |s| >= 2 && s[1] != '\n' then
        match FindClose(s[2..], close)
        case None => None
        case Some(j) => Some(j + 2)
      else None
    else
      match FindClose(s[1..], close)
      case None => None
      case Some(j) => Some(j + 1)
  }

  /**
   * `FindClose` finds the one and only position at which the body pattern followed by
   * `close` matches: the body regex leaves no choice to backtracking.
   */
  lemma {:induction false} FindCloseSpec(s: string, close: char)
    requires close != '\\'
    ensures forall j :: 0 <= j < |s| ==>
      (FindClose(s, close) == Some(j) <==> s[j] == close && WellEscaped(s[..j], close))
    decreases |s|
  {
    if s == [] {
    } else if s[0] == close {
      forall j | 0 < j < |s|
        ensures !WellEscaped(s[..j], close)
      {
        assert s[..j][0] == close;
      }
    } else if s[0] == '\\' {
      if |s| >= 2 && s[1] != '\n' {
        FindCloseSpec(s[2..], close);
        forall j | 2 <= j < |s|
          ensures WellEscaped(s[..j], close) == WellEscaped(s[2..][..j - 2], close)
        {
          assert s[..j][2..] == s[2..][..j - 2];
        }
        assert !WellEscaped(s[..1], close);
      } else {
        forall j | 0 <= j < |s|
          ensures !(s[j] == close && WellEscaped(s[..j], close))
        {
          if j >= 2 {
            assert s[..j][1] == s[1];
          }
        }
      }
    } else {
      FindCloseSpec(s[1..], close);
      forall j | 1 <= j < |s|
        ensures WellEscaped(s[..j], close) == WellEscaped(s[1..][..j - 1], close)
      {
        assert s[..j][1..] == s[1..][..j - 1];
      }
    }
  }

  /** A body with neither backslashes nor `close` in it is well escaped. */
  lemma {:induction false} PlainWellEscaped(c: string, close: char)
    requires close !in c && '\\' !in c
    ensures WellEscaped(c, close)
    decreases |c|
  {
    if c != [] {
      assert c[0] in c;
      assert forall x :: x in c[1..] ==> x in c;
      PlainWellEscaped(c[1..], close);
    }
  }

  /**
   * Ruby's `gsub(/\\(.)/, '\1')`: left to right, each backslash followed by a character
   * other than a line feed is dropped and that character kept as it is.
   */
  function Unescape(s: string): (r: string)
    ensures |r| <= |s|
    decreases |s|
  {
    if s == [] then []
    else if s[0] == '\\' && |s| >= 2 && s[1] != '\n' then [s[1]] + Unescape(s[2..])
    else [s[0]] + Unescape(s[1..])
  }

  /** Quoting a string for a `"…"` literal: a backslash before every `"` and `\`. */
  function Escape(s: string): (r: string)
    ensures |r| >= |s|
    decreases |s|
  {
    if s == [] then []
    else if s[0] == '"' || s[0] == '\\' then ['\\', s[0]] + Escape(s[1..])
    else [s[0]] + Escape(s[1..])
  }

  /** Unescaping undoes escaping. */
  lemma {:induction false} UnescapeEscape(s: string)
    ensures Unescape(Escape(s)) == s
    decreases |s|
  {
    if s != [] {
      UnescapeEscape(s[1..]);
      var e := Escape(s);
      if s[0] == '"' || s[0] == '\\' {
        assert e[2..] == Escape(s[1..]);
      } else {
        assert e[1..] == Escape(s[1..]);
      }
      assert s == [s[0]] + s[1..];
    }
  }

  /** An escaped string is a valid body of a `"…"` literal. */
  lemma {:induction false} EscapeWellEscaped(s: string)
    ensures WellEscaped(Escape(s), '"')
    decreases |s|
  {
    if s != [] {
      EscapeWellEscaped(s[1..]);
      var e := Escape(s);
      if s[0] == '"' || s[0] == '\\' {
        assert e[2..] == Escape(s[1..]);
      } else {
        assert e[1..] == Escape(s[1..]);
      }
    }
  }
}
