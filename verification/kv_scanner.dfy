/**
 * The containerd key/value pattern and `String#scan` over it: `key` followed by one
 * whitespace character, or `key=value` with a quoted, bracketed or bare value.
 */
module KvScanner {
  import opened Wrappers
  import opened Chars
  import opened Escapes
  import opened RubyString
  import opened Records

  /** A key: `[^\s=]+`. */
  predicate IsKey(k: string) {
    |k| >= 1 && All(k, IsKeyChar)
  }

  /** What one match captured, by the branch that matched. */
  datatype Raw =
    | Bare                      // `key` then a whitespace character
    | Quoted(content: string)   // `key="…"`
    | Bracketed(content: string)  // `key=[…]`
    | Plain(text: string)       // `key=` then `[^\s]*`

  /** One match: its key, its value branch, and how many characters it consumed. */
  datatype Token = Token(key: string, raw: Raw, len: nat)

  /**
   * The value alternatives right after `=`, in their priority order, with the number of
   * characters taken: a closed `"…"`, else a closed `[…]`, else the non-whitespace run.
   */
  function MatchValue(s: string): (r: (Raw, nat))
    ensures r.1 <= |s| && !r.0.Bare?
  {
    if s != [] && s[0] == '"' && FindClose(s[1..], '"').Some? then
      var j := FindClose(s[1..], '"').value;
      (Quoted(s[1..j + 1]), j + 2)
    else if s != [] && s[0] == '[' && FindClose(s[1..], ']').Some? then
      var j := FindClose(s[1..], ']').value;
      (Bracketed(s[1..j + 1]), j + 2)
    else
      var n := Span(s, IsNotSpace);
      (Plain(s[..n]), n)
  }

  /**
   * What the value branch consumed is a whole literal of its kind: a closed quoted or
   * bracketed literal with a well-escaped body, or a whitespace-free run that stops at
   * whitespace or the end.
   */
  lemma MatchValueSpec(s: string)
    ensures var r := MatchValue(s);
      && (r.0.Quoted? ==> WellEscaped(r.0.content, '"') && s[..r.1] == ['"'] + r.0.content + ['"'])
      && (r.0.Bracketed? ==> WellEscaped(r.0.content, ']') && s[..r.1] == ['['] + r.0.content + [']'])
      && (r.0.Plain? ==>
            r.0.text == s[..r.1] && All(r.0.text, IsNotSpace) && (r.1 == |s| || IsSpace(s[r.1])))
  {
    if s != [] && s[0] == '"' && FindClose(s[1..], '"').Some? {
      var j := FindClose(s[1..], '"').value;
      FindCloseSpec(s[1..], '"');
      assert s[1..][..j] == s[1..j + 1];
      assert s[..j + 2] == ['"'] + s[1..j + 1] + ['"'];
    } else if s != [] && s[0] == '[' && FindClose(s[1..], ']').Some? {
      var j := FindClose(s[1..], ']').value;
      FindCloseSpec(s[1..], ']');
      assert s[1..][..j] == s[1..j + 1];
      assert s[..j + 2] == ['['] + s[1..j + 1] + [']'];
    }
  }

  /**
   * The pattern tried at the head of `s`: the longest key, then one whitespace
   * character or `=` and a value. A key run that reaches the end does not match.
   */
  function MatchToken(s: string): (r: Option<Token>)
    ensures r.Some? ==> |r.value.key| < r.value.len <= |s|
    ensures r.Some? ==> IsKey(r.value.key) && s[..|r.value.key|] == r.value.key
    ensures r.Some? && r.value.raw.Bare? ==>
      r.value.len == |r.value.key| + 1 && IsSpace(s[|r.value.key|])
    ensures r.Some? && !r.value.raw.Bare? ==> s[|r.value.key|] == '='
  {
    if s == [] || !IsKeyChar(s[0]) then None
    else
      var n := Span(s, IsKeyChar);
      if n == |s| then None
      else if IsSpace(s[n]) then Some(Token(s[..n], Bare, n + 1))
      else
        var v := MatchValue(s[n + 1..]);
        Some(Token(s[..n], v.0, n + 1 + v.1))
  }

  /** The value stored for a match (the `if`/`elsif` chain over the captures). */
  function Decode(raw: Raw): Value {
    match raw
    case Bare => Nil
    case Quoted(c) => Str(Unescape(c))
    case Bracketed(c) => List(StripAll(Split(c, ',')))
    case Plain(t) => Str(t)
  }

  /**
   * `String#scan`: every non-overlapping match from left to right, the search resuming
   * where the previous match ended, or one character on where no match starts.
   */
  function Scan(s: string): (ps: seq<Pair>)
    decreases |s|
  {
    if s == [] then []
    else match MatchToken(s)
      case None => Scan(s[1..])
      case Some(t) => [(t.key, Decode(t.raw))] + Scan(s[t.len..])
  }

  /**
   * Every pair the scan yields has a key of the key class and a value of one of the
   * four decoded kinds, never an integer; each match consumes at least two characters.
   */
  lemma {:induction false} ScanPairs(s: string)
    ensures var ps := Scan(s);
      && (forall i :: 0 <= i < |ps| ==> IsKey(ps[i].0) && !ps[i].1.Int?)
      && 2 * |ps| <= |s|
    decreases |s|
  {
    if s != [] {
      match MatchToken(s)
      case None =>
        ScanPairs(s[1..]);
      case Some(t) =>
        ScanPairs(s[t.len..]);
        var ps := Scan(s);
        assert ps == [(t.key, Decode(t.raw))] + Scan(s[t.len..]);
        forall i | 0 <= i < |ps|
          ensures IsKey(ps[i].0) && !ps[i].1.Int?
        {
          if i > 0 {
            assert ps[i] == Scan(s[t.len..])[i - 1];
          }
        }
    }
  }

  /** Text that cannot start a key is skipped. */
  lemma ScanSkip(c: char, rest: string)
    requires !IsKeyChar(c)
    ensures Scan([c] + rest) == Scan(rest)
  {
    assert ([c] + rest)[1..] == rest;
  }

  /** A key followed by a whitespace character stores `nil`. */
  lemma ScanBareKey(k: string, w: char, rest: string)
    requires IsKey(k) && IsSpace(w)
    ensures Scan(k + [w] + rest) == [(k, Nil)] + Scan(rest)
  {
    var s := k + [w] + rest;
    SpanOf(k, [w] + rest, IsKeyChar);
    assert s == k + ([w] + rest);
    assert s[..|k|] == k && s[|k|] == w;
    assert s[|k| + 1..] == rest;
  }

  /** One step of the scan: a match at the head is stored, and the search resumes after it. */
  lemma ScanStep(s: string, t: Token)
    requires MatchToken(s) == Some(t)
    ensures Scan(s) == [(t.key, Decode(t.raw))] + Scan(s[t.len..])
  {
  }

  /** A key followed by `=`: the match takes that key and the value branch after it. */
  lemma MatchTokenAt(s: string, n: nat)
    requires n < |s| && IsKey(s[..n]) && s[n] == '='
    ensures MatchToken(s) ==
      Some(Token(s[..n], MatchValue(s[n + 1..]).0, n + 1 + MatchValue(s[n + 1..]).1))
  {
    assert s[..n] + s[n..] == s;
    SpanOf(s[..n], s[n..], IsKeyChar);
  }

  /** A closed quoted literal of body length `n` is the quoted branch. */
  lemma MatchValueQuotedAt(v: string, n: nat)
    requires n + 2 <= |v| && v[0] == '"' && v[n + 1] == '"' && WellEscaped(v[1..n + 1], '"')
    ensures MatchValue(v) == (Quoted(v[1..n + 1]), n + 2)
  {
    FindCloseSpec(v[1..], '"');
    assert v[1..][..n] == v[1..n + 1];
  }

  /** A closed bracketed literal of body length `n` is the bracketed branch. */
  lemma MatchValueBracketedAt(v: string, n: nat)
    requires n + 2 <= |v| && v[0] == '[' && v[n + 1] == ']' && WellEscaped(v[1..n + 1], ']')
    ensures MatchValue(v) == (Bracketed(v[1..n + 1]), n + 2)
  {
    FindCloseSpec(v[1..], ']');
    assert v[1..][..n] == v[1..n + 1];
  }

  /** A whitespace-free run opening no literal, up to whitespace or the end, is the bare branch. */
  lemma MatchValuePlainAt(v: string, n: nat)
    requires n <= |v| && All(v[..n], IsNotSpace) && (n == |v| || IsSpace(v[n]))
    requires n == 0 || (v[0] != '"' && v[0] != '[')
    ensures MatchValue(v) == (Plain(v[..n]), n)
  {
    assert v[..n] + v[n..] == v;
    SpanOf(v[..n], v[n..], IsNotSpace);
  }

  /** `k=` followed by `v`: the match takes the key and the value branch at the head of `v`. */
  lemma MatchKeyValue(k: string, v: string)
    requires IsKey(k)
    ensures MatchToken(k + ['='] + v) ==
      Some(Token(k, MatchValue(v).0, |k| + 1 + MatchValue(v).1))
  {
    var s := k + ['='] + v;
    assert s[..|k|] == k && s[|k|] == '=' && s[|k| + 1..] == v;
    MatchTokenAt(s, |k|);
  }

  /** `k=` followed by `v`: the value branch reads the head of `v`, and scanning resumes after it. */
  lemma ScanKeyValue(k: string, v: string)
    requires IsKey(k)
    ensures var m := MatchValue(v);
      Scan(k + ['='] + v) == [(k, Decode(m.0))] + Scan(v[m.1..])
  {
    var s := k + ['='] + v;
    var m := MatchValue(v);
    MatchKeyValue(k, v);
    var t := Token(k, m.0, |k| + 1 + m.1);
    ScanStep(s, t);
    assert s[t.len..] == v[m.1..];
    assert Scan(s) == [(k, Decode(m.0))] + Scan(s[t.len..]);
  }

  /**
   * `k="c"` stores `c` unescaped, and scanning resumes after the closing quote, so
   * nothing inside the quotes is read as a key.
   */
  lemma ScanQuotedValue(k: string, c: string, rest: string)
    requires IsKey(k) && WellEscaped(c, '"')
    ensures Scan(k + ['=', '"'] + c + ['"'] + rest) == [(k, Str(Unescape(c)))] + Scan(rest)
  {
    var v := ['"'] + c + ['"'] + rest;
    assert k + ['=', '"'] + c + ['"'] + rest == k + ['='] + v;
    assert v[1..|c| + 1] == c;
    MatchValueQuotedAt(v, |c|);
    assert v[|c| + 2..] == rest;
    ScanKeyValue(k, v);
  }

  /**
   * `k=[c]` stores the comma-separated items of `c`, stripped, and scanning resumes
   * after the closing bracket.
   */
  lemma ScanBracketedValue(k: string, c: string, rest: string)
    requires IsKey(k) && WellEscaped(c, ']')
    ensures Scan(k + ['=', '['] + c + [']'] + rest) ==
      [(k, List(StripAll(Split(c, ','))))] + Scan(rest)
  {
    var v := ['['] + c + [']'] + rest;
    assert k + ['=', '['] + c + [']'] + rest == k + ['='] + v;
    assert v[1..|c| + 1] == c;
    MatchValueBracketedAt(v, |c|);
    assert v[|c| + 2..] == rest;
    ScanKeyValue(k, v);
  }

  /**
   * `k=t`, where `t` is a whitespace-free run that opens no quoted or bracketed
   * literal, stores `t` verbatim (possibly empty).
   */
  lemma ScanPlainValue(k: string, t: string, rest: string)
    requires IsKey(k) && All(t, IsNotSpace)
    requires t == [] || (t[0] != '"' && t[0] != '[')
    requires rest == [] || IsSpace(rest[0])
    ensures Scan(k + ['='] + t + rest) == [(k, Str(t))] + Scan(rest)
  {
    var v := t + rest;
    assert k + ['='] + t + rest == k + ['='] + v;
    MatchValuePlainOf(t, rest);
    ScanKeyValue(k, v);
    assert v[|t|..] == rest;
  }

  /** The bare value branch on a whitespace-free run followed by whitespace or the end. */
  lemma MatchValuePlainOf(t: string, rest: string)
    requires All(t, IsNotSpace) && (t == [] || (t[0] != '"' && t[0] != '['))
    requires rest == [] || IsSpace(rest[0])
    ensures MatchValue(t + rest) == (Plain(t), |t|)
  {
    var v := t + rest;
    assert v[..|t|] == t;
    MatchValuePlainAt(v, |t|);
  }

  /** A key run that reaches the end of the text with no `=` or whitespace is dropped. */
  lemma {:induction false} ScanDanglingKey(k: string)
    requires All(k, IsKeyChar)
    ensures Scan(k) == []
    decreases |k|
  {
    if k != [] {
      SpanOf(k, [], IsKeyChar);
      assert k + [] == k;
      ScanDanglingKey(k[1..]);
    }
  }

  /** Lists `Render` can write so that scanning reads them back unchanged. */
  predicate IsRenderableItem(x: string) {
    ',' !in x && ']' !in x && '\\' !in x && (x == [] || (!IsStripChar(x[0]) && !IsStripChar(x[|x| - 1])))
  }

  predicate IsRenderable(p: Pair) {
    && IsKey(p.0)
    && match p.1
       case Str(_) => true
       case Nil => true
       case List(xs) =>
         && (xs == [] || xs[|xs| - 1] != [])
         && forall i :: 0 <= i < |xs| ==> IsRenderableItem(xs[i])
       case Int(_) => false
  }

  /** One pair written in the containerd style and followed by a space. */
  function RenderPair(p: Pair): string {
    match p.1
    case Str(v) => p.0 + ['=', '"'] + Escape(v) + ['"', ' ']
    case Nil => p.0 + [' ']
    case List(xs) => p.0 + ['=', '['] + JoinAll(xs, ',') + [']', ' ']
    case Int(n) => p.0 + [' ']
  }

  function Render(ps: seq<Pair>): string
    decreases |ps|
  {
    if ps == [] then [] else RenderPair(ps[0]) + Render(ps[1..])
  }

  /** Scanning one rendered pair reads that pair back and goes on with what follows. */
  lemma ScanRenderPair(p: Pair, r: string)
    requires IsRenderable(p)
    ensures Scan(RenderPair(p) + r) == [p] + Scan(r)
  {
    match p.1
    case Str(v) => ScanRenderStr(p.0, v, r);
    case Nil => ScanRenderNil(p.0, r);
    case List(xs) => ScanRenderList(p.0, xs, r);
  }

  /** A quoted string value, escaped on the way out, is unescaped on the way in. */
  lemma ScanRenderStr(k: string, v: string, r: string)
    requires IsKey(k)
    ensures Scan(RenderPair((k, Str(v))) + r) == [(k, Str(v))] + Scan(r)
  {
    EscapeWellEscaped(v);
    UnescapeEscape(v);
    assert RenderPair((k, Str(v))) == k + ['=', '"'] + Escape(v) + ['"', ' '];
    CloseLayout(k + ['=', '"'] + Escape(v), '"', r);
    ScanQuotedValue(k, Escape(v), [' '] + r);
    ScanSkip(' ', r);
  }

  /** A key with no value is read back as `nil`. */
  lemma ScanRenderNil(k: string, r: string)
    requires IsKey(k)
    ensures Scan(RenderPair((k, Nil)) + r) == [(k, Nil)] + Scan(r)
  {
    assert RenderPair((k, Nil)) + r == k + [' '] + r;
    ScanBareKey(k, ' ', r);
  }

  /** A renderable list is read back item for item. */
  lemma ScanRenderList(k: string, xs: seq<string>, r: string)
    requires IsKey(k) && (xs == [] || xs[|xs| - 1] != [])
    requires forall i :: 0 <= i < |xs| ==> IsRenderableItem(xs[i])
    ensures Scan(RenderPair((k, List(xs))) + r) == [(k, List(xs))] + Scan(r)
  {
    var c := JoinAll(xs, ',');
    assert RenderPair((k, List(xs))) == k + ['=', '['] + c + [']', ' '];
    CloseLayout(k + ['=', '['] + c, ']', r);
    ScanListValue(k, xs, [' '] + r);
    ScanSkip(' ', r);
  }

  /** `k=[…]` holding a renderable list joined by commas stores that list. */
  lemma ScanListValue(k: string, xs: seq<string>, rest: string)
    requires IsKey(k) && (xs == [] || xs[|xs| - 1] != [])
    requires forall i :: 0 <= i < |xs| ==> IsRenderableItem(xs[i])
    ensures Scan(k + ['=', '['] + JoinAll(xs, ',') + [']'] + rest) == [(k, List(xs))] + Scan(rest)
  {
    ListRenders(xs);
    ScanBracketedValue(k, JoinAll(xs, ','), rest);
  }

  /** A closing character and a space, then `r`. */
  lemma CloseLayout(a: string, close: char, r: string)
    ensures a + [close, ' '] + r == a + [close] + ([' '] + r)
  {
  }

  /** Scanning rendered pairs gives back exactly those pairs, in order. */
  lemma {:induction false} ScanRender(ps: seq<Pair>)
    requires forall i :: 0 <= i < |ps| ==> IsRenderable(ps[i])
    ensures Scan(Render(ps)) == ps
    decreases |ps|
  {
    if ps != [] {
      var rest := Render(ps[1..]);
      assert Render(ps) == RenderPair(ps[0]) + rest;
      ScanRender(ps[1..]);
      ScanRenderPair(ps[0], rest);
      assert Scan(Render(ps)) == [ps[0]] + ps[1..];
      assert ps == [ps[0]] + ps[1..];
    }
  }

  /** A renderable list joins into a bracket body that decodes back to the list. */
  lemma ListRenders(xs: seq<string>)
    requires xs == [] || xs[|xs| - 1] != []
    requires forall i :: 0 <= i < |xs| ==> IsRenderableItem(xs[i])
    ensures WellEscaped(JoinAll(xs, ','), ']')
    ensures StripAll(Split(JoinAll(xs, ','), ',')) == xs
  {
    SplitJoinAll(xs, ',');
    forall i | 0 <= i < |xs|
      ensures Strip(xs[i]) == xs[i]
    {
      StripStripped(xs[i]);
    }
    if xs != [] {
      JoinChars(xs, ',');
      PlainWellEscaped(Join(xs, ','), ']');
    }
  }

  /** Every character of a join is a separator or a character of some item. */
  lemma {:induction false} JoinChars(xs: seq<string>, sep: char)
    requires |xs| >= 1
    requires forall i :: 0 <= i < |xs| ==> IsRenderableItem(xs[i])
    requires sep != ']' && sep != '\\'
    ensures ']' !in Join(xs, sep) && '\\' !in Join(xs, sep)
    decreases |xs|
  {
    assert IsRenderableItem(xs[0]);
    if |xs| > 1 {
      JoinChars(xs[1..], sep);
    }
  }
}
