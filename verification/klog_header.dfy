/**
 * The klog header pattern `Lmmdd hh:mm:ss[.frac] threadid file:line] msg`, matched
 * against one line (no line feed), with the two message alternatives.
 */
module KlogHeader {
  import opened Wrappers
  import opened Chars
  import opened Escapes
  import Decimal

  /** Whitespace after a closing quote and the key/value text that follows it. */
  datatype Tail = Tail(gap: string, kv: string)

  /** The message alternatives, tried in this order. */
  datatype Body =
    | Quoted(msg: string, tail: Option<Tail>)  // `"msg"`, then the end of line or whitespace and a tail
    | Greedy(msg: string)                      // otherwise the rest of the line, verbatim

  /**
   * The captures of a header match, together with the whitespace runs and the
   * character after `]` that the pattern consumed without capturing.
   */
  datatype Header = Header(
    level: char, month: string, day: string, gap1: string, time: string, gap2: string,
    threadid: string, gap3: string, file: string, line: string, sep: char, body: Body)

  /** `\s+` */
  predicate IsGap(g: string) {
    |g| >= 1 && All(g, IsSpace)
  }

  /** `\d{2}:\d{2}:\d{2}(|\.\d+)` */
  predicate IsClock(t: string) {
    && |t| >= 8
    && IsDigit(t[0]) && IsDigit(t[1]) && t[2] == ':'
    && IsDigit(t[3]) && IsDigit(t[4]) && t[5] == ':'
    && IsDigit(t[6]) && IsDigit(t[7])
    && (|t| == 8 || (|t| >= 10 && t[8] == '.' && All(t[9..], IsDigit)))
  }

  /** `\d{2}` */
  predicate IsTwoDigits(d: string) {
    |d| == 2 && All(d, IsDigit)
  }

  function RenderBody(b: Body): string {
    match b
    case Quoted(m, None) => ['"'] + m + ['"']
    case Quoted(m, Some(t)) => ['"'] + m + ['"'] + t.gap + t.kv
    case Greedy(m) => m
  }

  /** The line a header was read from. */
  function Render(h: Header): string {
    [h.level] + h.month + h.day + h.gap1 + h.time + h.gap2 + h.threadid + h.gap3
      + h.file + [':'] + h.line + [']', h.sep] + RenderBody(h.body)
  }

  /**
   * The body opens with a complete quoted message followed by the end of the line or
   * by whitespace: the condition under which the first alternative matches.
   */
  predicate OpensQuotedMessage(b: string) {
    && |b| >= 2 && b[0] == '"'
    && exists j :: 1 <= j < |b| && b[j] == '"' && WellEscaped(b[1..j], '"')
         && (j + 1 == |b| || IsSpace(b[j + 1]))
  }

  /** What the pattern leaves in a body of each alternative. */
  predicate BodyShape(b: Body) {
    match b
    case Quoted(m, t) =>
      && WellEscaped(m, '"')
      && (t.Some? ==> IsGap(t.value.gap) && (t.value.kv == [] || !IsSpace(t.value.kv[0])))
    case Greedy(m) => !OpensQuotedMessage(m)
  }

  /** What every header match satisfies, field by field. */
  predicate WellFormed(h: Header) {
    && IsUpper(h.level) && IsTwoDigits(h.month) && IsTwoDigits(h.day)
    && IsGap(h.gap1) && IsClock(h.time) && IsGap(h.gap2)
    && Decimal.IsNumeral(h.threadid) && IsGap(h.gap3)
    && All(h.file, IsNotBlank) && (h.file == [] || !IsSpace(h.file[0]))
    && Decimal.IsNumeral(h.line) && IsSpace(h.sep)
    && BodyShape(h.body)
  }

  /**
   * The time field and the whitespace the pattern requires after it. The empty
   * fraction is tried first, so a fraction is taken only when whitespace does not
   * follow the seconds directly.
   */
  function MatchClock(t: string): (r: Option<(string, string)>)
    ensures r.Some? ==> IsClock(r.value.0) && r.value.0 + r.value.1 == t
    ensures r.Some? ==> r.value.1 != [] && IsSpace(r.value.1[0])
  {
    if |t| < 8 || !IsClock(t[..8]) then None
    else if |t| > 8 && IsSpace(t[8]) then
      assert t[..8] + t[8..] == t;
      Some((t[..8], t[8..]))
    else if |t| > 8 && t[8] == '.' then
      var (frac, rest) := SplitSpan(t[9..], IsDigit);
      if frac != [] && rest != [] && IsSpace(rest[0]) then
        var time := t[..9] + frac;
        assert time[9..] == frac;
        assert t == t[..9] + t[9..];
        Some((time, rest))
      else None
    else None
  }

  /** A clock followed by whitespace is matched exactly. */
  lemma MatchClockOf(time: string, rest: string)
    requires IsClock(time) && rest != [] && IsSpace(rest[0])
    ensures MatchClock(time + rest) == Some((time, rest))
  {
    var t := time + rest;
    assert t[..8] == time[..8];
    if |time| > 8 {
      assert t[9..] == time[9..] + rest;
      SplitSpanOf(time[9..], rest, IsDigit);
      assert t[..9] + time[9..] == time;
    } else {
      assert t[8..] == rest;
    }
  }

  /** `:(\d+)\]\s` follows a file name of length `e` at the head of `r`. */
  predicate FileEndsAt(r: string, e: nat) {
    && e < |r| && r[e] == ':'
    && var (d, rest) := SplitSpan(r[e + 1..], IsDigit);
       d != [] && |rest| >= 2 && rest[0] == ']' && IsSpace(rest[1])
  }

  /** The greedy `[^ ]*`: the longest file-name length up to `e` that the rest can follow. */
  function LongestFileEnd(r: string, e: nat): (res: Option<nat>)
    ensures res.Some? ==> res.value <= e && FileEndsAt(r, res.value)
    ensures res.Some? ==> forall e' :: res.value < e' <= e ==> !FileEndsAt(r, e')
    ensures res.None? ==> forall e' :: 0 <= e' <= e ==> !FileEndsAt(r, e')
    decreases e
  {
    if FileEndsAt(r, e) then Some(e)
    else if e == 0 then None
    else LongestFileEnd(r, e - 1)
  }

  /**
   * `(?<file>[^ ]*):(?<line>\d+)\]\s` at the head of `r`, with the body after it; the
   * file name is the longest one the rest of the pattern admits.
   */
  function MatchFileLine(r: string): (res: Option<(string, string, char, string)>)
    ensures res.Some? ==>
      var (file, line, sep, body) := res.value;
      && All(file, IsNotBlank) && Decimal.IsNumeral(line) && IsSpace(sep)
      && file + [':'] + line + [']', sep] + body == r
      && forall e :: |file| < e <= Span(r, IsNotBlank) ==> !FileEndsAt(r, e)
    ensures res.None? ==> forall e :: 0 <= e <= Span(r, IsNotBlank) ==> !FileEndsAt(r, e)
  {
    var n := Span(r, IsNotBlank);
    match LongestFileEnd(r, n)
    case None => None
    case Some(e) =>
      FileLineCut(r, e);
      var (line, rest) := SplitSpan(r[e + 1..], IsDigit);
      Some((r[..e], line, rest[1], rest[2..]))
  }

  /** The parts of `r` when the file name ends at `e`. */
  lemma FileLineCut(r: string, e: nat)
    requires e <= Span(r, IsNotBlank) && FileEndsAt(r, e)
    ensures var (line, rest) := SplitSpan(r[e + 1..], IsDigit);
      && All(r[..e], IsNotBlank) && Decimal.IsNumeral(line) && |rest| >= 2 && IsSpace(rest[1])
      && r[..e] + [':'] + line + [']', rest[1]] + rest[2..] == r
  {
    var n := Span(r, IsNotBlank);
    var (line, rest) := SplitSpan(r[e + 1..], IsDigit);
    assert r[..e] == r[..n][..e];
    CutAtColon(r, e, line, rest);
  }

  /** Cutting `r` around the `:` at `e` and the `]` after the line number. */
  lemma CutAtColon(r: string, e: nat, line: string, rest: string)
    requires e < |r| && r[e] == ':' && r[e + 1..] == line + rest
    requires |rest| >= 2 && rest[0] == ']'
    ensures r == r[..e] + [':'] + line + [']', rest[1]] + rest[2..]
  {
    assert rest == [']', rest[1]] + rest[2..];
    assert r == r[..e] + [r[e]] + r[e + 1..];
  }

  /** A space-free file name followed by `:line] ` is matched exactly. */
  lemma MatchFileLineOf(file: string, line: string, body: string)
    requires All(file, IsNotBlank) && Decimal.IsNumeral(line)
    ensures MatchFileLine(file + [':'] + line + [']', ' '] + body) == Some((file, line, ' ', body))
  {
    var r := file + [':'] + line + [']', ' '] + body;
    var f, d := |file|, |line|;
    FileLineLayout(file, line, body);
    assert All(r[..f], IsNotBlank) && Decimal.IsNumeral(r[f + 1..f + 1 + d]);
    MatchFileLineAt(r, f, d);
    assert (r[..f], r[f + 1..f + 1 + d], ' ', r[f + d + 3..]) == (file, line, ' ', body);
  }

  /** Where the parts of `file:line] body` sit. */
  lemma FileLineLayout(file: string, line: string, body: string)
    ensures var r := file + [':'] + line + [']', ' '] + body;
      var f := |file|;
      && |r| == f + |line| + 3 + |body| && r[..f] == file && r[f] == ':'
      && r[f + 1..f + 1 + |line|] == line && r[f + 1 + |line|] == ']' && r[f + 2 + |line|] == ' '
      && r[f + 3 + |line|..] == body
  {
  }

  /** The same, with the file name of length `f` and the line number of length `d` in place. */
  lemma MatchFileLineAt(r: string, f: nat, d: nat)
    requires f + d + 3 <= |r| && All(r[..f], IsNotBlank) && r[f] == ':'
    requires Decimal.IsNumeral(r[f + 1..f + 1 + d]) && r[f + 1 + d] == ']' && r[f + 2 + d] == ' '
    ensures MatchFileLine(r) == Some((r[..f], r[f + 1..f + 1 + d], ' ', r[f + d + 3..]))
  {
    FileLineSpan(r, f, d);
    NoLaterFileEnd(r, f, d);
    LongestFileEndIs(r, f + d + 2, f);
    var rest := r[f + 1 + d..];
    assert rest[1] == ' ' && rest[2..] == r[f + d + 3..];
    MatchFileLineEnd(r, f, r[f + 1..f + 1 + d], rest);
  }

  /** The match once the file end and the digits after it are found. */
  lemma MatchFileLineEnd(r: string, e: nat, line: string, rest: string)
    requires LongestFileEnd(r, Span(r, IsNotBlank)) == Some(e)
    requires e < |r| && SplitSpan(r[e + 1..], IsDigit) == (line, rest) && |rest| >= 2
    ensures MatchFileLine(r) == Some((r[..e], line, rest[1], rest[2..]))
  {
  }

  /** No colon, and so no file end, inside `:line] ` after a file name of length `f`. */
  lemma NoLaterFileEnd(r: string, f: nat, d: nat)
    requires f + d + 3 <= |r| && r[f] == ':'
    requires Decimal.IsNumeral(r[f + 1..f + 1 + d]) && r[f + 1 + d] == ']' && r[f + 2 + d] == ' '
    ensures forall e :: f < e <= f + d + 2 ==> !FileEndsAt(r, e)
  {
    forall e | f < e <= f + d + 2
      ensures r[e] != ':'
    {
      if e <= f + d {
        assert r[e] == r[f + 1..f + 1 + d][e - f - 1];
      }
    }
  }

  /** The longest file end up to `n` is the one at `f` when no later one exists. */
  lemma LongestFileEndIs(r: string, n: nat, f: nat)
    requires f <= n && FileEndsAt(r, f)
    requires forall e :: f < e <= n ==> !FileEndsAt(r, e)
    ensures LongestFileEnd(r, n) == Some(f)
  {
  }

  /** The space-free word at the head is `file:line]`, and `file` is a candidate file name. */
  lemma FileLineSpan(r: string, f: nat, d: nat)
    requires f + d + 3 <= |r| && All(r[..f], IsNotBlank) && r[f] == ':'
    requires Decimal.IsNumeral(r[f + 1..f + 1 + d]) && r[f + 1 + d] == ']' && r[f + 2 + d] == ' '
    ensures Span(r, IsNotBlank) == f + d + 2
    ensures SplitSpan(r[f + 1..], IsDigit) == (r[f + 1..f + 1 + d], r[f + 1 + d..])
    ensures FileEndsAt(r, f)
  {
    FileWordNotBlank(r, f, d);
    SpanAt(r, f + d + 2, IsNotBlank);
    DigitsAfterColon(r, f, d);
  }

  /** The digit run after the colon at `f` is the line number. */
  lemma DigitsAfterColon(r: string, f: nat, d: nat)
    requires f + d + 3 <= |r|
    requires Decimal.IsNumeral(r[f + 1..f + 1 + d]) && r[f + 1 + d] == ']'
    ensures SplitSpan(r[f + 1..], IsDigit) == (r[f + 1..f + 1 + d], r[f + 1 + d..])
  {
    var s := r[f + 1..];
    assert s[..d] == r[f + 1..f + 1 + d] && s[d..] == r[f + 1 + d..] && s[d] == ']';
    SplitSpanAt(s, d, IsDigit);
  }

  /** `file:line]` holds no space. */
  lemma FileWordNotBlank(r: string, f: nat, d: nat)
    requires f + d + 3 <= |r| && All(r[..f], IsNotBlank) && r[f] == ':'
    requires Decimal.IsNumeral(r[f + 1..f + 1 + d]) && r[f + 1 + d] == ']'
    ensures All(r[..f + d + 2], IsNotBlank)
  {
    var n := f + d + 2;
    forall i | 0 <= i < n
      ensures r[..n][i] != ' '
    {
      if f < i < f + 1 + d {
        assert r[i] == r[f + 1..f + 1 + d][i - f - 1];
      } else if i < f {
        assert r[i] == r[..f][i];
      }
    }
  }

  /** The message alternatives applied to the text after `] `. */
  function ParseBody(b: string): (r: Body)
    ensures RenderBody(r) == b
  {
    if b != [] && b[0] == '"' && FindClose(b[1..], '"').Some? then
      var j := FindClose(b[1..], '"').value + 1;
      var after := b[j + 1..];
      QuotedCut(b, j);
      if after == [] then Quoted(b[1..j], None)
      else
        var (gap, kv) := SplitSpan(after, IsSpace);
        TailCut(['"'] + b[1..j] + ['"'], gap, kv);
        if gap != [] then Quoted(b[1..j], Some(Tail(gap, kv))) else Greedy(b)
    else Greedy(b)
  }

  /** A body cut around its opening quote and the quote at `j`. */
  lemma QuotedCut(b: string, j: nat)
    requires 1 <= j < |b| && b[0] == '"' && b[j] == '"'
    ensures b == ['"'] + b[1..j] + ['"'] + b[j + 1..]
  {
  }

  /** The text after a quoted message split into its gap and the rest. */
  lemma TailCut(q: string, gap: string, kv: string)
    ensures q + (gap + kv) == q + gap + kv
  {
  }

  /** The quoted alternative is taken exactly when the body opens with a quoted message. */
  lemma ParseBodyQuotedIff(b: string)
    ensures ParseBody(b).Quoted? <==> OpensQuotedMessage(b)
  {
    if b != [] && b[0] == '"' {
      FindCloseSpec(b[1..], '"');
      forall j | 1 <= j < |b|
        ensures b[1..][..j - 1] == b[1..j]
      {
      }
      if FindClose(b[1..], '"').Some? {
        var j := FindClose(b[1..], '"').value + 1;
        var after := b[j + 1..];
        if after != [] && !IsSpace(after[0]) {
          // the one closing quote is followed by text: no quoted message opens here
          forall j' | 1 <= j' < |b| && b[j'] == '"' && WellEscaped(b[1..j'], '"')
            ensures j' == j
          {
          }
        }
      }
    }
  }

  /** Every body the alternatives produce has the shape of its alternative. */
  lemma ParseBodyShape(b: string)
    ensures BodyShape(ParseBody(b))
  {
    ParseBodyQuotedIff(b);
    if b != [] && b[0] == '"' && FindClose(b[1..], '"').Some? {
      var j := FindClose(b[1..], '"').value + 1;
      FindCloseSpec(b[1..], '"');
      assert b[1..][..j - 1] == b[1..j];
    }
  }

  /** A body of either shape is read back as itself. */
  lemma ParseRenderBody(x: Body)
    requires BodyShape(x)
    ensures ParseBody(RenderBody(x)) == x
  {
    match x
    case Greedy(m) => ParseBodyQuotedIff(m);
    case Quoted(m, None) => ParseQuotedAlone(m);
    case Quoted(m, Some(t)) => ParseQuotedTail(m, t);
  }

  /** A quoted message that ends the body is read back without a tail. */
  lemma ParseQuotedAlone(m: string)
    requires WellEscaped(m, '"')
    ensures ParseBody(['"'] + m + ['"']) == Quoted(m, None)
  {
    var b := ['"'] + m + ['"'];
    QuotedLayout(m, []);
    assert b + [] == b;
    FindCloseAt(b, |m|);
  }

  /** A quoted message followed by whitespace is read back with the rest as its tail. */
  lemma ParseQuotedTail(m: string, t: Tail)
    requires WellEscaped(m, '"') && IsGap(t.gap) && (t.kv == [] || !IsSpace(t.kv[0]))
    ensures ParseBody(['"'] + m + ['"'] + t.gap + t.kv) == Quoted(m, Some(t))
  {
    var after := t.gap + t.kv;
    var b := ['"'] + m + ['"'] + after;
    QuotedLayout(m, after);
    TailCut(['"'] + m + ['"'], t.gap, t.kv);
    FindCloseAt(b, |m|);
    SplitSpanOf(t.gap, t.kv, IsSpace);
    ParseBodyTail(b, |m|, t.gap, t.kv);
  }

  /** The quoted alternative with a tail, once the closing quote and the gap are found. */
  lemma ParseBodyTail(b: string, n: nat, gap: string, kv: string)
    requires n + 2 <= |b| && b[0] == '"' && FindClose(b[1..], '"') == Some(n)
    requires gap != [] && SplitSpan(b[n + 2..], IsSpace) == (gap, kv)
    ensures ParseBody(b) == Quoted(b[1..n + 1], Some(Tail(gap, kv)))
  {
  }

  /** Where the parts of `"m"after` sit. */
  lemma QuotedLayout(m: string, after: string)
    ensures var b := ['"'] + m + ['"'] + after;
      && |b| == |m| + 2 + |after| && b[0] == '"' && b[|m| + 1] == '"'
      && b[1..|m| + 1] == m && b[|m| + 2..] == after
  {
  }

  /** A body opening with `"`, whose first `n` characters after it are well escaped and then `"`. */
  lemma FindCloseAt(b: string, n: nat)
    requires n + 2 <= |b| && b[0] == '"' && b[n + 1] == '"' && WellEscaped(b[1..n + 1], '"')
    ensures FindClose(b[1..], '"') == Some(n)
  {
    FindCloseSpec(b[1..], '"');
    assert b[1..][..n] == b[1..n + 1];
  }

  /**
   * The whole header pattern, anchored at the start of the line. It fails when any
   * fixed part is missing; the body alternatives always match once `] ` is reached.
   */
  function MatchHeader(s: string): (r: Option<Header>)
  {
    if |s| < 5 || !IsUpper(s[0]) || !IsTwoDigits(s[1..3]) || !IsTwoDigits(s[3..5]) then None
    else
      var (gap1, r1) := SplitSpan(s[5..], IsSpace);
      if gap1 == [] then None
      else match MatchClock(r1)
      case None => None
      case Some((time, r2)) =>
        var (gap2, r3) := SplitSpan(r2, IsSpace);
        var (tid, r4) := SplitSpan(r3, IsDigit);
        if tid == [] then None
        else
          var (gap3, r5) := SplitSpan(r4, IsSpace);
          if gap3 == [] then None
          else match MatchFileLine(r5)
          case None => None
          case Some((file, line, sep, b)) =>
            Some(Header(s[0], s[1..3], s[3..5], gap1, time, gap2, tid, gap3, file, line, sep, ParseBody(b)))
  }

  /** `Render` with the parts after the date grouped from the right, stage by stage. */
  lemma RenderNested(h: Header)
    ensures Render(h) == [h.level] + h.month + h.day + (h.gap1 + (h.time + (h.gap2 + (h.threadid
      + (h.gap3 + (h.file + [':'] + h.line + [']', h.sep] + RenderBody(h.body)))))))
    ensures Render(h) == [h.level] + h.month + h.day + (h.gap1 + FromClock(h))
  {
    Assoc6([h.level] + h.month + h.day, h.gap1, h.time, h.gap2, h.threadid,
      h.gap3, h.file + [':'] + h.line + [']', h.sep] + RenderBody(h.body));
    assert Render(h) == [h.level] + h.month + h.day + h.gap1 + h.time + h.gap2 + h.threadid + h.gap3
      + (h.file + [':'] + h.line + [']', h.sep] + RenderBody(h.body));
  }

  lemma Assoc6(a: string, b: string, c: string, d: string, e: string, f: string, g: string)
    ensures a + b + c + d + e + f + g == a + (b + (c + (d + (e + (f + g)))))
  {
  }

  /** The first five characters and the rest of a line. */
  lemma CutAfterDate(s: string)
    requires |s| >= 5
    ensures s == [s[0]] + s[1..3] + s[3..5] + s[5..]
  {
  }

  /** Every header match is well formed and reads back to the matched line. */
  lemma MatchHeaderSound(s: string)
    requires MatchHeader(s).Some?
    ensures WellFormed(MatchHeader(s).value)
    ensures Render(MatchHeader(s).value) == s
  {
    var h := MatchHeader(s).value;
    var (gap1, r1) := SplitSpan(s[5..], IsSpace);
    var (time, r2) := MatchClock(r1).value;
    var (gap2, r3) := SplitSpan(r2, IsSpace);
    var (tid, r4) := SplitSpan(r3, IsDigit);
    var (gap3, r5) := SplitSpan(r4, IsSpace);
    var (file, line, sep, b) := MatchFileLine(r5).value;
    ParseBodyShape(b);
    assert h.file == file && h.body == ParseBody(b);
    assert IsGap(gap2);
    assert h.file == [] || !IsSpace(h.file[0]) by {
      if h.file != [] {
        assert r5[0] == file[0];
      }
    }
    RenderNested(h);
    CutAfterDate(s);
  }

  /** Where the level, month, day and the rest sit in a rendered line. */
  lemma DateLayout(level: char, month: string, day: string, rest: string)
    requires |month| == 2 && |day| == 2
    ensures var s := [level] + month + day + rest;
      |s| >= 5 && s[0] == level && s[1..3] == month && s[3..5] == day && s[5..] == rest
  {
  }

  /** The rendered text from the file name on. */
  function FromFile(h: Header): string {
    h.file + [':'] + h.line + [']', h.sep] + RenderBody(h.body)
  }

  /** The rendered text from the time on. */
  function FromClock(h: Header): string {
    h.time + (h.gap2 + (h.threadid + (h.gap3 + FromFile(h))))
  }

  /** The date part, the gap after it and the time are read back from a rendering. */
  lemma DateStage(h: Header)
    requires WellFormed(h)
    ensures var s := Render(h);
      && |s| >= 5 && s[0] == h.level && s[1..3] == h.month && s[3..5] == h.day
      && SplitSpan(s[5..], IsSpace) == (h.gap1, FromClock(h))
  {
    RenderNested(h);
    DateLayout(h.level, h.month, h.day, h.gap1 + FromClock(h));
    assert FromClock(h)[0] == h.time[0];
    SplitSpanOf(h.gap1, FromClock(h), IsSpace);
  }

  /** The time, the gap after it, the thread id and the gap after that are read back. */
  lemma ClockStage(h: Header)
    requires WellFormed(h)
    ensures MatchClock(FromClock(h)) == Some((h.time, h.gap2 + (h.threadid + (h.gap3 + FromFile(h)))))
    ensures SplitSpan(h.gap2 + (h.threadid + (h.gap3 + FromFile(h))), IsSpace)
      == (h.gap2, h.threadid + (h.gap3 + FromFile(h)))
    ensures SplitSpan(h.threadid + (h.gap3 + FromFile(h)), IsDigit) == (h.threadid, h.gap3 + FromFile(h))
  {
    var r4 := h.gap3 + FromFile(h);
    var r3 := h.threadid + r4;
    var r2 := h.gap2 + r3;
    assert r2[0] == h.gap2[0];
    MatchClockOf(h.time, r2);
    assert r3[0] == h.threadid[0];
    SplitSpanOf(h.gap2, r3, IsSpace);
    assert r4[0] == h.gap3[0];
    SplitSpanOf(h.threadid, r4, IsDigit);
  }

  /** The gap before the file name, the file name, the line number and the body are read back. */
  lemma FileStage(h: Header)
    requires WellFormed(h) && h.sep == ' '
    ensures SplitSpan(h.gap3 + FromFile(h), IsSpace) == (h.gap3, FromFile(h))
    ensures MatchFileLine(FromFile(h)) == Some((h.file, h.line, h.sep, RenderBody(h.body)))
    ensures ParseBody(RenderBody(h.body)) == h.body
  {
    assert FromFile(h)[0] == if h.file == [] then ':' else h.file[0];
    SplitSpanOf(h.gap3, FromFile(h), IsSpace);
    MatchFileLineOf(h.file, h.line, RenderBody(h.body));
    ParseRenderBody(h.body);
  }

  /**
   * A well-formed header whose `]` is followed by a space is matched back from its
   * rendering: no other file/line split, fraction or message alternative is chosen.
   */
  lemma MatchHeaderComplete(h: Header)
    requires WellFormed(h) && h.sep == ' '
    ensures MatchHeader(Render(h)) == Some(h)
  {
    DateStage(h);
    ClockStage(h);
    FileStage(h);
  }
}
