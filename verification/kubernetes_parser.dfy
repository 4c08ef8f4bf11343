/**
 * `KubernetesParser#parse` up to the assembled record, and the delimiter check of
 * `configure`. A line is matched against the klog header; its captures become the
 * fields `time`, `level`, `threadid`, `file`, `line` and `msg`; then the key/value
 * scan runs over the tail after a quoted message, or over the whole line when the
 * header does not match, and its pairs overwrite earlier fields.
 */
module KubernetesParser {
  import opened Wrappers
  import opened Chars
  import opened Records
  import opened KvScanner
  import opened KlogHeader
  import Decimal

  /** The plugin's configuration parameters. */
  datatype Config = Config(
    delimiter: string,
    defaultTz: string,
    forceYear: Option<string>,
    keepTimeKey: bool,
    timeFormat: Option<string>,
    timeKey: string)

  datatype ConfigError = DelimiterNotSingleCharacter(delimiter: string)

  /** The declared defaults of the configuration parameters. */
  const Defaults := Config(" ", "+00:00", None, false, None, "time")

  /** `configure`: a delimiter of any length other than one is a configuration error. */
  function Configure(c: Config): (r: Result<Config, ConfigError>)
    ensures r.Success? <==> |c.delimiter| == 1
    ensures r.Success? ==> r.value == c
    ensures r.Failure? ==> r.error == DelimiterNotSingleCharacter(c.delimiter)
  {
    if |c.delimiter| != 1 then Failure(DelimiterNotSingleCharacter(c.delimiter)) else Success(c)
  }

  /** The `level` field for a klog level letter. */
  function LevelName(c: char): string {
    if c == 'I' then "info"
    else if c == 'W' then "warn"
    else if c == 'E' then "error"
    else if c == 'F' then "fatal"
    else [c]
  }

  /** The four klog letters get their names; every other letter passes through as itself. */
  lemma LevelNameSpec(c: char)
    ensures c == 'I' <==> LevelName(c) == "info"
    ensures c == 'W' <==> LevelName(c) == "warn"
    ensures c == 'E' <==> LevelName(c) == "error"
    ensures c == 'F' <==> LevelName(c) == "fatal"
    ensures c !in "IWEF" ==> LevelName(c) == [c]
  {
  }

  /** Different letters never share a level name, so the letter can be recovered. */
  lemma LevelNameInjective(a: char, b: char)
    requires LevelName(a) == LevelName(b)
    ensures a == b
  {
    if a !in "IWEF" && b !in "IWEF" {
      assert LevelName(a)[0] == a && LevelName(b)[0] == b;
    }
  }

  /** `force_year` verbatim, else the current year printed in decimal. */
  function YearText(cfg: Config, currentYear: nat): string {
    match cfg.forceYear
    case Some(y) => y
    case None => Decimal.Show(currentYear)
  }

  /** The synthesised `time` field. */
  function TimeText(cfg: Config, currentYear: nat, h: Header): string {
    YearText(cfg, currentYear) + "-" + h.month + "-" + h.day + "T" + h.time + cfg.defaultTz
  }

  /** The fields the header captures give, before any key/value pair is stored. */
  function HeaderRecord(cfg: Config, currentYear: nat, h: Header): Record
    requires WellFormed(h)
  {
    map[
      "time" := Str(TimeText(cfg, currentYear, h)),
      "level" := Str(LevelName(h.level)),
      "threadid" := Int(Decimal.Value(h.threadid)),
      "file" := Str(h.file),
      "line" := Int(Decimal.Value(h.line)),
      "msg" := Str(h.body.msg)]
  }

  const HeaderKeys: set<string> := {"time", "level", "threadid", "file", "line", "msg"}

  /** The header record has exactly the six header keys. */
  lemma HeaderRecordKeys(cfg: Config, currentYear: nat, h: Header)
    requires WellFormed(h)
    ensures HeaderRecord(cfg, currentYear, h).Keys == HeaderKeys
  {
  }

  /** Each header key holds the value of its capture. */
  lemma HeaderRecordFields(cfg: Config, currentYear: nat, h: Header)
    requires WellFormed(h)
    ensures var r := HeaderRecord(cfg, currentYear, h);
      && r["time"] == Str(TimeText(cfg, currentYear, h))
      && r["level"] == Str(LevelName(h.level))
      && r["threadid"] == Int(Decimal.Value(h.threadid))
      && r["file"] == Str(h.file)
      && r["line"] == Int(Decimal.Value(h.line))
      && r["msg"] == Str(h.body.msg)
  {
  }

  /** The text left for the key/value scan after a header match: the tail of a quoted message. */
  function KvText(b: Body): Option<string> {
    match b
    case Quoted(_, Some(t)) => Some(t.kv)
    case _ => None
  }

  /** The pairs the key/value scan yields after a header match. */
  function TailPairs(h: Header): seq<Pair> {
    match KvText(h.body)
    case Some(kv) => Scan(kv)
    case None => []
  }

  /** The record for a non-empty line, given the outcome of the header match. */
  function Assemble(cfg: Config, currentYear: nat, s: string, m: Option<Header>): Record
    requires m.Some? ==> WellFormed(m.value)
  {
    match m
    case Some(h) => Store(HeaderRecord(cfg, currentYear, h), TailPairs(h))
    case None => Store(map[], Scan(s))
  }

  /**
   * `parse`, up to the record handed to `parse_time`. An absent or empty line gives no
   * record; `currentYear` stands for `Time.now.year`.
   */
  function Parse(cfg: Config, currentYear: nat, text: Option<string>): (r: Option<Record>)
    ensures r.None? <==> text.None? || text.value == []
  {
    if text.None? || text.value == [] then None
    else
      match MatchHeader(text.value)
      case Some(h) =>
        MatchHeaderSound(text.value);
        Some(Assemble(cfg, currentYear, text.value, Some(h)))
      case None => Some(Assemble(cfg, currentYear, text.value, None))
  }

  /** A non-empty line's record is assembled from its header match. */
  lemma ParseAssembles(cfg: Config, currentYear: nat, s: string)
    requires s != []
    ensures MatchHeader(s).Some? ==> WellFormed(MatchHeader(s).value) && KlogHeader.Render(MatchHeader(s).value) == s
    ensures Parse(cfg, currentYear, Some(s)) == Some(Assemble(cfg, currentYear, s, MatchHeader(s)))
  {
    if MatchHeader(s).Some? {
      MatchHeaderSound(s);
    }
  }

  /**
   * A line that renders a well-formed header with a single-space separator before the
   * body is parsed as that header: the record is assembled from exactly its captures.
   */
  lemma ParseRendered(cfg: Config, currentYear: nat, h: Header)
    requires WellFormed(h) && h.sep == ' '
    ensures KlogHeader.Render(h) != []
    ensures Parse(cfg, currentYear, Some(KlogHeader.Render(h))) == Some(Assemble(cfg, currentYear, KlogHeader.Render(h), Some(h)))
  {
    MatchHeaderComplete(h);
    ParseAssembles(cfg, currentYear, KlogHeader.Render(h));
  }

  /**
   * After a header match the record has the six header keys plus the scanned keys;
   * each scanned key holds its last pair's value, and every other header key holds
   * its header value.
   */
  lemma AssembleHeader(cfg: Config, currentYear: nat, s: string, h: Header)
    requires WellFormed(h)
    ensures var r := Assemble(cfg, currentYear, s, Some(h));
      var ps := TailPairs(h);
      && r.Keys == HeaderKeys + KeysOf(ps)
      && (forall k :: LastValue(ps, k).Some? ==> r[k] == LastValue(ps, k).value)
      && (forall k :: k in HeaderKeys && k !in KeysOf(ps) ==> r[k] == HeaderRecord(cfg, currentYear, h)[k])
  {
    StoreSpec(HeaderRecord(cfg, currentYear, h), TailPairs(h));
  }

  /** Without a header match the record holds exactly the scanned keys, each with its last value. */
  lemma AssemblePlain(cfg: Config, currentYear: nat, s: string)
    ensures var r := Assemble(cfg, currentYear, s, None);
      && r.Keys == KeysOf(Scan(s))
      && forall k :: k in r ==> LastValue(Scan(s), k) == Some(r[k])
  {
    StoreSpec(map[], Scan(s));
  }

  /** With nothing left to scan the record is the header record. */
  lemma AssembleWithoutTail(cfg: Config, currentYear: nat, s: string, h: Header)
    requires WellFormed(h) && KvText(h.body).None?
    ensures Assemble(cfg, currentYear, s, Some(h)) == HeaderRecord(cfg, currentYear, h)
    ensures Assemble(cfg, currentYear, s, Some(h)).Keys == HeaderKeys
  {
    assert TailPairs(h) == [];
    HeaderRecordKeys(cfg, currentYear, h);
  }

  /**
   * A line with a header: it is the rendering of a well-formed header, and its record
   * has the six header keys plus the keys scanned from the tail, with the tail's last
   * values overriding.
   */
  lemma ParseHeaderLine(cfg: Config, currentYear: nat, s: string, h: Header)
    requires s != [] && MatchHeader(s) == Some(h)
    ensures WellFormed(h) && KlogHeader.Render(h) == s
    ensures var r := Parse(cfg, currentYear, Some(s)).value;
      var ps := TailPairs(h);
      && r.Keys == HeaderKeys + KeysOf(ps)
      && (forall k :: LastValue(ps, k).Some? ==> r[k] == LastValue(ps, k).value)
      && (forall k :: k in HeaderKeys && k !in KeysOf(ps) ==> r[k] == HeaderRecord(cfg, currentYear, h)[k])
  {
    ParseAssembles(cfg, currentYear, s);
    AssembleHeader(cfg, currentYear, s, h);
  }

  /**
   * A line without a header: the whole line is scanned, and the record holds exactly
   * the scanned keys, each with its last pair's value.
   */
  lemma ParsePlainLine(cfg: Config, currentYear: nat, s: string)
    requires s != [] && MatchHeader(s).None?
    ensures var r := Parse(cfg, currentYear, Some(s)).value;
      && r.Keys == KeysOf(Scan(s))
      && forall k :: k in r ==> LastValue(Scan(s), k) == Some(r[k])
  {
    ParseAssembles(cfg, currentYear, s);
    AssemblePlain(cfg, currentYear, s);
  }

  /**
   * Without a key/value tail (an unquoted message, or a quoted one that ends the line)
   * nothing is scanned: the record is the header record.
   */
  lemma ParseWithoutTail(cfg: Config, currentYear: nat, s: string, h: Header)
    requires s != [] && MatchHeader(s) == Some(h)
    requires KvText(h.body).None?
    ensures WellFormed(h) && Parse(cfg, currentYear, Some(s)) == Some(HeaderRecord(cfg, currentYear, h))
    ensures Parse(cfg, currentYear, Some(s)).value.Keys == HeaderKeys
  {
    ParseAssembles(cfg, currentYear, s);
    AssembleWithoutTail(cfg, currentYear, s, h);
  }

  /** The level letter and the date of a rendered header sit at fixed positions. */
  lemma RenderedDate(h: Header)
    requires WellFormed(h)
    ensures var s := KlogHeader.Render(h);
      |s| >= 5 && s[0] == h.level && s[1..3] == h.month && s[3..5] == h.day
  {
    RenderNested(h);
    DateLayout(h.level, h.month, h.day, h.gap1 + FromClock(h));
  }

  /**
   * When the tail names none of the header keys, the header fields are those of the
   * line: the level letter mapped, the date and clock copied into `time` after the
   * year, the thread id and line number as integers, the file name without spaces, and
   * the message.
   */
  lemma ParseHeaderFields(cfg: Config, currentYear: nat, s: string, h: Header)
    requires s != [] && MatchHeader(s) == Some(h)
    requires HeaderKeys !! KeysOf(TailPairs(h))
    ensures var r := Parse(cfg, currentYear, Some(s)).value;
      && |s| >= 5 && HeaderKeys <= r.Keys
      && r["level"] == Str(LevelName(s[0]))
      && r["time"] == Str(YearText(cfg, currentYear) + "-" + s[1..3] + "-" + s[3..5] + "T" + h.time + cfg.defaultTz)
      && IsClock(h.time)
      && r["threadid"] == Int(Decimal.Value(h.threadid)) && Decimal.IsNumeral(h.threadid)
      && r["line"] == Int(Decimal.Value(h.line)) && Decimal.IsNumeral(h.line)
      && r["file"] == Str(h.file) && ' ' !in h.file
      && r["msg"] == Str(h.body.msg)
  {
    ParseHeaderLine(cfg, currentYear, s, h);
    RenderedDate(h);
    HeaderRecordFields(cfg, currentYear, h);
    assert "level" in HeaderKeys && "time" in HeaderKeys && "threadid" in HeaderKeys;
    assert "line" in HeaderKeys && "file" in HeaderKeys && "msg" in HeaderKeys;
  }

  /**
   * The raw `month`, `day` and `time` captures and the `log_level`, `greedy_msg` and
   * `kv` captures are never keys of a header line's record unless the tail itself
   * names them.
   */
  lemma ParseCaptureKeysHidden(cfg: Config, currentYear: nat, s: string, h: Header, k: string)
    requires s != [] && MatchHeader(s) == Some(h)
    requires k in {"month", "day", "log_level", "greedy_msg", "kv"} && k !in KeysOf(TailPairs(h))
    ensures k !in Parse(cfg, currentYear, Some(s)).value
  {
    ParseHeaderLine(cfg, currentYear, s, h);
  }

  /** `s` ends with `b`. */
  predicate EndsWith(s: string, b: string) {
    |b| <= |s| && s[|s| - |b|..] == b
  }

  lemma EndsWithConcat(a: string, t: string, b: string)
    requires EndsWith(t, b)
    ensures EndsWith(a + t, b)
  {
    assert (a + t)[|a + t| - |b|..] == t[|t| - |b|..];
  }

  /**
   * The message is copied from the line without unescaping: a header line ends with
   * its rendered body, which is the message itself for an unquoted body (and then
   * nothing is scanned), or the message in quotes followed by the tail the scan reads.
   */
  lemma ParseMessageVerbatim(cfg: Config, currentYear: nat, s: string, h: Header)
    requires s != [] && MatchHeader(s) == Some(h)
    ensures EndsWith(s, RenderBody(h.body))
    ensures h.body.Greedy? ==> EndsWith(s, h.body.msg) && TailPairs(h) == []
    ensures h.body.Quoted? && h.body.tail.Some? ==> TailPairs(h) == Scan(h.body.tail.value.kv)
  {
    ParseAssembles(cfg, currentYear, s);
    var b := RenderBody(h.body);
    var y := h.file + [':'] + h.line + [']', h.sep];
    assert EndsWith(y + b, b);
    EndsWithConcat(h.gap3, FromFile(h), b);
    EndsWithConcat(h.threadid, h.gap3 + FromFile(h), b);
    EndsWithConcat(h.gap2, h.threadid + (h.gap3 + FromFile(h)), b);
    EndsWithConcat(h.time, h.gap2 + (h.threadid + (h.gap3 + FromFile(h))), b);
    EndsWithConcat(h.gap1, FromClock(h), b);
    EndsWithConcat([h.level] + h.month + h.day, h.gap1 + FromClock(h), b);
    RenderNested(h);
  }
}
