/**
 * The parser's test lines, worked through the model. Each lemma fixes the header of a
 * test line and leaves its free text (the message, the values of the tail) as a
 * parameter, constrained only as the line's shape needs; the test's own text is one
 * instance. The expected records are those the tests assert, plus the `time` field,
 * which the tests see already consumed by `parse_time`.
 */
module ParserExamples {
  import opened Wrappers
  import opened Chars
  import opened Escapes
  import opened Records
  import KvScanner
  import opened KlogHeader
  import RubyString
  import opened KubernetesParser
  import Decimal

  /** `force_year 2022` and `default_tz +02:00` on top of the test configuration. */
  const KubeletConfig := Config(" ", "+02:00", Some("2022"), false, Some("%Y-%m-%dT%H:%M:%S.%N%:z"), "time")

  /** The `time` text of a kubelet test line: the forced year, the date, the clock, the zone. */
  lemma KubeletTime(month: string, day: string, clock: string)
    ensures YearText(KubeletConfig, 0) + "-" + month + "-" + day + "T" + clock + "+02:00"
      == "2022-" + month + "-" + day + "T" + clock + "+02:00"
  {
  }

  lemma Dates()
    ensures "2022-" + "05" + "-" + "24" + "T" == "2022-05-24T"
    ensures "2022-" + "06" + "-" + "27" + "T" == "2022-06-27T"
    ensures "2022-" + "05" + "-" + "27" + "T" == "2022-05-27T"
  {
  }

  /**
   * "kubelet without quoting": an unquoted message is the rest of the line, verbatim,
   * and nothing is scanned.
   */
  lemma KubeletWithoutQuoting(m: string)
    requires m == [] || m[0] != '"'
    ensures Parse(KubeletConfig, 0, Some("I" + "05" + "24" + " " + "16:21:12.823864" + "    " + "1025" + " " + "log.go" + ":" + "195" + "] " + m))
      == Some(map[
        "time" := Str("2022-05-24T" + "16:21:12.823864" + "+02:00"),
        "level" := Str("info"),
        "threadid" := Int(1025),
        "file" := Str("log.go"),
        "line" := Int(195),
        "msg" := Str(m)])
  {
    var h := Header('I', "05", "24", " ", "16:21:12.823864", "    ", "1025", " ", "log.go", "195", ' ', Greedy(m));
    KubeletPlainHeader(m);
    ParseRendered(KubeletConfig, 0, h);
    KubeletTime(h.month, h.day, h.time);
    Dates();
    Value1025();
    Value195();
  }

  // The thread ids and line numbers of the test lines, read back from their digits.

  lemma Value1025()
    ensures Decimal.Value("1025") == 1025
  {
    assert Decimal.Show(1025) == "1025";
    Decimal.ValueShow(1025);
  }

  lemma Value195()
    ensures Decimal.Value("195") == 195
  {
    assert Decimal.Show(195) == "195";
    Decimal.ValueShow(195);
  }

  lemma Value462622()
    ensures Decimal.Value("462622") == 462622
  {
    assert Decimal.Show(462) == "462";
    assert Decimal.Show(4626) == Decimal.Show(462) + "6";
    assert Decimal.Show(46262) == Decimal.Show(4626) + "2";
    assert Decimal.Show(462622) == Decimal.Show(46262) + "2";
    assert Decimal.Show(462622) == "462622";
    Decimal.ValueShow(462622);
  }

  lemma Value519()
    ensures Decimal.Value("519") == 519
  {
    assert Decimal.Show(519) == "519";
    Decimal.ValueShow(519);
  }

  lemma Value200()
    ensures Decimal.Value("200") == 200
  {
    assert Decimal.Show(200) == "200";
    Decimal.ValueShow(200);
  }

  lemma Value160()
    ensures Decimal.Value("160") == 160
  {
    assert Decimal.Show(160) == "160";
    Decimal.ValueShow(160);
  }

  lemma Value167()
    ensures Decimal.Value("167") == 167
  {
    assert Decimal.Show(167) == "167";
    Decimal.ValueShow(167);
  }

  /** The header of the unquoted test line. */
  lemma KubeletPlainHeader(m: string)
    requires m == [] || m[0] != '"'
    ensures var h := Header('I', "05", "24", " ", "16:21:12.823864", "    ", "1025", " ", "log.go", "195", ' ', Greedy(m));
      && WellFormed(h)
      && KlogHeader.Render(h) == "I" + "05" + "24" + " " + "16:21:12.823864" + "    " + "1025" + " " + "log.go" + ":" + "195" + "] " + m
  {
    var h := Header('I', "05", "24", " ", "16:21:12.823864", "    ", "1025", " ", "log.go", "195", ' ', Greedy(m));
    PlainFields();
  }

  lemma PlainFields()
    ensures IsClock("16:21:12.823864") && All("log.go", IsNotBlank) && !IsSpace("log.go"[0])
  {
  }

  /** The header of the unquoted warning test line. */
  lemma KubeletWarnHeader(m: string)
    requires m == [] || m[0] != '"'
    ensures var h := Header('W', "06", "27", " ", "12:09:57.042726", "  ", "462622", " ", "empty_dir.go", "519", ' ', Greedy(m));
      && WellFormed(h)
      && KlogHeader.Render(h) == "W" + "06" + "27" + " " + "12:09:57.042726" + "  " + "462622" + " " + "empty_dir.go" + ":" + "519" + "] " + m
  {
    var h := Header('W', "06", "27", " ", "12:09:57.042726", "  ", "462622", " ", "empty_dir.go", "519", ' ', Greedy(m));
    WarnFields();
  }

  lemma WarnFields()
    ensures IsClock("12:09:57.042726") && All("empty_dir.go", IsNotBlank) && !IsSpace("empty_dir.go"[0])
  {
  }

  /** "kubelet without quoting, warn": the level letter `W` becomes `warn`. */
  lemma KubeletWithoutQuotingWarn(m: string)
    requires m == [] || m[0] != '"'
    ensures Parse(KubeletConfig, 0, Some("W" + "06" + "27" + " " + "12:09:57.042726" + "  " + "462622" + " " + "empty_dir.go" + ":" + "519" + "] " + m))
      == Some(map[
        "time" := Str("2022-06-27T" + "12:09:57.042726" + "+02:00"),
        "level" := Str("warn"),
        "threadid" := Int(462622),
        "file" := Str("empty_dir.go"),
        "line" := Int(519),
        "msg" := Str(m)])
  {
    var h := Header('W', "06", "27", " ", "12:09:57.042726", "  ", "462622", " ", "empty_dir.go", "519", ' ', Greedy(m));
    KubeletWarnHeader(m);
    ParseRendered(KubeletConfig, 0, h);
    KubeletTime(h.month, h.day, h.time);
    Dates();
    Value462622();
    Value519();
  }

  /** The header of the quoted-message test line. */
  lemma KubeletQuotedHeader(m: string)
    requires WellEscaped(m, '"')
    ensures var h := Header('I', "05", "24", " ", "17:05:44.446677", "    ", "1025", " ", "topology_manager.go", "200", ' ', Body.Quoted(m, None));
      && WellFormed(h)
      && KlogHeader.Render(h) == "I" + "05" + "24" + " " + "17:05:44.446677" + "    " + "1025" + " " + "topology_manager.go" + ":" + "200" + "] "
        + ("\"" + m + "\"")
  {
    var h := Header('I', "05", "24", " ", "17:05:44.446677", "    ", "1025", " ", "topology_manager.go", "200", ' ', Body.Quoted(m, None));
    TopologyFields();
  }

  lemma TopologyFields()
    ensures IsClock("17:05:44.446677") && All("topology_manager.go", IsNotBlank) && !IsSpace("topology_manager.go"[0])
  {
  }

  /**
   * "kubelet quoted msg": a quoted message that ends the line is the text between the
   * quotes, with any backslashes left in place, and nothing is scanned.
   */
  lemma KubeletQuotedMsg(m: string)
    requires WellEscaped(m, '"')
    ensures Parse(KubeletConfig, 0, Some("I" + "05" + "24" + " " + "17:05:44.446677" + "    " + "1025" + " " + "topology_manager.go" + ":" + "200" + "] "
        + ("\"" + m + "\"")))
      == Some(map[
        "time" := Str("2022-05-24T" + "17:05:44.446677" + "+02:00"),
        "level" := Str("info"),
        "threadid" := Int(1025),
        "file" := Str("topology_manager.go"),
        "line" := Int(200),
        "msg" := Str(m)])
  {
    var h := Header('I', "05", "24", " ", "17:05:44.446677", "    ", "1025", " ", "topology_manager.go", "200", ' ', Body.Quoted(m, None));
    KubeletQuotedHeader(m);
    ParseRendered(KubeletConfig, 0, h);
    KubeletTime(h.month, h.day, h.time);
    Dates();
    Value1025();
    Value200();
  }

  /** The tail of the context test line: a bare value, then a quoted one. */
  lemma ContextPairs(uid: string, path: string)
    requires uid != [] && All(uid, IsNotSpace) && uid[0] != '"' && uid[0] != '['
    ensures KvScanner.Scan("podUID=" + uid + " path=\"" + Escape(path) + "\"") == [("podUID", Str(uid)), ("path", Str(path))]
  {
    var e := Escape(path);
    var quoted := "path" + ['=', '"'] + e + ['"'] + [];
    ContextLayout(uid, e);
    KvScanner.ScanPlainValue("podUID", uid, [' '] + quoted);
    KvScanner.ScanSkip(' ', quoted);
    EscapeWellEscaped(path);
    Keys();
    KvScanner.ScanQuotedValue("path", e, []);
    UnescapeEscape(path);
  }

  lemma Keys()
    ensures KvScanner.IsKey("podUID") && KvScanner.IsKey("path") && KvScanner.IsKey("pod")
    ensures KvScanner.IsKey("nodeCondition") && KvScanner.IsKey("time") && KvScanner.IsKey("level")
    ensures KvScanner.IsKey("msg") && KvScanner.IsKey("type")
  {
  }

  /** Storing two pairs is two updates, in order. */
  lemma StoreTwo(rec: Record, a: Pair, b: Pair)
    ensures Store(rec, [a, b]) == rec[a.0 := a.1][b.0 := b.1]
  {
    assert [a, b][1..] == [b];
    assert [b][1..] == [];
    assert Store(rec[a.0 := a.1][b.0 := b.1], []) == rec[a.0 := a.1][b.0 := b.1];
    assert Store(rec[a.0 := a.1], [b]) == Store(rec[a.0 := a.1][b.0 := b.1], []);
  }

  lemma ContextLayout(uid: string, e: string)
    ensures "podUID=" + uid + " path=\"" + e + "\""
      == "podUID" + ['='] + uid + ([' '] + ("path" + ['=', '"'] + e + ['"'] + []))
  {
  }

  /** The header of the context test line, whose quoted message is followed by a tail. */
  lemma ContextHeader(m: string, kv: string)
    requires WellEscaped(m, '"') && kv != [] && kv[0] == 'p'
    ensures var h := Header('I', "05", "24", " ", "17:11:56.952306", "    ", "1025", " ", "kubelet_volumes.go", "160", ' ', Body.Quoted(m, Some(Tail(" ", kv))));
      && WellFormed(h)
      && KlogHeader.Render(h) == "I" + "05" + "24" + " " + "17:11:56.952306" + "    " + "1025" + " " + "kubelet_volumes.go" + ":" + "160" + "] "
        + ("\"" + m + "\"" + " " + kv)
  {
    var h := Header('I', "05", "24", " ", "17:11:56.952306", "    ", "1025", " ", "kubelet_volumes.go", "160", ' ', Body.Quoted(m, Some(Tail(" ", kv))));
    ContextFields();
  }

  lemma ContextFields()
    ensures IsClock("17:11:56.952306") && All("kubelet_volumes.go", IsNotBlank) && !IsSpace("kubelet_volumes.go"[0])
  {
  }

  /**
   * "kubelet with some context": the tail after a quoted message is scanned, and its
   * pairs join the header fields; the quoted value is unescaped, the bare one is not.
   */
  lemma KubeletWithContext(m: string, uid: string, path: string)
    requires WellEscaped(m, '"')
    requires uid != [] && All(uid, IsNotSpace) && uid[0] != '"' && uid[0] != '['
    ensures Parse(KubeletConfig, 0, Some("I" + "05" + "24" + " " + "17:11:56.952306" + "    " + "1025" + " " + "kubelet_volumes.go" + ":" + "160" + "] "
        + ("\"" + m + "\"" + " " + ("podUID=" + uid + " path=\"" + Escape(path) + "\""))))
      == Some(map[
        "time" := Str("2022-05-24T" + "17:11:56.952306" + "+02:00"),
        "level" := Str("info"),
        "threadid" := Int(1025),
        "file" := Str("kubelet_volumes.go"),
        "line" := Int(160),
        "msg" := Str(m),
        "podUID" := Str(uid),
        "path" := Str(path)])
  {
    var kv := "podUID=" + uid + " path=\"" + Escape(path) + "\"";
    var h := Header('I', "05", "24", " ", "17:11:56.952306", "    ", "1025", " ", "kubelet_volumes.go", "160", ' ', Body.Quoted(m, Some(Tail(" ", kv))));
    ContextHeader(m, kv);
    ParseRendered(KubeletConfig, 0, h);
    ContextPairs(uid, path);
    StoreTwo(HeaderRecord(KubeletConfig, 0, h), ("podUID", Str(uid)), ("path", Str(path)));
    KubeletTime(h.month, h.day, h.time);
    Dates();
    Value1025();
    Value160();
  }

  lemma ArrayLayout(e: string, j: string)
    ensures "pod=\"" + e + "\" nodeCondition=[" + j + "]"
      == "pod" + ['=', '"'] + e + ['"'] + ([' '] + ("nodeCondition" + ['=', '['] + j + [']'] + []))
  {
  }

  /** The tail of the array test line: a quoted value, then a bracketed list. */
  lemma ArrayPairs(pod: string, xs: seq<string>)
    requires xs == [] || xs[|xs| - 1] != []
    requires forall i :: 0 <= i < |xs| ==> KvScanner.IsRenderableItem(xs[i])
    ensures KvScanner.Scan("pod=\"" + Escape(pod) + "\" nodeCondition=[" + RubyString.JoinAll(xs, ',') + "]")
      == [("pod", Str(pod)), ("nodeCondition", List(xs))]
  {
    var e := Escape(pod);
    var j := RubyString.JoinAll(xs, ',');
    var bracketed := "nodeCondition" + ['=', '['] + j + [']'] + [];
    ArrayLayout(e, j);
    Keys();
    EscapeWellEscaped(pod);
    KvScanner.ScanQuotedValue("pod", e, [' '] + bracketed);
    UnescapeEscape(pod);
    KvScanner.ScanSkip(' ', bracketed);
    KvScanner.ListRenders(xs);
    KvScanner.ScanBracketedValue("nodeCondition", j, []);
  }

  /** The header of the array test line, whose quoted message is followed by a tail. */
  lemma ArrayHeader(m: string, kv: string)
    requires WellEscaped(m, '"') && kv != [] && kv[0] == 'p'
    ensures var h := Header('I', "05", "27", " ", "09:00:05.110852", "    ", "1025", " ", "eviction_manager.go", "167", ' ', Body.Quoted(m, Some(Tail(" ", kv))));
      && WellFormed(h)
      && KlogHeader.Render(h) == "I" + "05" + "27" + " " + "09:00:05.110852" + "    " + "1025" + " " + "eviction_manager.go" + ":" + "167" + "] "
        + ("\"" + m + "\"" + " " + kv)
  {
    var h := Header('I', "05", "27", " ", "09:00:05.110852", "    ", "1025", " ", "eviction_manager.go", "167", ' ', Body.Quoted(m, Some(Tail(" ", kv))));
    ArrayFields();
  }

  lemma ArrayFields()
    ensures IsClock("09:00:05.110852") && All("eviction_manager.go", IsNotBlank) && !IsSpace("eviction_manager.go"[0])
  {
  }

  /**
   * "kubelet with some array in context": a bracketed value becomes the list of its
   * comma-separated items.
   */
  lemma KubeletWithArray(m: string, pod: string, xs: seq<string>)
    requires WellEscaped(m, '"')
    requires xs == [] || xs[|xs| - 1] != []
    requires forall i :: 0 <= i < |xs| ==> KvScanner.IsRenderableItem(xs[i])
    ensures Parse(KubeletConfig, 0, Some("I" + "05" + "27" + " " + "09:00:05.110852" + "    " + "1025" + " " + "eviction_manager.go" + ":" + "167" + "] "
        + ("\"" + m + "\"" + " " + ("pod=\"" + Escape(pod) + "\" nodeCondition=[" + RubyString.JoinAll(xs, ',') + "]"))))
      == Some(map[
        "time" := Str("2022-05-27T" + "09:00:05.110852" + "+02:00"),
        "level" := Str("info"),
        "threadid" := Int(1025),
        "file" := Str("eviction_manager.go"),
        "line" := Int(167),
        "msg" := Str(m),
        "pod" := Str(pod),
        "nodeCondition" := List(xs)])
  {
    var kv := "pod=\"" + Escape(pod) + "\" nodeCondition=[" + RubyString.JoinAll(xs, ',') + "]";
    var h := Header('I', "05", "27", " ", "09:00:05.110852", "    ", "1025", " ", "eviction_manager.go", "167", ' ', Body.Quoted(m, Some(Tail(" ", kv))));
    ArrayHeader(m, kv);
    ParseRendered(KubeletConfig, 0, h);
    ArrayPairs(pod, xs);
    StoreTwo(HeaderRecord(KubeletConfig, 0, h), ("pod", Str(pod)), ("nodeCondition", List(xs)));
    KubeletTime(h.month, h.day, h.time);
    Dates();
    Value1025();
    Value167();
  }

  /** A line that does not open with an upper-case letter has no klog header. */
  lemma NoHeader(s: string)
    requires s != [] && !IsUpper(s[0])
    ensures MatchHeader(s) == None
  {
  }

  /** Storing four pairs is four updates, in order. */
  lemma StoreFour(rec: Record, a: Pair, b: Pair, c: Pair, d: Pair)
    ensures Store(rec, [a] + [b, c, d]) == rec[a.0 := a.1][b.0 := b.1][c.0 := c.1][d.0 := d.1]
  {
    var ps := [a] + [b, c, d];
    assert ps[0] == a && ps[1..] == [b, c, d];
    assert [b, c, d][0] == b && [b, c, d][1..] == [c, d];
    assert Store(rec[a.0 := a.1], [b, c, d]) == Store(rec[a.0 := a.1][b.0 := b.1], [c, d]);
    StoreTwo(rec[a.0 := a.1][b.0 := b.1], c, d);
  }

  lemma ContainerdLayout(e1: string, lv: string, e2: string, ty: string)
    ensures "time=\"" + e1 + "\" level=" + lv + " msg=\"" + e2 + "\" type=" + ty
      == "time" + ['=', '"'] + e1 + ['"'] + ([' '] + ("level" + ['='] + lv + ([' '] + ("msg" + ['=', '"'] + e2 + ['"']
        + ([' '] + ("type" + ['='] + ty + []))))))
  {
  }

  /** The value `level=v` or `type=v` of the containerd test line: a bare, unquoted run. */
  predicate IsBareValue(v: string) {
    All(v, IsNotSpace) && (v == [] || (v[0] != '"' && v[0] != '['))
  }

  /** The pairs of the containerd test line from ` type=` on. */
  lemma TypePairs(ty: string)
    requires IsBareValue(ty)
    ensures KvScanner.Scan([' '] + ("type" + ['='] + ty + [])) == [("type", Str(ty))]
  {
    Keys();
    KvScanner.ScanSkip(' ', "type" + ['='] + ty + []);
    KvScanner.ScanPlainValue("type", ty, []);
  }

  /** The pairs of the containerd test line from ` msg=` on. */
  lemma MsgPairs(msg: string, ty: string)
    requires IsBareValue(ty)
    ensures KvScanner.Scan([' '] + ("msg" + ['=', '"'] + Escape(msg) + ['"'] + ([' '] + ("type" + ['='] + ty + []))))
      == [("msg", Str(msg)), ("type", Str(ty))]
  {
    var typed := [' '] + ("type" + ['='] + ty + []);
    Keys();
    EscapeWellEscaped(msg);
    UnescapeEscape(msg);
    KvScanner.ScanSkip(' ', "msg" + ['=', '"'] + Escape(msg) + ['"'] + typed);
    KvScanner.ScanQuotedValue("msg", Escape(msg), typed);
    TypePairs(ty);
  }

  /** The pairs of the containerd test line from ` level=` on. */
  lemma LevelPairs(lv: string, msg: string, ty: string)
    requires IsBareValue(lv) && IsBareValue(ty)
    ensures KvScanner.Scan([' '] + ("level" + ['='] + lv + ([' '] + ("msg" + ['=', '"'] + Escape(msg) + ['"']
        + ([' '] + ("type" + ['='] + ty + [])))))) == [("level", Str(lv)), ("msg", Str(msg)), ("type", Str(ty))]
  {
    var msgd := [' '] + ("msg" + ['=', '"'] + Escape(msg) + ['"'] + ([' '] + ("type" + ['='] + ty + [])));
    Keys();
    KvScanner.ScanSkip(' ', "level" + ['='] + lv + msgd);
    KvScanner.ScanPlainValue("level", lv, msgd);
    MsgPairs(msg, ty);
  }

  /** The pairs of the containerd test line, in order. */
  lemma ContainerdPairs(t: string, lv: string, msg: string, ty: string)
    requires IsBareValue(lv) && IsBareValue(ty)
    ensures KvScanner.Scan("time=\"" + Escape(t) + "\" level=" + lv + " msg=\"" + Escape(msg) + "\" type=" + ty)
      == [("time", Str(t))] + [("level", Str(lv)), ("msg", Str(msg)), ("type", Str(ty))]
  {
    var leveled := [' '] + ("level" + ['='] + lv + ([' '] + ("msg" + ['=', '"'] + Escape(msg) + ['"']
        + ([' '] + ("type" + ['='] + ty + [])))));
    var line := "time=\"" + Escape(t) + "\" level=" + lv + " msg=\"" + Escape(msg) + "\" type=" + ty;
    ContainerdLayout(Escape(t), lv, Escape(msg), ty);
    assert line == "time" + ['=', '"'] + Escape(t) + ['"'] + leveled;
    Keys();
    EscapeWellEscaped(t);
    UnescapeEscape(t);
    KvScanner.ScanQuotedValue("time", Escape(t), leveled);
    assert KvScanner.Scan(line) == [("time", Str(t))] + KvScanner.Scan(leveled);
    LevelPairs(lv, msg, ty);
  }

  /**
   * "containerd kv logs": without a klog header the whole line is scanned; quoted
   * values are unescaped, so `\"` in the line is `"` in the record.
   */
  lemma ContainerdKvLogs(t: string, lv: string, msg: string, ty: string)
    requires IsBareValue(lv) && IsBareValue(ty)
    ensures Parse(Defaults, 0, Some("time=\"" + Escape(t) + "\" level=" + lv + " msg=\"" + Escape(msg) + "\" type=" + ty))
      == Some(map["time" := Str(t), "level" := Str(lv), "msg" := Str(msg), "type" := Str(ty)])
  {
    var line := "time=\"" + Escape(t) + "\" level=" + lv + " msg=\"" + Escape(msg) + "\" type=" + ty;
    ContainerdPairs(t, lv, msg, ty);
    NoHeader(line);
    ParseAssembles(Defaults, 0, line);
    StoreFour(map[], ("time", Str(t)), ("level", Str(lv)), ("msg", Str(msg)), ("type", Str(ty)));
  }

  /** The quoted message of the kubelet test line is a valid quoted body. */
  lemma TopologyMessageFits()
    ensures WellEscaped("Topology Admit Handler", '"')
  {
    PlainWellEscaped("Topology Admit Handler", '"');
  }

  /** The quoted message of the test lines with a tail is a valid quoted body. */
  lemma AdmitMessageFits()
    ensures WellEscaped("Failed to admit pod to node", '"')
  {
    PlainWellEscaped("Failed to admit pod to node", '"');
  }

  /** The list item and bare values of the test lines meet the requirements above. */
  lemma TestValuesFit()
    ensures KvScanner.IsRenderableItem("DiskPressure")
    ensures IsBareValue("info") && IsBareValue("io.containerd.grpc.v1")
  {
  }
}
