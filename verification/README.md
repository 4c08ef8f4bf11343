# Kubernetes log parser, modelled in Dafny

This project models the `kubernetes` parser plugin of a Fluentd log pipeline. The parser
turns one log line into a record. It understands two conventions:

- **klog lines**, as written by kubelet and other Kubernetes components. The layout is
  `Lmmdd hh:mm:ss.uuuuuu threadid file:line] message`. The message may be quoted, and a
  quoted message may be followed by `key=value` pairs.
- **key/value lines**, as written by containerd. The layout is `key="value" key=value ...`.

For a non-empty line the parser first tries the klog header pattern. If it matches, the
header becomes the record fields below, and the tail after a quoted message, if there is
one, is scanned for pairs:

- `time`: the year, month, day, clock and zone, joined into one text;
- `level`: the level letter, named;
- `threadid` and `line`: converted to integers;
- `file` and `msg`: kept as captured.

If the header does not match, the whole line is scanned for pairs. A value of a pair is
decoded according to its form:

- a quoted value has its backslash escapes removed;
- a bracketed value becomes the list of its comma-separated items, each one stripped;
- a bare key followed by whitespace has the value `nil`;
- any other value is kept as written.

A later pair overwrites an earlier pair or a header field with the same key.

The modules follow the parser's structure:

- `Chars`: character classes and scanning helpers.
- `Decimal`: `Integer#to_s` and `String#to_i` on numerals.
- `RubyString`: Ruby's `split(',')` and `strip`.
- `Escapes`: the quoted-body grammar `[^"\\]*(?:\\.[^"\\]*)*` and its unescaping.
- `Records`: the record, as a map from keys to values, and hash assignment.
- `KvScanner`: the key/value pattern and `String#scan` over it.
- `KlogHeader`: the klog header pattern, with a renderer that writes a header back out as
  a line. Every match rebuilds its line, and every well-formed header with a single space
  after `]` is matched as itself.
- `KubernetesParser`: `configure` and `parse`.
- `ParserExamples`: the test lines of the test suite, proved about the model.

The regular expressions are modelled as the functions that compute their match. The
model makes these regex semantics explicit:

- the greedy `[^ ]*` file name takes the longest split that the rest of the pattern
  accepts;
- the empty fraction alternative of the clock is tried before `\.\d+`;
- a quoted body ends at the first unescaped closing character;
- the quoted-message alternative is taken only when the line ends, or whitespace
  follows, after the closing quote;
- `String#scan` resumes after each match, or one character on where no match starts.

The clock is not read. The current year is a parameter, `currentYear`, that the caller
supplies in place of `Time.now.year`.

## Model

| member | source | states |
|---|---|---|
| Decimal.ValueShow | lib/fluent/plugin/parser_kubernetes.rb:101-104 | Reading back the decimal text of any year gives the same number, so the year written into `time` is its value. |
| Decimal.ShowValue | lib/fluent/plugin/parser_kubernetes.rb:129-130 | A canonical numeral is exactly the decimal text of its integer value, so `to_i` loses nothing on it. |
| Decimal.ShowCanonical | lib/fluent/plugin/parser_kubernetes.rb:101-104 | The decimal text of every number is a non-empty numeral without a leading zero, except for "0" itself. |
| RubyString.Split | lib/fluent/plugin/parser_kubernetes.rb:142 | `split(',')` yields fields free of commas and without a trailing empty field. They are a prefix of all the comma-separated fields, and every field it drops is empty. |
| RubyString.SplitJoinAll | lib/fluent/plugin/parser_kubernetes.rb:142 | Splitting the comma-join of comma-free items, whose last item is non-empty, gives back exactly those items. |
| RubyString.Strip | lib/fluent/plugin/parser_kubernetes.rb:142 | `strip` returns a slice of its input with only NUL or whitespace cut from either end. The result neither starts nor ends with such a character. |
| RubyString.StripStripped | lib/fluent/plugin/parser_kubernetes.rb:142 | `strip` leaves unchanged any text that neither starts nor ends with NUL or whitespace. |
| Escapes.FindClose | lib/fluent/plugin/parser_kubernetes.rb:74-76 | The end a quoted or bracketed body finds is a closing character of the text. |
| Escapes.FindCloseSpec | lib/fluent/plugin/parser_kubernetes.rb:74-76 | A body ends at position j exactly when the character at j closes it and everything before j is a well-escaped body. Both directions are stated, so that end is the only one the pattern can take. |
| Escapes.PlainWellEscaped | lib/fluent/plugin/parser_kubernetes.rb:59 | Text without backslashes and without the closing character is a valid body. |
| Escapes.UnescapeEscape | lib/fluent/plugin/parser_kubernetes.rb:140 | The `\\(.)` to `\1` substitution undoes escaping, for every text. |
| Escapes.EscapeWellEscaped | lib/fluent/plugin/parser_kubernetes.rb:74 | Every escaped text is a body the quoted-value pattern accepts in full. |
| Records.LastValue | lib/fluent/plugin/parser_kubernetes.rb:137-147 | The last value given to a key is absent exactly when the key is not among the pairs. When present, it is a pair of the sequence. |
| Records.LastValueCons | lib/fluent/plugin/parser_kubernetes.rb:137-147 | A pair put in front only counts when no later pair has its key. |
| Records.StoreSpec | lib/fluent/plugin/parser_kubernetes.rb:137-147 | Assigning pairs in order gives a record with the old keys plus the pairs' keys. Each key holds its last assigned value, and every other key keeps its old value. |
| KvScanner.MatchValue | lib/fluent/plugin/parser_kubernetes.rb:73-79 | A value never consumes more than the text after `=`, and it is never the bare-key form. |
| KvScanner.MatchValueSpec | lib/fluent/plugin/parser_kubernetes.rb:73-79 | A quoted or bracketed value is its opener, a well-escaped body and its closer. A plain value is the maximal run of non-whitespace characters. |
| KvScanner.MatchToken | lib/fluent/plugin/parser_kubernetes.rb:67-81 | A match starts with a non-empty key of characters other than whitespace and `=`. The key is followed either by one whitespace character, which makes a bare key, or by `=` and a value. |
| KvScanner.ScanPairs | lib/fluent/plugin/parser_kubernetes.rb:137-147 | Every scanned pair has a valid key and a non-integer value, and each pair uses at least two characters of the text. |
| KvScanner.ScanSkip | lib/fluent/plugin/parser_kubernetes.rb:137 | A character that cannot start a key is skipped by the scan. |
| KvScanner.ScanBareKey | lib/fluent/plugin/parser_kubernetes.rb:68-70 | A key followed by whitespace yields the pair (key, nil), and the scan goes on after the whitespace. |
| KvScanner.ScanQuotedValue | lib/fluent/plugin/parser_kubernetes.rb:138-141 | `key="body"` yields the key with the unescaped body, and the scan goes on after the closing quote. |
| KvScanner.ScanBracketedValue | lib/fluent/plugin/parser_kubernetes.rb:141-142 | `key=[body]` yields the key with the stripped comma-split items of the body. |
| KvScanner.ScanPlainValue | lib/fluent/plugin/parser_kubernetes.rb:143-144 | `key=text`, with text a whitespace-free run not opening a quote or bracket, yields the text verbatim. |
| KvScanner.ScanKeyValue | lib/fluent/plugin/parser_kubernetes.rb:67-81 | After `key=`, the scan takes the value the alternatives choose and resumes right after it. |
| KvScanner.ScanDanglingKey | lib/fluent/plugin/parser_kubernetes.rb:67-70 | Key characters at the end of the text, with neither whitespace nor `=` after them, yield no pair. |
| KvScanner.ScanRenderPair | lib/fluent/plugin/parser_kubernetes.rb:137-147 | A pair written in containerd style is read back as that same pair, whatever follows it. |
| KvScanner.ScanRender | lib/fluent/plugin/parser_kubernetes.rb:137-147 | Scanning a containerd-style line written from renderable pairs gives back exactly those pairs, in order. |
| KvScanner.ListRenders | lib/fluent/plugin/parser_kubernetes.rb:76-77 | A list of clean items, joined by commas, is a valid bracketed body, and splitting and stripping it gives back the list. |
| KlogHeader.MatchClock | lib/fluent/plugin/parser_kubernetes.rb:55 | A matched clock is `hh:mm:ss` with an optional fraction, followed by whitespace, and the split loses no text. |
| KlogHeader.MatchClockOf | lib/fluent/plugin/parser_kubernetes.rb:55 | Every clock followed by whitespace is matched as exactly that clock. |
| KlogHeader.LongestFileEnd | lib/fluent/plugin/parser_kubernetes.rb:57 | The chosen file end is one where `:digits]` and whitespace follow, and no later end up to the bound is. When there is no result, no end up to the bound is valid. |
| KlogHeader.MatchFileLine | lib/fluent/plugin/parser_kubernetes.rb:57 | The file, the line digits, the separator and the rest rebuild the text. No longer file name within the space-free prefix would also match, and no match means no split is valid. |
| KlogHeader.MatchFileLineOf | lib/fluent/plugin/parser_kubernetes.rb:57 | A space-free file name, a numeral and `] ` in front of any body are read back as exactly those parts. |
| KlogHeader.ParseBody | lib/fluent/plugin/parser_kubernetes.rb:58-62 | The message alternative chosen for a body rebuilds that body exactly. |
| KlogHeader.ParseBodyQuotedIff | lib/fluent/plugin/parser_kubernetes.rb:59-61 | The quoted-message alternative is taken exactly when the body opens with a complete quoted message followed by the end of the line or whitespace. |
| KlogHeader.ParseBodyShape | lib/fluent/plugin/parser_kubernetes.rb:58-62 | A quoted message is well escaped, and its tail starts after the whole whitespace run. A greedy message never opens with a complete quoted message. |
| KlogHeader.ParseRenderBody | lib/fluent/plugin/parser_kubernetes.rb:58-62 | Every body of the shape the pattern produces is read back as itself. |
| KlogHeader.MatchHeaderSound | lib/fluent/plugin/parser_kubernetes.rb:52-64 | A header match satisfies every field constraint of the pattern, and its parts rebuild the line. |
| KlogHeader.MatchHeaderComplete | lib/fluent/plugin/parser_kubernetes.rb:52-64 | Every well-formed header followed by a single space after `]` is matched with exactly its own captures. |
| KubernetesParser.Configure | lib/fluent/plugin/parser_kubernetes.rb:31-34 | Configuration succeeds exactly when the delimiter is one character long, and it leaves the parameters unchanged. Otherwise the error names the delimiter. |
| KubernetesParser.LevelNameSpec | lib/fluent/plugin/parser_kubernetes.rb:116-128 | `I`, `W`, `E` and `F` name info, warn, error and fatal, in both directions. Every other letter is kept as itself. |
| KubernetesParser.LevelNameInjective | lib/fluent/plugin/parser_kubernetes.rb:116-128 | Distinct level letters give distinct level names. |
| KubernetesParser.Parse | lib/fluent/plugin/parser_kubernetes.rb:85-88 | A missing or empty text gives no record, and every other text gives one. |
| KubernetesParser.ParseRendered | lib/fluent/plugin/parser_kubernetes.rb:84-152 | Parsing a rendered well-formed header line assembles the record from that same header. |
| KubernetesParser.AssembleHeader | lib/fluent/plugin/parser_kubernetes.rb:110-147 | After a header match, the record keys are the header keys plus the keys of the tail pairs. A tail pair overrides a header field with the same key, and the other header fields remain. |
| KubernetesParser.AssemblePlain | lib/fluent/plugin/parser_kubernetes.rb:137-147 | Without a header, the record holds exactly the keys scanned from the whole line, each with its last value. |
| KubernetesParser.AssembleWithoutTail | lib/fluent/plugin/parser_kubernetes.rb:110-111 | With no key/value tail, the record is the header record, and nothing is scanned. |
| KubernetesParser.ParseHeaderLine | lib/fluent/plugin/parser_kubernetes.rb:93-147 | For a klog line, the record keys are the header keys plus the tail keys, with tail pairs overriding header fields. |
| KubernetesParser.ParsePlainLine | lib/fluent/plugin/parser_kubernetes.rb:137-147 | For a line without a klog header, the record is built from the scan of the whole line: the keys it yields, each with its last value. |
| KubernetesParser.ParseWithoutTail | lib/fluent/plugin/parser_kubernetes.rb:110-111 | A klog line with a greedy message, or with a quoted message that ends the line, has exactly the six header keys. |
| KubernetesParser.RenderedDate | lib/fluent/plugin/parser_kubernetes.rb:54 | A rendered header holds the level, month and day at positions 0, 1-2 and 3-4. |
| KubernetesParser.ParseHeaderFields | lib/fluent/plugin/parser_kubernetes.rb:98-131 | When no tail key collides, each header field of a klog line is taken from the line. The level comes from its first character, the date from characters 1-4, and threadid and line from numerals. The file has no space. |
| KubernetesParser.ParseCaptureKeysHidden | lib/fluent/plugin/parser_kubernetes.rb:97-134 | The raw captures month, day, log_level, greedy_msg and kv never appear as record keys, unless the tail itself supplies them. |
| KubernetesParser.ParseMessageVerbatim | lib/fluent/plugin/parser_kubernetes.rb:58-99 | The message part ends the line verbatim. A greedy message scans nothing, and a quoted message with a tail scans exactly that tail. |
| ParserExamples.KubeletWithoutQuoting | test/plugin/test_parser_kubernetes.rb:19-33 | The unquoted kubelet line gives the info-level record with the message verbatim, for every message not starting with a quote. |
| ParserExamples.KubeletWithoutQuotingWarn | test/plugin/test_parser_kubernetes.rb:34-48 | The `W` line gives level warn and thread id 462622. |
| ParserExamples.KubeletQuotedMsg | test/plugin/test_parser_kubernetes.rb:50-64 | A quoted message that ends the line is the text between the quotes, and no pairs are added. |
| ParserExamples.KubeletWithContext | test/plugin/test_parser_kubernetes.rb:66-82 | The tail pairs podUID, a plain value kept verbatim, and path, a quoted value that is unescaped, join the six header fields. |
| ParserExamples.KubeletWithArray | test/plugin/test_parser_kubernetes.rb:84-100 | The bracketed nodeCondition becomes the list of its items, next to the quoted pod. |
| ParserExamples.ContainerdKvLogs | test/plugin/test_parser_kubernetes.rb:102-115 | A containerd line without a klog header yields time, level, msg and type, with `\"` unescaped in msg. |
| ParserExamples.NoHeader | lib/fluent/plugin/parser_kubernetes.rb:53-54 | A line whose first character is not an upper-case letter has no klog header. |
| ParserExamples.TopologyMessageFits | test/plugin/test_parser_kubernetes.rb:52 | The quoted message of the quoted-message test line is a valid quoted body. |
| ParserExamples.AdmitMessageFits | test/plugin/test_parser_kubernetes.rb:86 | The quoted message of the array test line is a valid quoted body. |
| ParserExamples.TestValuesFit | test/plugin/test_parser_kubernetes.rb:84-115 | The list item and the bare values of the test lines meet the lemmas' requirements. |

## Left out

- `parse_time` (parser_kubernetes.rb:149) is not part of this model. It turns the `time` field into the event time, and with `keep_time_key` false it removes that field from the record. The model stops at the assembled record, so its records still hold `time`, which the test records no longer show. For the same reason `time_format`, `time_key` and `keep_time_key` are carried in the configuration but not used.
- `Time.now.year` is read from the clock in the source. Here it is the `currentYear` parameter.
- `yield`, plugin registration and the parsing of `config_param` values are left out. `Parse` returns the record as an option instead of yielding it.
- KubernetesParser.Parse: any text containing a line feed, a single trailing one included, is not modelled as Ruby reads it. In Ruby, `^`, `$` and `.` work per line: `(?<greedy_msg>.*)$` and `(?<kv>.*)` stop before the first line feed, and a header could match at the start of a later line. The model matches the header from the start of the whole text, and `ParseBody` keeps everything after `] `, line feeds included, in `msg` or in the key/value tail. The key/value scan itself, whose pattern has no anchors, is modelled for every text.
- Text is modelled as a sequence of Unicode characters, with no encoding. A Ruby string carries an encoding, and `match` and `scan` raise `ArgumentError` (invalid byte sequence) on a UTF-8 string holding invalid bytes; that error path of `parse` (parser_kubernetes.rb:93 and :138) is not modelled.
- RubyString.Strip: follows the `strip` of Ruby 2.6 and later, which removes NUL as well as whitespace from both ends; older Rubies strip a leading NUL differently.
- Hash insertion order is not modelled: a record is a map, so only the keys and their values are stated.
- The cost of regex backtracking is not modelled. Only the match that Ruby's engine returns is modelled.
- KlogHeader.MatchHeaderComplete: stated only for a single space after `]`. With a tab or other whitespace there, the greedy `[^ ]*` file name may extend beyond it, so the header is not always read back as the one written.
- ParserExamples: each example keeps the test line's header and takes the free text as a parameter (the message, and the values in the tail). The test's own text is one instance. The `time` field is included in the expected records because `parse_time` is left out.
