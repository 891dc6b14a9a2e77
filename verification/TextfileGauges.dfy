/** The gauges of a printed file: a reader of archive samples gets back all three maps, and the duration is spelled exactly. */
module TextfileGauges {
  import opened Basics
  import opened Decimal
  import opened TextScan
  import opened Textfile
  import opened TextfileTheorems
  import opened TextfileRuns
  import opened TextfilePanics
  import opened TextfileCuts

  // A reader of one gauge.

  /** The label and value of a sample of the gauge: two words, `name{archive="label"}` and an integer. */
  function GaugeSample(line: string, name: string): Option<(string, int)> {
    var fields := Fields(line);
    if |fields| != 2 || ParseInt(fields[1]).None? then None
    else
      var key, open := fields[0], name + "{archive=\"";
      if open <= key && |open| + 2 <= |key| && HasSuffix(key, "\"}") then Some((key[|open|..|key| - 2], ParseInt(fields[1]).value))
      else None
  }

  function ReadGauge(lines: seq<string>, name: string): Counts {
    if lines == [] then map[]
    else
      var last := GaugeSample(lines[|lines| - 1], name);
      var m := ReadGauge(lines[..|lines| - 1], name);
      if last.None? then m else m[last.value.0 := last.value.1]
  }

  /** How many lines are samples of the gauge. */
  function CountGauge(lines: seq<string>, name: string): nat {
    if lines == [] then 0
    else CountGauge(lines[..|lines| - 1], name) + if GaugeSample(lines[|lines| - 1], name).None? then 0 else 1
  }

  /** What the reader finds in the lines: these samples, one line each. */
  ghost predicate Holds(lines: seq<string>, name: string, m: Counts) { ReadGauge(lines, name) == m && CountGauge(lines, name) == |m| }

  lemma {:induction false} ReadAppend(a: seq<string>, b: seq<string>, name: string)
    ensures ReadGauge(a + b, name) == ReadGauge(a, name) + ReadGauge(b, name)
    ensures CountGauge(a + b, name) == CountGauge(a, name) + CountGauge(b, name)
  {
    if b == [] {
      assert a + b == a;
    } else {
      var init, last := b[..|b| - 1], b[|b| - 1];
      ReadAppend(a, init, name);
      assert b == init + [last] && a + b == a + init + [last];
      AppendOne(a, init, last, b, a + b, name);
    }
  }

  lemma AppendOne(a: seq<string>, init: seq<string>, last: string, b: seq<string>, ab: seq<string>, name: string)
    requires b == init + [last] && ab == a + init + [last]
    requires ReadGauge(a + init, name) == ReadGauge(a, name) + ReadGauge(init, name)
    requires CountGauge(a + init, name) == CountGauge(a, name) + CountGauge(init, name)
    ensures ReadGauge(ab, name) == ReadGauge(a, name) + ReadGauge(b, name)
    ensures CountGauge(ab, name) == CountGauge(a, name) + CountGauge(b, name)
  {
    ReadNext(init, last, name);
    ReadNext(a + init, last, name);
    Associate(ReadGauge(a, name), ReadGauge(init, name), FoundIn(last, name));
  }

  lemma Associate(x: Counts, y: Counts, z: Counts)
    ensures x + y + z == x + (y + z)
  {
  }

  lemma ReadNext(init: seq<string>, last: string, name: string)
    ensures ReadGauge(init + [last], name) == ReadGauge(init, name) + FoundIn(last, name)
    ensures CountGauge(init + [last], name) == CountGauge(init, name) + |FoundIn(last, name)|
  {
    assert (init + [last])[..|init + [last]| - 1] == init;
  }

  /** The sample in one line, if there is one. */
  function FoundIn(line: string, name: string): Counts {
    var found := GaugeSample(line, name);
    if found.None? then map[] else map[found.value.0 := found.value.1]
  }

  ghost predicate Silent(lines: seq<string>, name: string) { forall i :: 0 <= i < |lines| ==> GaugeSample(lines[i], name).None? }

  lemma {:induction false} SilentHoldsNothing(lines: seq<string>, name: string)
    requires Silent(lines, name)
    ensures Holds(lines, name, map[])
  {
    if lines != [] { SilentHoldsNothing(lines[..|lines| - 1], name); }
  }

  lemma SilentAround(a: seq<string>, b: seq<string>, c: seq<string>, name: string, m: Counts)
    requires Silent(a, name) && Holds(b, name, m) && Silent(c, name)
    ensures Holds(a + (b + c), name, m)
  {
    SilentHoldsNothing(a, name);
    SilentHoldsNothing(c, name);
    ReadAppend(a, b + c, name);
    ReadAppend(b, c, name);
  }

  lemma SilentAppend(a: seq<string>, b: seq<string>, name: string)
    requires Silent(a, name) && Silent(b, name)
    ensures Silent(a + b, name)
  {
  }

  // Which lines are samples.

  /** A sample starts with the gauge's name and the opened label. */
  lemma SampleStarts(line: string, name: string)
    requires line != [] && !IsSpace(line[0]) && GaugeSample(line, name).Some?
    ensures name + ARCHIVE_PREFIX <= line
  {
    FirstWord(line);
    assert Fields(line)[0] <= line;
    PrefixOfPrefix(name + ARCHIVE_PREFIX, Fields(line)[0], line);
  }

  lemma PrefixOfPrefix(a: string, b: string, c: string)
    requires a <= b && b <= c
    ensures a <= c
  {
  }

  lemma CommentSilent(line: string, name: string)
    requires Comment(line) && MetricName(name)
    ensures GaugeSample(line, name).None?
  {
    if GaugeSample(line, name).Some? { SampleStarts(line, name); }
  }

  lemma HeaderSilent(n: string, kind: string, help: Wording, name: string)
    requires MetricName(name)
    ensures Silent(Header(n, kind, help), name)
  {
    var lines := Header(n, kind, help);
    forall i | 0 <= i < |lines| ensures GaugeSample(lines[i], name).None? { CommentSilent(lines[i], name); }
  }

  lemma BracelessSilent(line: string, name: string)
    requires line != [] && !IsSpace(line[0]) && '{' !in line
    ensures GaugeSample(line, name).None?
  {
    if GaugeSample(line, name).Some? {
      SampleStarts(line, name);
      BraceIn(line, name);
    }
  }

  lemma BraceIn(line: string, name: string)
    requires name + ARCHIVE_PREFIX <= line
    ensures '{' in line
  {
    assert line[|name|] == (name + ARCHIVE_PREFIX)[|name|] == '{';
  }

  /** A sample line of another name or another label key is not one of this gauge. */
  lemma OtherSilent(other: string, open: string, tag: string, v: int, name: string)
    requires MetricName(name) && MetricName(other) && Opener(open) && (other != name || open == SOURCE_PREFIX)
    ensures GaugeSample(SampleLine(other, open, tag, v), name).None?
  {
    LineShape(other, open, tag, v);
    OtherStart(other, open, Escaped(tag) + ("\"} " + Int(v)), SampleLine(other, open, tag, v), name);
  }

  lemma OtherStart(other: string, open: string, rest: string, line: string, name: string)
    requires MetricName(name) && MetricName(other) && Opener(open) && (other != name || open == SOURCE_PREFIX) && line == other + (open + rest)
    ensures GaugeSample(line, name).None?
  {
    assert other[0] in other && line[0] == other[0];
    if GaugeSample(line, name).Some? {
      SampleStarts(line, name);
      SamePlace(other, open + rest, name, line);
      OpensAlike(open, rest, line, name);
    }
  }

  lemma SamePlace(other: string, rest: string, name: string, line: string)
    requires MetricName(name) && MetricName(other) && rest != [] && rest[0] == '{' && line == other + rest && name + ARCHIVE_PREFIX <= line
    ensures name == other && line[|name|..] == rest
  {
    FirstBrace(other, rest);
    assert line == name + line[|name|..];
    assert line[|name|] == (name + ARCHIVE_PREFIX)[|name|];
    FirstBrace(name, line[|name|..]);
    assert line[..|name|] == name && line[..|other|] == other;
  }

  lemma OpensAlike(open: string, rest: string, line: string, name: string)
    requires Opener(open) && name + ARCHIVE_PREFIX <= line && line[|name|..] == open + rest
    ensures open == ARCHIVE_PREFIX
  {
    var n := |name|;
    assert line[n + 1] == (name + ARCHIVE_PREFIX)[n + 1] == 'a';
    assert line[n + 1] == line[n..][1] == open[1];
  }

  lemma {:induction false} OthersSilent(other: string, open: string, samples: Counts, keys: seq<string>, name: string)
    requires MetricName(name) && MetricName(other) && Opener(open) && (other != name || open == SOURCE_PREFIX)
    ensures Silent(SampleLines(other, open, samples, keys), name)
  {
    if keys != [] {
      OtherSilent(other, open, keys[0], Get(samples, keys[0]), name);
      OthersSilent(other, open, samples, keys[1..], name);
    }
  }

  lemma BlockSilent(other: string, kind: string, help: Wording, open: string, samples: Counts, name: string)
    requires MetricName(name) && MetricName(other) && Opener(open) && (other != name || open == SOURCE_PREFIX)
    ensures Silent(Block(other, kind, help, open, samples), name)
  {
    HeaderSilent(other, kind, help, name);
    OthersSilent(other, open, samples, SortedKeys(samples.Keys), name);
    SilentAppend(Header(other, kind, help), SampleLines(other, open, samples, SortedKeys(samples.Keys)), name);
  }

  // Its own samples.

  lemma OwnSample(name: string, tag: string, v: int)
    requires MetricName(name) && Plain(tag) && InInt64(v)
    ensures GaugeSample(SampleLine(name, ARCHIVE_PREFIX, tag, v), name) == Some((tag, v))
  {
    assert ' ' !in tag;
    LineFields(name, ARCHIVE_PREFIX, tag, v);
    ParseOfInt(v);
    EscapedText(tag);
    LabelRead(SampleLine(name, ARCHIVE_PREFIX, tag, v), name, tag, SampleKey(name, ARCHIVE_PREFIX, tag), Int(v), v);
  }

  lemma LabelRead(line: string, name: string, tag: string, key: string, word: string, v: int)
    requires Fields(line) == [key, word] && ParseInt(word) == Some(v) && key == name + (ARCHIVE_PREFIX + tag + LABEL_END)
    ensures GaugeSample(line, name) == Some((tag, v))
  {
    LabelInside(name, tag, key, name + ARCHIVE_PREFIX);
  }

  lemma LabelInside(name: string, tag: string, key: string, open: string)
    requires key == name + (ARCHIVE_PREFIX + tag + LABEL_END) && open == name + ARCHIVE_PREFIX
    ensures open <= key && |open| + 2 <= |key| && HasSuffix(key, LABEL_END) && key[|open|..|key| - 2] == tag
  {
    assert key == open + tag + LABEL_END;
  }

  /** The part of the samples under the keys. */
  function Under(samples: Counts, keys: seq<string>): Counts { map k | k in keys :: Get(samples, k) }

  lemma {:induction false} OwnSamples(name: string, samples: Counts, keys: seq<string>)
    requires MetricName(name) && forall i :: 0 <= i < |keys| ==> Plain(keys[i]) && InInt64(Get(samples, keys[i]))
    ensures ReadGauge(SampleLines(name, ARCHIVE_PREFIX, samples, keys), name) == Under(samples, keys)
    ensures CountGauge(SampleLines(name, ARCHIVE_PREFIX, samples, keys), name) == |keys|
  {
    if keys != [] {
      var k, rest := keys[0], keys[1..];
      OwnSamples(name, samples, rest);
      OwnSample(name, k, Get(samples, k));
      var line := SampleLine(name, ARCHIVE_PREFIX, k, Get(samples, k));
      OneRead(line, name, k, Get(samples, k));
      ReadAppend([line], SampleLines(name, ARCHIVE_PREFIX, samples, rest), name);
      UnderFirst(samples, keys, k, rest);
    }
  }

  lemma UnderFirst(samples: Counts, keys: seq<string>, k: string, rest: seq<string>)
    requires keys == [k] + rest
    ensures map[k := Get(samples, k)] + Under(samples, rest) == Under(samples, keys)
  {
  }

  lemma OneRead(line: string, name: string, k: string, v: int)
    requires GaugeSample(line, name) == Some((k, v))
    ensures ReadGauge([line], name) == map[k := v] && CountGauge([line], name) == 1
  {
    assert [line][..0] == [];
    assert ReadGauge([], name) == map[];
  }

  lemma AllUnder(samples: Counts, keys: seq<string>)
    requires keys == SortedKeys(samples.Keys) && Sound(samples)
    ensures Under(samples, keys) == samples && |keys| == |samples|
    ensures forall i :: 0 <= i < |keys| ==> Plain(keys[i]) && InInt64(Get(samples, keys[i]))
  {
    SortedKeysMembers(samples.Keys);
    KeyCount(samples.Keys);
    forall i | 0 <= i < |keys| ensures Plain(keys[i]) && InInt64(Get(samples, keys[i])) { assert keys[i] in keys; }
    assert |samples.Keys| == |samples|;
  }

  lemma BlockReads(name: string, help: Wording, samples: Counts)
    requires MetricName(name) && Sound(samples)
    ensures Holds(Block(name, "gauge", help, ARCHIVE_PREFIX, samples), name, samples)
  {
    var keys := SortedKeys(samples.Keys);
    AllUnder(samples, keys);
    OwnSamples(name, samples, keys);
    HeaderSilent(name, "gauge", help, name);
    SilentHoldsNothing(Header(name, "gauge", help), name);
    ReadAppend(Header(name, "gauge", help), SampleLines(name, ARCHIVE_PREFIX, samples, keys), name);
  }

  // The whole file.

  lemma CounterSilent(other: string, help: Wording, samples: Counts, name: string)
    requires MetricName(name) && MetricName(other)
    ensures Silent(CounterBlock(other, help, samples), name)
  {
    BlockSilent(other, "counter", help, SOURCE_PREFIX, samples, name);
  }

  lemma NumberSilent(other: string, word: string, name: string)
    requires MetricName(other) && word != [] && NoSpace(word) && Printable(word) && '{' !in word
    ensures Silent([other + " " + word], name)
  {
    assert other[0] in other;
    BracelessSilent(other + " " + word, name);
  }

  lemma LastSuccessSilent(t: Option<int>, help: string -> Wording, name: string)
    requires MetricName(name)
    ensures Silent(LastSuccessLines(t, help), name)
  {
    var v := if t.Some? then t.value else 0;
    LastSuccessName();
    HeaderSilent(METRIC_LAST_SUCCESS, "gauge", help(METRIC_LAST_SUCCESS), name);
    IntText(v);
    DigitsUnbraced(if v < 0 then -v else v);
    NumberSilent(METRIC_LAST_SUCCESS, Int(v), name);
    SilentAppend(Header(METRIC_LAST_SUCCESS, "gauge", help(METRIC_LAST_SUCCESS)), [METRIC_LAST_SUCCESS + " " + Int(v)], name);
  }

  lemma DurationSilent(ms: nat, help: string -> Wording, name: string)
    requires MetricName(name)
    ensures Silent(DurationLines(ms, help), name)
  {
    if ms != 0 {
      DurationName();
      HeaderSilent(METRIC_DURATION, "gauge", help(METRIC_DURATION), name);
      SecondsText(ms);
      SecondsUnbraced(ms);
      NumberSilent(METRIC_DURATION, Seconds(ms), name);
      SilentAppend(Header(METRIC_DURATION, "gauge", help(METRIC_DURATION)), [METRIC_DURATION + " " + Seconds(ms)], name);
    }
  }

  /** Everything behind the gauges. */
  ghost function Tail(s: Snapshot, help: string -> Wording): seq<string> {
    LastSuccessLines(s.lastSuccess, help) + (DurationLines(s.durationMs, help) + Counters(s, help))
  }

  lemma TailSilent(s: Snapshot, help: string -> Wording, name: string)
    requires MetricName(name)
    ensures Silent(Tail(s, help), name)
  {
    CounterNames();
    LastSuccessSilent(s.lastSuccess, help, name);
    DurationSilent(s.durationMs, help, name);
    CounterSilent(METRIC_ATTEMPTS, help(METRIC_ATTEMPTS), s.attempts, name);
    CounterSilent(METRIC_FAILURES, help(METRIC_FAILURES), s.failures, name);
    SilentAppend(CounterBlock(METRIC_ATTEMPTS, help(METRIC_ATTEMPTS), s.attempts), CounterBlock(METRIC_FAILURES, help(METRIC_FAILURES), s.failures), name);
    SilentAppend(DurationLines(s.durationMs, help), Counters(s, help), name);
    SilentAppend(LastSuccessLines(s.lastSuccess, help), DurationLines(s.durationMs, help) + Counters(s, help), name);
  }

  lemma GaugeNames()
    ensures MetricName(METRIC_FILES_MISSING) && MetricName(METRIC_EXPECTED) && MetricName(METRIC_FOUND)
    ensures METRIC_FILES_MISSING != METRIC_EXPECTED && METRIC_EXPECTED != METRIC_FOUND && METRIC_FILES_MISSING != METRIC_FOUND
  {
    MissingName();
    ExpectedName();
    FoundName();
    assert METRIC_FILES_MISSING[8] == 'f' && METRIC_EXPECTED[8] == 'c' && METRIC_FOUND[8] == 'c';
    assert METRIC_EXPECTED[20] == 'e' && METRIC_FOUND[20] == 'f';
  }

  lemma SpelledOut()
    ensures METRIC_FILES_MISSING == "archive_files_missing" && METRIC_EXPECTED == "archive_checkpoints_expected" && METRIC_FOUND == "archive_checkpoints_found"
  {
    MissingSpelled();
    ExpectedSpelled();
  }

  lemma MissingSpelled()
    ensures METRIC_FILES_MISSING == "archive_files_missing"
  {
  }

  lemma ExpectedSpelled()
    ensures METRIC_EXPECTED == "archive_checkpoints_expected"
  {
  }

  /** The three gauge blocks and the rest. */
  lemma ThreeBlocks(a: seq<string>, b: seq<string>, c: seq<string>, d: seq<string>, name: string, m: Counts)
    requires Silent(d, name)
    ensures Holds(a, name, m) && Silent(b, name) && Silent(c, name) ==> Holds(a + b + c + d, name, m)
    ensures Silent(a, name) && Holds(b, name, m) && Silent(c, name) ==> Holds(a + b + c + d, name, m)
    ensures Silent(a, name) && Silent(b, name) && Holds(c, name, m) ==> Holds(a + b + c + d, name, m)
  {
    assert a + b + c + d == [] + (a + (b + (c + d))) == a + (b + (c + d)) == (a + b) + (c + d);
    if Silent(c, name) { SilentAppend(c, d, name); }
    if Holds(a, name, m) && Silent(b, name) && Silent(c, name) {
      SilentAppend(b, c + d, name);
      SilentAround([], a, b + (c + d), name, m);
    }
    if Silent(a, name) && Holds(b, name, m) && Silent(c, name) { SilentAround(a, b, c + d, name, m); }
    if Silent(a, name) && Silent(b, name) && Holds(c, name, m) {
      SilentAppend(a, b, name);
      SilentAround(a + b, c, d, name, m);
    }
  }

  lemma LinesHold(s: Snapshot, help: string -> Wording)
    requires Sound(s.filesMissing) && Sound(s.checksExpected) && Sound(s.checksFound)
    ensures Holds(TextLines(s, help), METRIC_FILES_MISSING, s.filesMissing)
    ensures Holds(TextLines(s, help), METRIC_EXPECTED, s.checksExpected)
    ensures Holds(TextLines(s, help), METRIC_FOUND, s.checksFound)
  {
    GaugeNames();
    HoldsAmong(s, help, METRIC_FILES_MISSING, s.filesMissing);
    HoldsAmong(s, help, METRIC_EXPECTED, s.checksExpected);
    HoldsAmong(s, help, METRIC_FOUND, s.checksFound);
  }

  lemma HoldsAmong(s: Snapshot, help: string -> Wording, name: string, m: Counts)
    requires || (name == METRIC_FILES_MISSING && m == s.filesMissing)
             || (name == METRIC_EXPECTED && m == s.checksExpected)
             || (name == METRIC_FOUND && m == s.checksFound)
    requires Sound(m)
    ensures Holds(TextLines(s, help), name, m)
  {
    GaugeNames();
    TailSilent(s, help, name);
    var a := Block(METRIC_FILES_MISSING, "gauge", help(METRIC_FILES_MISSING), ARCHIVE_PREFIX, s.filesMissing);
    var b := Block(METRIC_EXPECTED, "gauge", help(METRIC_EXPECTED), ARCHIVE_PREFIX, s.checksExpected);
    var c := Block(METRIC_FOUND, "gauge", help(METRIC_FOUND), ARCHIVE_PREFIX, s.checksFound);
    BlockReads(name, help(name), m);
    if name != METRIC_FILES_MISSING { BlockSilent(METRIC_FILES_MISSING, "gauge", help(METRIC_FILES_MISSING), ARCHIVE_PREFIX, s.filesMissing, name); }
    if name != METRIC_EXPECTED { BlockSilent(METRIC_EXPECTED, "gauge", help(METRIC_EXPECTED), ARCHIVE_PREFIX, s.checksExpected, name); }
    if name != METRIC_FOUND { BlockSilent(METRIC_FOUND, "gauge", help(METRIC_FOUND), ARCHIVE_PREFIX, s.checksFound, name); }
    ThreeBlocks(a, b, c, Tail(s, help), name, m);
  }

  lemma PrintedLines(s: Snapshot, help: string -> Wording)
    ensures Lines(WriteTextfile(s, help)) == TextLines(s, help)
  {
    TextHarmless(s, help);
    LinesOfJoin(TextLines(s, help));
  }

  /**
   For plain archive labels and int64 counts, the printed file holds under each of the three gauge
   names exactly one line per archive of that map, with that map's count.
   */
  lemma GaugesReadBack(s: Snapshot, help: string -> Wording)
    requires Sound(s.filesMissing) && Sound(s.checksExpected) && Sound(s.checksFound)
    ensures var lines := Lines(WriteTextfile(s, help));
            && Holds(lines, "archive_files_missing", s.filesMissing)
            && Holds(lines, "archive_checkpoints_expected", s.checksExpected)
            && Holds(lines, "archive_checkpoints_found", s.checksFound)
  {
    SpelledOut();
    PrintedLines(s, help);
    LinesHold(s, help);
  }

  // The duration.

  /** Digits, a point and three digits that spell a number of thousandths. */
  ghost predicate SpellsThousandths(text: string, n: nat) {
    exists whole, frac :: text == whole + "." + frac && whole != "" && |frac| == 3 && AllDigits(whole) && AllDigits(frac)
                          && n == 1000 * Value(whole) + Value(frac)
  }

  lemma ThreeDigits(a: nat, b: nat, c: nat)
    requires a < 10 && b < 10 && c < 10
    ensures var s := Digits(a) + Digits(b) + Digits(c); |s| == 3 && AllDigits(s) && Value(s) == 100 * a + 10 * b + c
  {
    var x, y, z := Digits(a), Digits(b), Digits(c);
    ValueOfDigits(a);
    NextDigit(x, b);
    NextDigit(x + y, c);
  }

  lemma NextDigit(s: string, d: nat)
    requires AllDigits(s) && d < 10
    ensures |Digits(d)| == 1 && AllDigits(s + Digits(d)) && Value(s + Digits(d)) == 10 * Value(s) + d
  {
    var t := s + Digits(d);
    assert t[..|t| - 1] == s && t[|t| - 1] == DigitChar(d);
  }

  lemma ByTens(n: nat)
    ensures n / 100 == n / 10 / 10 && n / 1000 == n / 100 / 10 && n == 10 * (n / 10) + n % 10
  {
  }

  lemma Thousandths(ms: nat)
    ensures ms == 1000 * (ms / 1000) + (100 * (ms / 100 % 10) + 10 * (ms / 10 % 10) + ms % 10)
  {
    ByTens(ms);
    ByTens(ms / 10);
    ByTens(ms / 100);
  }

  /** The duration is printed exactly, to the millisecond. */
  lemma SecondsExactly(ms: nat)
    ensures SpellsThousandths(Seconds(ms), ms)
  {
    var whole, frac := Digits(ms / 1000), Digits(ms / 100 % 10) + Digits(ms / 10 % 10) + Digits(ms % 10);
    ThreeDigits(ms / 100 % 10, ms / 10 % 10, ms % 10);
    ValueOfDigits(ms / 1000);
    Thousandths(ms);
    assert Seconds(ms) == whole + "." + frac;
  }

  lemma InTail(s: Snapshot, help: string -> Wording, line: string)
    ensures line in DurationLines(s.durationMs, help) || line in LastSuccessLines(s.lastSuccess, help) || line in Counters(s, help) || line in Gauges(s, help)
       <==> line in TextLines(s, help)
  {
    var c, d := DurationLines(s.durationMs, help), Counters(s, help);
    AmongFour(Gauges(s, help), LastSuccessLines(s.lastSuccess, help), c, d, line);
  }

  lemma AmongFour(a: seq<string>, b: seq<string>, c: seq<string>, d: seq<string>, line: string)
    ensures line in a + (b + (c + d)) <==> line in a || line in b || line in c || line in d
  {
  }

  /** A run that took time is printed with its exact duration. */
  lemma DurationPrinted(s: Snapshot, help: string -> Wording) returns (text: string)
    requires s.durationMs > 0
    ensures SpellsThousandths(text, s.durationMs) && METRIC_DURATION + " " + text in Lines(WriteTextfile(s, help))
  {
    text := Seconds(s.durationMs);
    SecondsExactly(s.durationMs);
    PrintedLines(s, help);
    var lines := DurationLines(s.durationMs, help);
    assert lines[2] == METRIC_DURATION + " " + text;
    InTail(s, help, METRIC_DURATION + " " + text);
  }

  ghost predicate Declares(lines: seq<string>, name: string, kind: string, help: string -> Wording) {
    "# TYPE " + name + " " + kind in lines && "# HELP " + name + " " + help(name) in lines
  }

  lemma HeaderDeclares(name: string, kind: string, help: string -> Wording)
    ensures Declares(Header(name, kind, help(name)), name, kind, help)
  {
    var lines := Header(name, kind, help(name));
    assert lines[0] == "# HELP " + name + " " + help(name) && lines[1] == "# TYPE " + name + " " + kind;
  }

  lemma CounterDeclares(name: string, help: string -> Wording, samples: Counts)
    requires samples != map[]
    ensures Declares(CounterBlock(name, help(name), samples), name, "counter", help)
  {
    HeaderDeclares(name, "counter", help);
  }

  /** Every gauge is declared as one, samples or not, and every counter that has samples as a counter. */
  lemma TypesDeclared(s: Snapshot, help: string -> Wording)
    ensures var lines := Lines(WriteTextfile(s, help));
            && Declares(lines, METRIC_FILES_MISSING, "gauge", help) && Declares(lines, METRIC_EXPECTED, "gauge", help)
            && Declares(lines, METRIC_FOUND, "gauge", help) && Declares(lines, METRIC_LAST_SUCCESS, "gauge", help)
            && (s.attempts != map[] ==> Declares(lines, METRIC_ATTEMPTS, "counter", help))
            && (s.failures != map[] ==> Declares(lines, METRIC_FAILURES, "counter", help))
  {
    PrintedLines(s, help);
    HeaderDeclares(METRIC_FILES_MISSING, "gauge", help);
    HeaderDeclares(METRIC_EXPECTED, "gauge", help);
    HeaderDeclares(METRIC_FOUND, "gauge", help);
    HeaderDeclares(METRIC_LAST_SUCCESS, "gauge", help);
    if s.attempts != map[] { CounterDeclares(METRIC_ATTEMPTS, help, s.attempts); }
    if s.failures != map[] { CounterDeclares(METRIC_FAILURES, help, s.failures); }
    forall line ensures line in DurationLines(s.durationMs, help) || line in LastSuccessLines(s.lastSuccess, help) || line in Counters(s, help) || line in Gauges(s, help)
                   <==> line in TextLines(s, help)
    {
      InTail(s, help, line);
    }
  }
}
