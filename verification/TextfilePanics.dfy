/** When reading the previous file panics, and that a printed file never makes it. */
module TextfilePanics {
  import opened Basics
  import opened Decimal
  import opened TextScan
  import opened Textfile
  import opened TextfileTheorems
  import opened TextfileRuns

  /** Two words, the second an integer, and the labels exactly `{source="}`. */
  predicate BadSample(text: string) {
    var fields := Fields(text);
    |fields| == 2 && ParseInt(fields[1]).Some? && fields[0][IndexOf(fields[0], '{')..] == "{source=\"}"
  }

  /** A line that is neither blank nor a comment and holds such a sample. */
  predicate Fatal(line: string) {
    var text := TrimSpace(line);
    text != "" && text[0] != '#' && BadSample(text)
  }

  lemma AbsorbPanics(p: Prior, line: string)
    ensures Absorb(p, line).None? <==> Fatal(line)
  {
    PanicExactly(TrimSpace(line));
  }

  lemma {:induction false} AbsorbAllPanics(p: Prior, lines: seq<string>)
    ensures AbsorbAll(p, lines).None? <==> exists i :: 0 <= i < |lines| && Fatal(lines[i])
    decreases |lines|
  {
    if lines != [] {
      AbsorbPanics(p, lines[0]);
      if Absorb(p, lines[0]).Some? {
        var rest := lines[1..];
        AbsorbAllPanics(Absorb(p, lines[0]).value, rest);
        if i :| 0 <= i < |lines| && Fatal(lines[i]) { assert Fatal(rest[i - 1]); }
        if i :| 0 <= i < |rest| && Fatal(rest[i]) { assert Fatal(lines[i + 1]); }
      }
    }
  }

  /** The lines the reader gets to see. */
  function Seen(content: string): seq<string> { Scanned(Lines(Head(content))) }

  /** Reading the previous file panics exactly when the file is there and one of the lines it scans is fatal. */
  lemma ReadPanicsExactly(content: Option<string>)
    ensures ReadPrior(content).None? <==> content.Some? && exists i :: 0 <= i < |Seen(content.value)| && Fatal(Seen(content.value)[i])
  {
    if content.Some? { AbsorbAllPanics(NO_PRIOR, Seen(content.value)); }
  }

  /** For instance this one-line file. */
  lemma PanicWitness()
    ensures ReadPrior(Some("x{source=\"} 1\n")).None?
  {
    var key, line := "x{source=\"}", "x{source=\"} 1";
    assert Join([line]) == line + "\n" + "" by { assert [line][1..] == []; }
    assert Printable(line);
    LinesOfJoin([line]);
    ScannedAll([line]);
    assert line + "\n" + "" == "x{source=\"} 1\n";
    BadKey(key, line);
    assert Seen("x{source=\"} 1\n") == [line] && Fatal([line][0]);
    ReadPanicsExactly(Some("x{source=\"} 1\n"));
  }

  lemma BadKey(key: string, line: string)
    requires key == "x{source=\"}" && line == "x{source=\"} 1"
    ensures Fatal(line)
  {
    assert line == key + " " + "1";
    Untrimmed(line);
    OneField(key);
    LastField(key, "1");
    FirstBrace("x", "{source=\"}");
    assert key == "x" + "{source=\"}" && key[1..] == "{source=\"}";
    assert AllDigits("1");
  }

  // A printed file is harmless, whatever its labels.

  ghost predicate Harmless(lines: seq<string>) { forall i :: 0 <= i < |lines| ==> !Fatal(lines[i]) && Printable(lines[i]) }

  lemma HarmlessAppend(s: seq<string>, t: seq<string>)
    requires Harmless(s) && Harmless(t)
    ensures Harmless(s + t)
  {
  }

  lemma NotFatal(line: string)
    requires Absorb(NO_PRIOR, line).Some?
    ensures !Fatal(line)
  {
    AbsorbPanics(NO_PRIOR, line);
  }

  lemma InertHarmless(lines: seq<string>)
    requires Inert(lines) && AllPrintable(lines)
    ensures Harmless(lines)
  {
    forall i | 0 <= i < |lines| ensures !Fatal(lines[i]) {
      assert Absorb(NO_PRIOR, lines[i]) == Some(NO_PRIOR);
      NotFatal(lines[i]);
    }
  }

  lemma SampleHarmless(name: string, tag: string, v: int)
    requires MetricName(name)
    ensures Harmless([SampleLine(name, SOURCE_PREFIX, tag, v)])
  {
    var key := SampleKey(name, SOURCE_PREFIX, tag);
    SampleUntrimmed(name, SOURCE_PREFIX, tag, v);
    LineFields(name, SOURCE_PREFIX, tag, v);
    KeySplits(name, SOURCE_PREFIX, tag);
    assert |key[|name|..]| >= 11;
  }

  lemma {:induction false} SamplesHarmless(name: string, samples: Counts, keys: seq<string>)
    requires MetricName(name)
    ensures Harmless(SampleLines(name, SOURCE_PREFIX, samples, keys))
  {
    if keys != [] {
      SamplesHarmless(name, samples, keys[1..]);
      SampleHarmless(name, keys[0], Get(samples, keys[0]));
      HarmlessAppend([SampleLine(name, SOURCE_PREFIX, keys[0], Get(samples, keys[0]))], SampleLines(name, SOURCE_PREFIX, samples, keys[1..]));
    }
  }

  lemma CounterHarmless(name: string, help: Wording, samples: Counts)
    requires MetricName(name)
    ensures Harmless(CounterBlock(name, help, samples))
  {
    HeaderText(name, "counter", help);
    InertHarmless(Header(name, "counter", help));
    SamplesHarmless(name, samples, SortedKeys(samples.Keys));
    HarmlessAppend(Header(name, "counter", help), SampleLines(name, SOURCE_PREFIX, samples, SortedKeys(samples.Keys)));
  }

  lemma LastSuccessHarmless(t: Option<int>, help: string -> Wording)
    ensures Harmless(LastSuccessLines(t, help))
  {
    var v := if t.Some? then t.value else 0;
    LastSuccessName();
    HeaderText(METRIC_LAST_SUCCESS, "gauge", help(METRIC_LAST_SUCCESS));
    InertHarmless(Header(METRIC_LAST_SUCCESS, "gauge", help(METRIC_LAST_SUCCESS)));
    NumberHarmless(METRIC_LAST_SUCCESS, v);
    HarmlessAppend(Header(METRIC_LAST_SUCCESS, "gauge", help(METRIC_LAST_SUCCESS)), [METRIC_LAST_SUCCESS + " " + Int(v)]);
  }

  lemma NumberHarmless(name: string, v: int)
    requires MetricName(name)
    ensures Harmless([name + " " + Int(v)])
  {
    IntText(v);
    PlainLine(name, Int(v));
    NoBrace(name);
  }

  lemma TextHarmless(s: Snapshot, help: string -> Wording)
    ensures Harmless(TextLines(s, help))
  {
    var a, b, c := Gauges(s, help), LastSuccessLines(s.lastSuccess, help), DurationLines(s.durationMs, help);
    var d, e := CounterBlock(METRIC_ATTEMPTS, help(METRIC_ATTEMPTS), s.attempts), CounterBlock(METRIC_FAILURES, help(METRIC_FAILURES), s.failures);
    GaugesInert(s, help);
    InertHarmless(a);
    LastSuccessHarmless(s.lastSuccess, help);
    DurationInert(s.durationMs, help);
    InertHarmless(c);
    CounterNames();
    CounterHarmless(METRIC_ATTEMPTS, help(METRIC_ATTEMPTS), s.attempts);
    CounterHarmless(METRIC_FAILURES, help(METRIC_FAILURES), s.failures);
    HarmlessAppend(d, e);
    HarmlessAppend(c, d + e);
    HarmlessAppend(b, c + (d + e));
    HarmlessAppend(a, b + (c + (d + e)));
  }

  lemma {:induction false} ScannedFrom(lines: seq<string>)
    requires Harmless(lines)
    ensures Harmless(Scanned(lines))
  {
    if lines != [] && |lines[0]| <= MAX_SCAN_LINE {
      forall i | 0 <= i < |lines[1..]| ensures !Fatal(lines[1..][i]) && Printable(lines[1..][i]) { assert lines[1..][i] == lines[i + 1]; }
      NoReturn(lines[0]);
      ScannedFrom(lines[1..]);
      HarmlessAppend([lines[0]], Scanned(lines[1..]));
    }
  }

  /** A file printed from any snapshot, whatever its labels and counts, is read back without a panic if it is within the read cap. */
  lemma PrintedNeverPanics(s: Snapshot, help: string -> Wording)
    requires |WriteTextfile(s, help)| <= MAX_PRIOR_TEXTFILE_BYTES
    ensures ReadPrior(Some(WriteTextfile(s, help))).Some?
  {
    TextHarmless(s, help);
    LinesOfJoin(TextLines(s, help));
    ScannedFrom(TextLines(s, help));
    ReadPanicsExactly(Some(WriteTextfile(s, help)));
  }
}
