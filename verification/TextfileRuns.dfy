/** The whole file read back, and the counters over any sequence of runs. */
module TextfileRuns {
  import opened Basics
  import opened Decimal
  import opened TextScan
  import opened Textfile
  import opened TextfileTheorems

  // Lines the reader passes over.

  lemma {:induction false} TrimRightKeepsHead(s: string)
    requires s != [] && !IsSpace(s[0])
    ensures TrimRight(s) != [] && TrimRight(s)[0] == s[0]
    decreases |s|
  {
    if IsSpace(s[|s| - 1]) {
      TrimRightKeepsHead(s[..|s| - 1]);
    }
  }

  predicate Comment(line: string) { line != "" && line[0] == '#' }

  lemma CommentIgnored(p: Prior, line: string)
    requires Comment(line)
    ensures Absorb(p, line) == Some(p)
  {
    TrimRightKeepsHead(line);
  }

  lemma Untrimmed(line: string)
    requires line != [] && !IsSpace(line[0]) && !IsSpace(line[|line| - 1])
    ensures TrimSpace(line) == line
  {
  }

  lemma SampleUntrimmed(name: string, open: string, tag: string, v: int)
    requires MetricName(name) && Opener(open)
    ensures var line := SampleLine(name, open, tag, v);
            TrimSpace(line) == line && line != "" && line[0] != '#' && Printable(line)
  {
    var line := SampleLine(name, open, tag, v);
    KeyText(name, open, tag);
    IntText(v);
    assert name[0] in name;
    TextAppend(SampleKey(name, open, tag), " ");
    TextAppend(SampleKey(name, open, tag) + " ", Int(v));
    assert line[|line| - 1] == Int(v)[|Int(v)| - 1];
    Untrimmed(line);
  }

  lemma {:induction false} AbsorbAppend(p: Prior, s: seq<string>, t: seq<string>)
    ensures AbsorbAll(p, s + t) == if AbsorbAll(p, s).None? then None else AbsorbAll(AbsorbAll(p, s).value, t)
    decreases |s|
  {
    if s == [] {
      assert s + t == t;
    } else {
      assert (s + t)[1..] == s[1..] + t;
      if Absorb(p, s[0]).Some? { AbsorbAppend(Absorb(p, s[0]).value, s[1..], t); }
    }
  }

  /** Lines that leave the state as it is. */
  ghost predicate Inert(lines: seq<string>) { forall p, i :: 0 <= i < |lines| ==> Absorb(p, lines[i]) == Some(p) }

  lemma {:induction false} InertIgnored(p: Prior, lines: seq<string>)
    requires Inert(lines)
    ensures AbsorbAll(p, lines) == Some(p)
    decreases |lines|
  {
    if lines != [] {
      forall q, i | 0 <= i < |lines[1..]| ensures Absorb(q, lines[1..][i]) == Some(q) {
        assert lines[1..][i] == lines[i + 1];
      }
      InertIgnored(p, lines[1..]);
    }
  }

  lemma InertFirst(p: Prior, lines: seq<string>, rest: seq<string>)
    requires Inert(lines)
    ensures AbsorbAll(p, lines + rest) == AbsorbAll(p, rest)
  {
    InertIgnored(p, lines);
    AbsorbAppend(p, lines, rest);
  }

  lemma InertAppend(s: seq<string>, t: seq<string>)
    requires Inert(s) && Inert(t)
    ensures Inert(s + t)
  {
    forall p, i | 0 <= i < |s + t| ensures Absorb(p, (s + t)[i]) == Some(p) {
      assert (s + t)[i] == if i < |s| then s[i] else t[i - |s|];
    }
  }

  ghost predicate AllPrintable(lines: seq<string>) { forall i :: 0 <= i < |lines| ==> Printable(lines[i]) }

  lemma Commented(a: string, b: string)
    requires Comment(a) && Comment(b) && Printable(a) && Printable(b)
    ensures Inert([a, b]) && AllPrintable([a, b])
  {
    forall p, i | 0 <= i < 2 ensures Absorb(p, [a, b][i]) == Some(p) { CommentIgnored(p, [a, b][i]); }
  }

  lemma HeaderText(name: string, kind: string, help: Wording)
    requires MetricName(name) && Printable(kind)
    ensures Inert(Header(name, kind, help)) && AllPrintable(Header(name, kind, help))
  {
    TextAppend("# HELP ", name);
    TextAppend("# HELP " + name, " ");
    TextAppend("# HELP " + name + " ", help);
    TextAppend("# TYPE ", name);
    TextAppend("# TYPE " + name, " ");
    TextAppend("# TYPE " + name + " ", kind);
    Commented("# HELP " + name + " " + help, "# TYPE " + name + " " + kind);
  }

  lemma {:induction false} GaugeLinesInert(name: string, samples: Counts, keys: seq<string>)
    requires MetricName(name)
    ensures Inert(SampleLines(name, ARCHIVE_PREFIX, samples, keys)) && AllPrintable(SampleLines(name, ARCHIVE_PREFIX, samples, keys))
  {
    if keys != [] {
      GaugeLinesInert(name, samples, keys[1..]);
      var line, rest := SampleLine(name, ARCHIVE_PREFIX, keys[0], Get(samples, keys[0])), SampleLines(name, ARCHIVE_PREFIX, samples, keys[1..]);
      GaugeSkipped(name, keys[0], Get(samples, keys[0]));
      SampleUntrimmed(name, ARCHIVE_PREFIX, keys[0], Get(samples, keys[0]));
      assert Inert([line]);
      InertAppend([line], rest);
    }
  }

  lemma GaugeBlockInert(name: string, help: Wording, samples: Counts)
    requires MetricName(name)
    ensures Inert(Block(name, "gauge", help, ARCHIVE_PREFIX, samples)) && AllPrintable(Block(name, "gauge", help, ARCHIVE_PREFIX, samples))
  {
    HeaderText(name, "gauge", help);
    GaugeLinesInert(name, samples, SortedKeys(samples.Keys));
    InertAppend(Header(name, "gauge", help), SampleLines(name, ARCHIVE_PREFIX, samples, SortedKeys(samples.Keys)));
  }

  lemma NameAppend(s: string, t: string)
    requires MetricName(s) && NoSpace(t) && Printable(t) && '{' !in t
    ensures MetricName(s + t)
  {
    TextAppend(s, t);
  }

  lemma ArchiveName()
    ensures MetricName(ARCHIVE)
  {
  }

  lemma MissingName()
    ensures MetricName(METRIC_FILES_MISSING)
  {
    ArchiveName();
    NameAppend(ARCHIVE, "files_missing");
  }

  lemma ExpectedName()
    ensures MetricName(METRIC_EXPECTED)
  {
    ArchiveName();
    NameAppend(ARCHIVE, "checkpoints_expected");
  }

  lemma FoundName()
    ensures MetricName(METRIC_FOUND)
  {
    ArchiveName();
    NameAppend(ARCHIVE, "checkpoints_found");
  }

  lemma NamespaceName()
    ensures MetricName(NAMESPACE)
  {
    ArchiveName();
    NameAppend(ARCHIVE, "completeness_");
  }

  lemma LastSuccessName()
    ensures MetricName(METRIC_LAST_SUCCESS)
  {
    NamespaceName();
    NameAppend(NAMESPACE, "last_success_timestamp");
  }

  lemma DurationName()
    ensures MetricName(METRIC_DURATION)
  {
    NamespaceName();
    NameAppend(NAMESPACE, "run_duration_seconds");
  }

  lemma AttemptsName()
    ensures MetricName(METRIC_ATTEMPTS)
  {
    NamespaceName();
    NameAppend(NAMESPACE, "repair_attempts_total");
  }

  lemma FailuresName()
    ensures MetricName(METRIC_FAILURES)
  {
    NamespaceName();
    NameAppend(NAMESPACE, "repair_failures_total");
  }

  lemma CounterNames()
    ensures MetricName(METRIC_ATTEMPTS) && MetricName(METRIC_FAILURES)
    ensures METRIC_ATTEMPTS != METRIC_FAILURES && METRIC_ATTEMPTS != METRIC_LAST_SUCCESS && METRIC_FAILURES != METRIC_LAST_SUCCESS
  {
    AttemptsName();
    FailuresName();
    assert METRIC_ATTEMPTS[28] == 'a' && METRIC_FAILURES[28] == 'f';
    assert METRIC_ATTEMPTS[21] == 'r' && METRIC_FAILURES[21] == 'r' && METRIC_LAST_SUCCESS[21] == 'l';
  }

  lemma GaugesInert(s: Snapshot, help: string -> Wording)
    ensures Inert(Gauges(s, help)) && AllPrintable(Gauges(s, help))
  {
    MissingName();
    ExpectedName();
    FoundName();
    GaugeBlockInert(METRIC_FILES_MISSING, help(METRIC_FILES_MISSING), s.filesMissing);
    GaugeBlockInert(METRIC_EXPECTED, help(METRIC_EXPECTED), s.checksExpected);
    GaugeBlockInert(METRIC_FOUND, help(METRIC_FOUND), s.checksFound);
    var a := Block(METRIC_FILES_MISSING, "gauge", help(METRIC_FILES_MISSING), ARCHIVE_PREFIX, s.filesMissing);
    var b := Block(METRIC_EXPECTED, "gauge", help(METRIC_EXPECTED), ARCHIVE_PREFIX, s.checksExpected);
    InertAppend(a, b);
    InertAppend(a + b, Block(METRIC_FOUND, "gauge", help(METRIC_FOUND), ARCHIVE_PREFIX, s.checksFound));
  }

  // A word and a number.

  lemma PlainLine(name: string, word: string)
    requires MetricName(name) && word != [] && NoSpace(word) && Printable(word)
    ensures var line := name + " " + word;
            TrimSpace(line) == line && line != "" && line[0] != '#' && Printable(line) && Fields(line) == [name, word]
  {
    var line := name + " " + word;
    assert name[0] in name && word[|word| - 1] in word;
    assert line[|line| - 1] == word[|word| - 1];
    Untrimmed(line);
    TextAppend(name, " ");
    TextAppend(name + " ", word);
    OneField(name);
    LastField(name, word);
  }

  lemma SecondsText(ms: nat)
    ensures NoSpace(Seconds(ms)) && Printable(Seconds(ms)) && Seconds(ms) != [] && ParseInt(Seconds(ms)).None?
  {
    var a, b, c, d := Digits(ms / 1000), Digits(ms / 100 % 10), Digits(ms / 10 % 10), Digits(ms % 10);
    DigitsText(ms / 1000);
    DigitsText(ms / 100 % 10);
    DigitsText(ms / 10 % 10);
    DigitsText(ms % 10);
    TextAppend(a, ".");
    TextAppend(a + ".", b);
    TextAppend(a + "." + b, c);
    TextAppend(a + "." + b + c, d);
    assert Seconds(ms)[0] == a[0] && Seconds(ms)[|a|] == '.';
  }

  lemma DurationInert(ms: nat, help: string -> Wording)
    ensures Inert(DurationLines(ms, help)) && AllPrintable(DurationLines(ms, help))
  {
    if ms != 0 {
      var line := METRIC_DURATION + " " + Seconds(ms);
      DurationName();
      SecondsText(ms);
      PlainLine(METRIC_DURATION, Seconds(ms));
      HeaderText(METRIC_DURATION, "gauge", help(METRIC_DURATION));
      assert Inert([line]);
      InertAppend(Header(METRIC_DURATION, "gauge", help(METRIC_DURATION)), [line]);
    }
  }

  function PositiveTime(t: Option<int>): Option<int> { if t.Some? && t.value > 0 then t else None }

  ghost predicate TimeFits(t: Option<int>) { t.Some? ==> InInt64(t.value) }

  lemma LastSuccessLine(p: Prior, v: int)
    requires InInt64(v)
    ensures var line := METRIC_LAST_SUCCESS + " " + Int(v);
            Printable(line) && Absorb(p, line) == Some(if v > 0 then p.(lastSuccess := Some(v)) else p)
  {
    LastSuccessName();
    IntText(v);
    ParseOfInt(v);
    PlainLine(METRIC_LAST_SUCCESS, Int(v));
    NoBrace(METRIC_LAST_SUCCESS);
  }

  lemma HeaderThenLine(p: Prior, header: seq<string>, line: string)
    requires Inert(header) && AllPrintable(header) && Printable(line)
    ensures AbsorbAll(p, header + [line]) == Absorb(p, line) && AllPrintable(header + [line])
  {
    InertIgnored(p, header);
    AbsorbAppend(p, header, [line]);
    assert [line][1..] == [];
  }

  lemma LastSuccessAbsorbed(p: Prior, t: Option<int>, help: string -> Wording)
    requires p.lastSuccess.None? && TimeFits(t)
    ensures AbsorbAll(p, LastSuccessLines(t, help)) == Some(p.(lastSuccess := PositiveTime(t)))
    ensures AllPrintable(LastSuccessLines(t, help))
  {
    var v := if t.Some? then t.value else 0;
    LastSuccessName();
    HeaderText(METRIC_LAST_SUCCESS, "gauge", help(METRIC_LAST_SUCCESS));
    LastSuccessLine(p, v);
    HeaderThenLine(p, Header(METRIC_LAST_SUCCESS, "gauge", help(METRIC_LAST_SUCCESS)), METRIC_LAST_SUCCESS + " " + Int(v));
  }

  // Counters.

  /** Every label value is plain and every count prints within 64 bits. */
  ghost predicate Sound(m: Counts) { forall k :: k in m ==> Plain(k) && InInt64(m[k]) }

  function BumpAll(m: Counts, samples: Counts, keys: seq<string>): Counts
    decreases |keys|
  {
    if keys == [] then m else BumpAll(Bump(m, keys[0], Get(samples, keys[0])), samples, keys[1..])
  }

  function Positive(v: int): int { if v > 0 then v else 0 }

  lemma {:induction false} BumpAllAdds(m: Counts, samples: Counts, keys: seq<string>, k: string)
    requires forall i, j :: 0 <= i < j < |keys| ==> keys[i] != keys[j]
    requires "" !in keys
    ensures Get(BumpAll(m, samples, keys), k) == Get(m, k) + if k in keys then Positive(Get(samples, k)) else 0
    decreases |keys|
  {
    if keys != [] {
      assert keys[0] in keys;
      BumpAllAdds(Bump(m, keys[0], Get(samples, keys[0])), samples, keys[1..], k);
      assert keys == [keys[0]] + keys[1..];
    }
  }

  ghost predicate PositiveOnly(m: Counts) { forall k :: k in m ==> m[k] > 0 }

  lemma {:induction false} BumpAllPositive(m: Counts, samples: Counts, keys: seq<string>)
    requires PositiveOnly(m)
    ensures PositiveOnly(BumpAll(m, samples, keys))
    decreases |keys|
  {
    if keys != [] { BumpAllPositive(Bump(m, keys[0], Get(samples, keys[0])), samples, keys[1..]); }
  }

  /** The counts a reader keeps. */
  function PositivePart(m: Counts): Counts { map k | k in m && m[k] > 0 :: m[k] }

  lemma PositivePartByGet(m: Counts, samples: Counts)
    requires PositiveOnly(m) && forall k :: Get(m, k) == Positive(Get(samples, k))
    ensures m == PositivePart(samples)
  {
    forall k ensures k in m <==> k in PositivePart(samples) { assert Get(m, k) == Positive(Get(samples, k)); }
    forall k | k in m ensures m[k] == samples[k] { assert Get(m, k) == Positive(Get(samples, k)); }
  }

  /** The field a counter's samples are added to. */
  function SetCounter(p: Prior, name: string, m: Counts): Prior {
    if name == METRIC_ATTEMPTS then p.(attempts := m) else p.(failures := m)
  }

  function CounterOf(p: Prior, name: string): Counts { if name == METRIC_ATTEMPTS then p.attempts else p.failures }

  predicate IsCounter(name: string) { name == METRIC_ATTEMPTS || name == METRIC_FAILURES }

  lemma CounterLineAbsorbed(p: Prior, name: string, tag: string, v: int)
    requires IsCounter(name) && Plain(tag) && InInt64(v)
    ensures Absorb(p, SampleLine(name, SOURCE_PREFIX, tag, v)) == Some(SetCounter(p, name, Bump(CounterOf(p, name), tag, v)))
    ensures Printable(SampleLine(name, SOURCE_PREFIX, tag, v))
  {
    CounterNames();
    SampleRoundTrip(name, tag, v);
    SampleUntrimmed(name, SOURCE_PREFIX, tag, v);
  }

  lemma {:induction false} CounterLinesAbsorbed(p: Prior, name: string, samples: Counts, keys: seq<string>)
    requires IsCounter(name) && forall i :: 0 <= i < |keys| ==> Plain(keys[i]) && InInt64(Get(samples, keys[i]))
    ensures AbsorbAll(p, SampleLines(name, SOURCE_PREFIX, samples, keys))
            == Some(SetCounter(p, name, BumpAll(CounterOf(p, name), samples, keys)))
    ensures AllPrintable(SampleLines(name, SOURCE_PREFIX, samples, keys))
    decreases |keys|
  {
    if keys != [] {
      var v := Get(samples, keys[0]);
      CounterLineAbsorbed(p, name, keys[0], v);
      CounterLinesAbsorbed(SetCounter(p, name, Bump(CounterOf(p, name), keys[0], v)), name, samples, keys[1..]);
    }
  }

  lemma SoundKeys(samples: Counts)
    requires Sound(samples)
    ensures var keys := SortedKeys(samples.Keys);
            && (forall i :: 0 <= i < |keys| ==> Plain(keys[i]) && InInt64(Get(samples, keys[i]))) && "" !in keys
            && (forall i, j :: 0 <= i < j < |keys| ==> keys[i] != keys[j]) && forall k :: k in keys <==> k in samples
  {
    var keys := SortedKeys(samples.Keys);
    SortedKeysMembers(samples.Keys);
    forall i | 0 <= i < |keys| ensures Plain(keys[i]) && InInt64(Get(samples, keys[i])) { assert keys[i] in keys; }
  }

  /** `after` is `before` with the positive samples added. */
  ghost predicate Bumped(before: Counts, samples: Counts, after: Counts) {
    && (PositiveOnly(before) ==> PositiveOnly(after))
    && forall k :: Get(after, k) == Get(before, k) + Positive(Get(samples, k))
  }

  lemma BumpedByAll(m: Counts, samples: Counts)
    requires Sound(samples)
    ensures Bumped(m, samples, BumpAll(m, samples, SortedKeys(samples.Keys)))
  {
    var keys := SortedKeys(samples.Keys);
    SoundKeys(samples);
    if PositiveOnly(m) { BumpAllPositive(m, samples, keys); }
    forall k ensures Get(BumpAll(m, samples, keys), k) == Get(m, k) + Positive(Get(samples, k)) { BumpAllAdds(m, samples, keys, k); }
  }

  lemma CounterBlockAbsorbed(p: Prior, name: string, help: Wording, samples: Counts)
    requires IsCounter(name) && Sound(samples)
    ensures AllPrintable(CounterBlock(name, help, samples))
    ensures var r := AbsorbAll(p, CounterBlock(name, help, samples));
            r.Some? && r.value == SetCounter(p, name, CounterOf(r.value, name)) && Bumped(CounterOf(p, name), samples, CounterOf(r.value, name))
  {
    if samples != map[] {
      var keys := SortedKeys(samples.Keys);
      SoundKeys(samples);
      CounterNames();
      HeaderText(name, "counter", help);
      CounterLinesAbsorbed(p, name, samples, keys);
      InertFirst(p, Header(name, "counter", help), SampleLines(name, SOURCE_PREFIX, samples, keys));
      BumpedByAll(CounterOf(p, name), samples);
    }
  }

  // The whole file.

  /** The reader's limits are respected: the file is under the read cap and every line fits the scanner. */
  ghost predicate Fits(s: Snapshot, help: string -> Wording) {
    && |WriteTextfile(s, help)| <= MAX_PRIOR_TEXTFILE_BYTES
    && forall i :: 0 <= i < |TextLines(s, help)| ==> |TextLines(s, help)[i]| <= MAX_SCAN_LINE
  }

  ghost predicate Publishable(s: Snapshot, help: string -> Wording) {
    Sound(s.attempts) && Sound(s.failures) && TimeFits(s.lastSuccess) && Fits(s, help)
  }

  lemma PrintableAppend(s: seq<string>, t: seq<string>)
    requires AllPrintable(s) && AllPrintable(t)
    ensures AllPrintable(s + t)
  {
  }

  /** What reading a snapshot's file gives back: the last success if it is positive, and the positive counts. */
  function ReadBack(s: Snapshot): Prior { Prior(PositiveTime(s.lastSuccess), PositivePart(s.attempts), PositivePart(s.failures)) }

  lemma CountersReadBack(p: Prior, s: Snapshot, help: string -> Wording)
    requires Sound(s.attempts) && Sound(s.failures) && p.attempts == map[] && p.failures == map[]
    ensures AllPrintable(Counters(s, help))
    ensures AbsorbAll(p, Counters(s, help)) == Some(Prior(p.lastSuccess, PositivePart(s.attempts), PositivePart(s.failures)))
  {
    var d, e := CounterBlock(METRIC_ATTEMPTS, help(METRIC_ATTEMPTS), s.attempts), CounterBlock(METRIC_FAILURES, help(METRIC_FAILURES), s.failures);
    CounterNames();
    CounterBlockAbsorbed(p, METRIC_ATTEMPTS, help(METRIC_ATTEMPTS), s.attempts);
    var q := AbsorbAll(p, d).value;
    CounterBlockAbsorbed(q, METRIC_FAILURES, help(METRIC_FAILURES), s.failures);
    var r := AbsorbAll(q, e).value;
    AbsorbAppend(p, d, e);
    PrintableAppend(d, e);
    PositivePartByGet(q.attempts, s.attempts);
    PositivePartByGet(r.failures, s.failures);
  }

  lemma RestReadBack(s: Snapshot, help: string -> Wording)
    requires Sound(s.attempts) && Sound(s.failures) && TimeFits(s.lastSuccess)
    ensures var rest := LastSuccessLines(s.lastSuccess, help) + (DurationLines(s.durationMs, help) + Counters(s, help));
            AllPrintable(rest) && AbsorbAll(NO_PRIOR, rest) == Some(ReadBack(s))
  {
    var b, c, d := LastSuccessLines(s.lastSuccess, help), DurationLines(s.durationMs, help), Counters(s, help);
    var p := NO_PRIOR.(lastSuccess := PositiveTime(s.lastSuccess));
    LastSuccessAbsorbed(NO_PRIOR, s.lastSuccess, help);
    DurationInert(s.durationMs, help);
    CountersReadBack(p, s, help);
    InertFirst(p, c, d);
    AbsorbAppend(NO_PRIOR, b, c + d);
    PrintableAppend(c, d);
    PrintableAppend(b, c + d);
  }

  lemma LinesReadBack(s: Snapshot, help: string -> Wording)
    requires Sound(s.attempts) && Sound(s.failures) && TimeFits(s.lastSuccess)
    ensures AllPrintable(TextLines(s, help)) && AbsorbAll(NO_PRIOR, TextLines(s, help)) == Some(ReadBack(s))
  {
    var a := Gauges(s, help);
    var rest := LastSuccessLines(s.lastSuccess, help) + (DurationLines(s.durationMs, help) + Counters(s, help));
    GaugesInert(s, help);
    RestReadBack(s, help);
    InertFirst(NO_PRIOR, a, rest);
    PrintableAppend(a, rest);
  }

  /** Reading back what was printed recovers exactly the last success and the positive counts. */
  lemma TextfileRoundTrip(s: Snapshot, help: string -> Wording)
    requires Publishable(s, help)
    ensures ReadPrior(Some(WriteTextfile(s, help))) == Some(ReadBack(s))
  {
    LinesReadBack(s, help);
    LinesOfJoin(TextLines(s, help));
    ScannedAll(TextLines(s, help));
  }
}
