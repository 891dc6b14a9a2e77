/** For every risky label, a printed file longer than the read cap that makes its reader panic. */
module TextfileOverflow {
  import opened Basics
  import opened Decimal
  import opened TextScan
  import opened Textfile
  import opened TextfileTheorems
  import opened TextfileRuns
  import opened TextfilePanics
  import opened TextfileCuts

  // Lengths.

  /** How long the lines are in print. */
  function Size(lines: seq<string>): nat { |Join(lines)| }

  lemma SizeAppend(a: seq<string>, b: seq<string>)
    ensures Size(a + b) == Size(a) + Size(b)
  {
    JoinAppend(a, b);
  }

  lemma SizeOne(line: string)
    ensures Size([line]) == |line| + 1
  {
    assert [line][1..] == [];
    assert Join([line]) == line + "\n" + Join([line][1..]);
  }

  lemma HeaderSize(name: string, kind: string, help: Wording)
    ensures Size(Header(name, kind, help)) == 2 * |name| + |kind| + |help| + 18
  {
    var a, b := "# HELP " + name + " " + help, "# TYPE " + name + " " + kind;
    assert Header(name, kind, help) == [a] + [b];
    SizeAppend([a], [b]);
    SizeOne(a);
    SizeOne(b);
  }

  lemma NameSizes()
    ensures |METRIC_FILES_MISSING| <= 50 && |METRIC_EXPECTED| <= 50 && |METRIC_FOUND| <= 50
    ensures |METRIC_LAST_SUCCESS| <= 50 && |METRIC_ATTEMPTS| <= 50 && |METRIC_FAILURES| <= 50
  {
  }

  // Seventeen long gauge labels.

  function Pad(n: nat): (s: Wording)
    ensures |s| == n && forall i :: 0 <= i < n ==> s[i] == 'a'
  {
    seq(n, i => 'a')
  }

  lemma PadText(n: nat)
    ensures Escaped(Pad(n)) == Pad(n)
  {
    EscapedText(Pad(n));
  }

  function PadLabels(lo: nat, n: nat): set<string> {
    if n == 0 then {} else PadLabels(lo, n - 1) + {Pad(lo + n)}
  }

  ghost predicate IsPad(k: string, lo: nat, n: nat) { lo < |k| <= lo + n && k == Pad(|k|) }

  lemma {:induction false} PadLabelsApart(lo: nat, n: nat)
    ensures |PadLabels(lo, n)| == n && forall k :: k in PadLabels(lo, n) ==> IsPad(k, lo, n)
  {
    if n > 0 {
      PadLabelsApart(lo, n - 1);
      assert |Pad(lo + n)| == lo + n;
      forall k | k in PadLabels(lo, n) ensures IsPad(k, lo, n) { assert k == Pad(lo + n) || IsPad(k, lo, n - 1); }
      assert Pad(lo + n) !in PadLabels(lo, n - 1);
    }
  }

  function Zeros(keys: set<string>): Counts { map k | k in keys :: 0 }

  /** A sample line about as long as its label. */
  lemma PadLine(name: string, samples: Counts, k: string, lo: nat)
    requires |name| <= 50 && IsPad(k, lo, 17) && Get(samples, k) == 0
    ensures lo <= |SampleLine(name, ARCHIVE_PREFIX, k, Get(samples, k))| <= lo + 90
  {
    PadText(|k|);
    LineShape(name, ARCHIVE_PREFIX, k, 0);
    assert |Int(0)| == 1;
  }

  ghost predicate Short(lines: seq<string>) { forall i :: 0 <= i < |lines| ==> |lines[i]| <= MAX_SCAN_LINE }

  lemma ShortAppend(a: seq<string>, b: seq<string>)
    requires Short(a) && Short(b)
    ensures Short(a + b)
  {
  }

  lemma {:induction false} PadLines(name: string, samples: Counts, keys: seq<string>, lo: nat)
    requires |name| <= 50 && lo <= 65000 && forall i :: 0 <= i < |keys| ==> IsPad(keys[i], lo, 17) && Get(samples, keys[i]) == 0
    ensures lo * |keys| <= Size(SampleLines(name, ARCHIVE_PREFIX, samples, keys)) <= (lo + 91) * |keys|
    ensures Short(SampleLines(name, ARCHIVE_PREFIX, samples, keys))
  {
    if keys != [] {
      PadLines(name, samples, keys[1..], lo);
      PadLine(name, samples, keys[0], lo);
      var line, rest := SampleLine(name, ARCHIVE_PREFIX, keys[0], Get(samples, keys[0])), SampleLines(name, ARCHIVE_PREFIX, samples, keys[1..]);
      SizeAppend([line], rest);
      SizeOne(line);
      ShortAppend([line], rest);
      OneMore(lo, |keys|);
      OneMore(lo + 91, |keys|);
    }
  }

  lemma OneMore(x: nat, n: nat)
    requires n > 0
    ensures x * n == x + x * (n - 1)
  {
  }

  /** The samples of seventeen labels, all zero. */
  function Padding(lo: nat): Counts { Zeros(PadLabels(lo, 17)) }

  ghost function PadSamples(lo: nat): seq<string> {
    SampleLines(METRIC_FILES_MISSING, ARCHIVE_PREFIX, Padding(lo), SortedKeys(Padding(lo).Keys))
  }

  lemma PadSize(lo: nat)
    requires lo <= 65000
    ensures 17 * lo <= Size(PadSamples(lo)) <= 17 * lo + 1547 && Short(PadSamples(lo))
  {
    NameSizes();
    var keys := SortedKeys(Padding(lo).Keys);
    assert Padding(lo).Keys == PadLabels(lo, 17);
    PadLabelsApart(lo, 17);
    KeyCount(PadLabels(lo, 17));
    SortedKeysMembers(PadLabels(lo, 17));
    forall i | 0 <= i < |keys| ensures IsPad(keys[i], lo, 17) && Get(Padding(lo), keys[i]) == 0 { assert keys[i] in keys; }
    PadLines(METRIC_FILES_MISSING, Padding(lo), keys, lo);
  }

  // The file.

  /** HELP wording of moderate length for every metric. */
  ghost predicate Brief(help: string -> Wording) { forall m :: |help(m)| <= 1000 }

  /** One counter label, and gauge labels to fill the file up. */
  function Padded(lo: nat, r: nat, name: string, tag: string, v: int): Snapshot {
    var only: Counts := map[tag := v];
    Snapshot(Padding(lo), map[Pad(r) := 0], map[], 0, None, if name == METRIC_ATTEMPTS then only else map[], if name == METRIC_ATTEMPTS then map[] else only)
  }

  /** The lines in front of the first counter sample. */
  ghost function Front(lo: nat, r: nat, name: string, help: string -> Wording): seq<string> {
    Header(METRIC_FILES_MISSING, "gauge", help(METRIC_FILES_MISSING)) + (PadSamples(lo)
    + (Header(METRIC_EXPECTED, "gauge", help(METRIC_EXPECTED)) + ([SampleLine(METRIC_EXPECTED, ARCHIVE_PREFIX, Pad(r), 0)]
    + (Header(METRIC_FOUND, "gauge", help(METRIC_FOUND)) + (Header(METRIC_LAST_SUCCESS, "gauge", help(METRIC_LAST_SUCCESS))
    + ([METRIC_LAST_SUCCESS + " " + Int(0)] + Header(name, "counter", help(name))))))))
  }

  lemma EmptyKeys(keys: set<string>)
    requires keys == {}
    ensures SortedKeys(keys) == []
  {
  }

  lemma OneKey(tag: string)
    ensures SortedKeys({tag}) == [tag]
  {
    var ks := SortedKeys({tag});
    SortedKeysMembers({tag});
    KeyCount({tag});
    assert ks[0] in ks;
  }

  lemma EmptyBlock(name: string, help: Wording)
    ensures Block(name, "gauge", help, ARCHIVE_PREFIX, map[]) == Header(name, "gauge", help)
  {
    var none: Counts := map[];
    EmptyKeys(none.Keys);
  }

  lemma OneSample(name: string, kind: string, help: Wording, open: string, tag: string, v: int)
    ensures Block(name, kind, help, open, map[tag := v]) == Header(name, kind, help) + [SampleLine(name, open, tag, v)]
  {
    var only: Counts := map[tag := v];
    assert only.Keys == {tag};
    OneKey(tag);
    assert SampleLines(name, open, only, [tag]) == [SampleLine(name, open, tag, v)] + [];
  }

  lemma PaddedLines(lo: nat, r: nat, name: string, tag: string, v: int, help: string -> Wording)
    requires IsCounter(name)
    ensures TextLines(Padded(lo, r, name, tag, v), help) == Front(lo, r, name, help) + [SampleLine(name, SOURCE_PREFIX, tag, v)]
  {
    PaddedGauges(lo, r, name, tag, v, help);
    PaddedCounters(lo, r, name, tag, v, help);
    var a, b, c := Header(METRIC_FILES_MISSING, "gauge", help(METRIC_FILES_MISSING)), PadSamples(lo), Header(METRIC_EXPECTED, "gauge", help(METRIC_EXPECTED));
    var pad, d := [SampleLine(METRIC_EXPECTED, ARCHIVE_PREFIX, Pad(r), 0)], Header(METRIC_FOUND, "gauge", help(METRIC_FOUND));
    var e, f, g := Header(METRIC_LAST_SUCCESS, "gauge", help(METRIC_LAST_SUCCESS)), [METRIC_LAST_SUCCESS + " " + Int(0)], Header(name, "counter", help(name));
    Regroup(a, b, c, pad, d, e, f, g, [SampleLine(name, SOURCE_PREFIX, tag, v)]);
  }

  lemma Regroup(a: seq<string>, b: seq<string>, c: seq<string>, pad: seq<string>, d: seq<string>, e: seq<string>, f: seq<string>, g: seq<string>, h: seq<string>)
    ensures a + b + (c + pad) + d + (e + f + ([] + (g + h))) == a + (b + (c + (pad + (d + (e + (f + g)))))) + h
  {
  }

  lemma PaddedGauges(lo: nat, r: nat, name: string, tag: string, v: int, help: string -> Wording)
    ensures Gauges(Padded(lo, r, name, tag, v), help)
         == Header(METRIC_FILES_MISSING, "gauge", help(METRIC_FILES_MISSING)) + PadSamples(lo)
            + (Header(METRIC_EXPECTED, "gauge", help(METRIC_EXPECTED)) + [SampleLine(METRIC_EXPECTED, ARCHIVE_PREFIX, Pad(r), 0)])
            + Header(METRIC_FOUND, "gauge", help(METRIC_FOUND))
  {
    OneSample(METRIC_EXPECTED, "gauge", help(METRIC_EXPECTED), ARCHIVE_PREFIX, Pad(r), 0);
    EmptyBlock(METRIC_FOUND, help(METRIC_FOUND));
  }

  lemma PaddedCounters(lo: nat, r: nat, name: string, tag: string, v: int, help: string -> Wording)
    requires IsCounter(name)
    ensures Counters(Padded(lo, r, name, tag, v), help) == Header(name, "counter", help(name)) + [SampleLine(name, SOURCE_PREFIX, tag, v)]
  {
    CounterNames();
    OneSample(name, "counter", help(name), SOURCE_PREFIX, tag, v);
  }

  lemma FrontSize(lo: nat, r: nat, name: string, help: string -> Wording)
    requires IsCounter(name) && lo <= 65000 && Brief(help)
    ensures 17 * lo <= Size(Front(lo, 0, name, help)) <= 17 * lo + 9000 && Size(Front(lo, r, name, help)) == Size(Front(lo, 0, name, help)) + r
  {
    NameSizes();
    PadSize(lo);
    FrontSizes(lo, 0, name, help);
    FrontSizes(lo, r, name, help);
  }

  lemma PadSample(name: string, r: nat)
    ensures |SampleLine(name, ARCHIVE_PREFIX, Pad(r), 0)| == |name| + r + 14
  {
    PadText(r);
    LineShape(name, ARCHIVE_PREFIX, Pad(r), 0);
    assert |Int(0)| == 1;
  }

  lemma FrontSizes(lo: nat, r: nat, name: string, help: string -> Wording)
    ensures Size(Front(lo, r, name, help)) == Size(PadSamples(lo)) + r + 2 * |METRIC_FILES_MISSING| + 3 * |METRIC_EXPECTED| + 2 * |METRIC_FOUND|
            + 3 * |METRIC_LAST_SUCCESS| + 2 * |name| + |help(METRIC_FILES_MISSING)| + |help(METRIC_EXPECTED)| + |help(METRIC_FOUND)|
            + |help(METRIC_LAST_SUCCESS)| + |help(name)| + 135
  {
    var a, b, c := Header(METRIC_FILES_MISSING, "gauge", help(METRIC_FILES_MISSING)), PadSamples(lo), Header(METRIC_EXPECTED, "gauge", help(METRIC_EXPECTED));
    var pad, d := [SampleLine(METRIC_EXPECTED, ARCHIVE_PREFIX, Pad(r), 0)], Header(METRIC_FOUND, "gauge", help(METRIC_FOUND));
    var e, f, g := Header(METRIC_LAST_SUCCESS, "gauge", help(METRIC_LAST_SUCCESS)), [METRIC_LAST_SUCCESS + " " + Int(0)], Header(name, "counter", help(name));
    HeaderSize(METRIC_FILES_MISSING, "gauge", help(METRIC_FILES_MISSING));
    HeaderSize(METRIC_EXPECTED, "gauge", help(METRIC_EXPECTED));
    HeaderSize(METRIC_FOUND, "gauge", help(METRIC_FOUND));
    HeaderSize(METRIC_LAST_SUCCESS, "gauge", help(METRIC_LAST_SUCCESS));
    HeaderSize(name, "counter", help(name));
    PadSample(METRIC_EXPECTED, r);
    SizeOne(pad[0]);
    SizeOne(f[0]);
    assert |Int(0)| == 1;
    SizesAdd(a, b, c, pad, d, e, f, g);
  }

  lemma SizesAdd(a: seq<string>, b: seq<string>, c: seq<string>, pad: seq<string>, d: seq<string>, e: seq<string>, f: seq<string>, g: seq<string>)
    ensures Size(a + (b + (c + (pad + (d + (e + (f + g))))))) == Size(a) + Size(b) + Size(c) + Size(pad) + Size(d) + Size(e) + Size(f) + Size(g)
  {
    SizeAppend(f, g);
    SizeAppend(e, f + g);
    SizeAppend(d, e + (f + g));
    SizeAppend(pad, d + (e + (f + g)));
    SizeAppend(c, pad + (d + (e + (f + g))));
    SizeAppend(b, c + (pad + (d + (e + (f + g)))));
    SizeAppend(a, b + (c + (pad + (d + (e + (f + g))))));
  }

  lemma HeaderShort(name: string, kind: string, help: Wording)
    requires |name| <= 50 && |kind| <= 10 && |help| <= 1000
    ensures Short(Header(name, kind, help))
  {
  }

  lemma FrontShort(lo: nat, r: nat, name: string, help: string -> Wording)
    requires IsCounter(name) && lo <= 65000 && r <= 60000 && Brief(help)
    ensures Short(Front(lo, r, name, help))
  {
    NameSizes();
    PadSize(lo);
    HeaderShort(METRIC_FILES_MISSING, "gauge", help(METRIC_FILES_MISSING));
    HeaderShort(METRIC_EXPECTED, "gauge", help(METRIC_EXPECTED));
    HeaderShort(METRIC_FOUND, "gauge", help(METRIC_FOUND));
    HeaderShort(METRIC_LAST_SUCCESS, "gauge", help(METRIC_LAST_SUCCESS));
    HeaderShort(name, "counter", help(name));
    PadSample(METRIC_EXPECTED, r);
    assert |Int(0)| == 1;
    ShortAll(Header(METRIC_FILES_MISSING, "gauge", help(METRIC_FILES_MISSING)), PadSamples(lo), Header(METRIC_EXPECTED, "gauge", help(METRIC_EXPECTED)),
             [SampleLine(METRIC_EXPECTED, ARCHIVE_PREFIX, Pad(r), 0)], Header(METRIC_FOUND, "gauge", help(METRIC_FOUND)),
             Header(METRIC_LAST_SUCCESS, "gauge", help(METRIC_LAST_SUCCESS)), [METRIC_LAST_SUCCESS + " " + Int(0)], Header(name, "counter", help(name)));
  }

  lemma ShortAll(a: seq<string>, b: seq<string>, c: seq<string>, pad: seq<string>, d: seq<string>, e: seq<string>, f: seq<string>, g: seq<string>)
    requires Short(a) && Short(b) && Short(c) && Short(pad) && Short(d) && Short(e) && Short(f) && Short(g)
    ensures Short(a + (b + (c + (pad + (d + (e + (f + g)))))))
  {
    ShortAppend(f, g);
    ShortAppend(e, f + g);
    ShortAppend(d, e + (f + g));
    ShortAppend(pad, d + (e + (f + g)));
    ShortAppend(c, pad + (d + (e + (f + g))));
    ShortAppend(b, c + (pad + (d + (e + (f + g)))));
    ShortAppend(a, b + (c + (pad + (d + (e + (f + g))))));
  }

  // Cut inside its last line.

  lemma {:induction false} LinesThen(lines: seq<string>, last: string)
    requires AllPrintable(lines) && Printable(last) && last != []
    ensures Lines(Join(lines) + last) == lines + [last]
  {
    if lines == [] {
      assert Join(lines) + last == last;
      NoNewline(last);
    } else {
      LinesThen(lines[1..], last);
      FirstLine(lines[0], Join(lines[1..]) + last);
      Regrouped(lines[0], "\n", Join(lines[1..]), last);
      assert [lines[0]] + (lines[1..] + [last]) == lines + [last];
    }
  }

  lemma Regrouped(a: string, b: string, c: string, d: string)
    ensures a + b + c + d == a + b + (c + d)
  {
  }

  lemma SeenCut(front: seq<string>, line: string, j: nat)
    requires AllPrintable(front) && Short(front) && Printable(line) && 0 < j <= |line| && j <= MAX_SCAN_LINE
    requires Size(front) + j == MAX_PRIOR_TEXTFILE_BYTES
    ensures Seen(Join(front + [line])) == front + [line[..j]]
  {
    JoinAppend(front, [line]);
    assert Join([line]) == line + "\n" by { assert [line][1..] == []; }
    assert Head(Join(front + [line])) == Join(front) + line[..j];
    PrefixPrintable(line[..j], line);
    LinesThen(front, line[..j]);
    ScannedAll(front + [line[..j]]);
  }

  lemma RiskyCut(name: string, tag: string, v: int) returns (j: nat)
    requires MetricName(name) && Risky(name, tag)
    ensures 0 < j <= |SampleLine(name, SOURCE_PREFIX, tag, v)| && j <= MAX_SCAN_LINE && Fatal(SampleLine(name, SOURCE_PREFIX, tag, v)[..j])
  {
    var e := Escaped(tag);
    var k :| 0 <= k <= |e| && |name| + |SOURCE_PREFIX| + k <= MAX_SCAN_LINE && Opening(e[..k]);
    j := |name + SOURCE_PREFIX| + k;
    LineShape(name, SOURCE_PREFIX, tag, v);
    var rest := "\"} " + Int(v);
    CutBehind(name + SOURCE_PREFIX, e + rest, j);
    CutBehind(e, rest, k);
    FatalSample(name, e[..k]);
  }

  /** Padded so that the cap cuts the sample line after j characters. */
  lemma Fit(name: string, j: nat, help: string -> Wording) returns (lo: nat, r: nat)
    requires IsCounter(name) && j <= MAX_SCAN_LINE && Brief(help)
    ensures lo <= 65000 && r <= 60000 && Size(Front(lo, r, name, help)) + j == MAX_PRIOR_TEXTFILE_BYTES
  {
    lo := (MAX_PRIOR_TEXTFILE_BYTES - 10000 - j) / 17;
    FrontSize(lo, 0, name, help);
    r := MAX_PRIOR_TEXTFILE_BYTES - j - Size(Front(lo, 0, name, help));
    FrontSize(lo, r, name, help);
  }

  /** Whatever the counter, its value and the HELP wording, a risky label makes the reader of some printed file panic. */
  lemma RiskyLabelPanics(name: string, tag: string, v: int, help: string -> Wording) returns (s: Snapshot)
    requires IsCounter(name) && Risky(name, tag) && Brief(help)
    ensures s.attempts == (if name == METRIC_ATTEMPTS then map[tag := v] else map[])
    ensures s.failures == (if name == METRIC_ATTEMPTS then map[] else map[tag := v])
    ensures ReadPrior(Some(WriteTextfile(s, help))).None?
  {
    CounterNames();
    var j := RiskyCut(name, tag, v);
    var lo, r := Fit(name, j, help);
    s := Padded(lo, r, name, tag, v);
    var front, line := Front(lo, r, name, help), SampleLine(name, SOURCE_PREFIX, tag, v);
    PaddedLines(lo, r, name, tag, v, help);
    FrontShort(lo, r, name, help);
    FrontPrints(s, help, front, line);
    SeenCut(front, line, j);
    var seen := Seen(WriteTextfile(s, help));
    assert seen[|front|] == line[..j];
    ReadPanicsExactly(Some(WriteTextfile(s, help)));
  }

  lemma FrontPrints(s: Snapshot, help: string -> Wording, front: seq<string>, line: string)
    requires TextLines(s, help) == front + [line]
    ensures AllPrintable(front) && Printable(line)
  {
    TextHarmless(s, help);
    var lines := TextLines(s, help);
    assert lines[|front|] == line;
    forall i | 0 <= i < |front| ensures Printable(front[i]) { assert lines[i] == front[i]; }
  }

  /** The label `} 5` is risky under either counter. */
  lemma BraceFiveRisky(name: string)
    requires IsCounter(name)
    ensures Risky(name, "} 5")
  {
    NameSizes();
    EscapedText("} 5");
    BraceFive("} 5");
    assert "} 5"[..3] == "} 5";
  }

  lemma BraceFive(x: string)
    requires x == "} 5"
    ensures Opening(x)
  {
    assert x == "}" + " " + "5";
    OneField("}");
    LastField("}", "5");
    assert AllDigits("5");
  }
}
