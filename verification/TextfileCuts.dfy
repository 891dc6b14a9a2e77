/** What a printed file cut at the read cap can do to its reader. */
module TextfileCuts {
  import opened Basics
  import opened Decimal
  import opened TextScan
  import opened Textfile
  import opened TextfileTheorems
  import opened TextfileRuns
  import opened TextfilePanics

  // Words of a text, a prefix added or the trailing spaces dropped.

  lemma {:induction false} TokenBehind(p: string, s: string)
    requires NoSpace(p)
    ensures TokenLength(p + s) == |p| + TokenLength(s)
  {
    if p == [] {
      assert p + s == s;
    } else {
      assert p[0] in p;
      TokenBehind(p[1..], s);
      assert (p + s)[1..] == p[1..] + s;
    }
  }

  /** A word in front of a text that starts with a word makes that word longer. */
  lemma WordInFront(p: string, s: string)
    requires p != [] && NoSpace(p) && s != [] && !IsSpace(s[0])
    ensures Fields(s) != [] && Fields(p + s) == [p + Fields(s)[0]] + Fields(s)[1..]
  {
    var n := TokenLength(s);
    LongerToken(p, s, p + s, n);
    FirstField(s, s[n..]);
    FirstField(p + s, s[n..]);
  }

  lemma LongerToken(p: string, s: string, all: string, n: nat)
    requires p != [] && NoSpace(p) && all == p + s && n == TokenLength(s)
    ensures TokenLength(all) == |p| + n && !IsSpace(all[0]) && all[..|p| + n] == p + s[..n] && all[|p| + n..] == s[n..]
  {
    TokenBehind(p, s);
    assert p[0] in p && all[0] == p[0];
  }

  lemma FirstWord(s: string)
    requires s != [] && !IsSpace(s[0])
    ensures Fields(s) != [] && Fields(s)[0] == s[..TokenLength(s)]
  {
  }

  lemma {:induction false} TokenBeforeSpace(s: string, c: char)
    requires IsSpace(c)
    ensures TokenLength(s + [c]) == TokenLength(s)
  {
    if s != [] && !IsSpace(s[0]) {
      TokenBeforeSpace(s[1..], c);
      assert (s + [c])[1..] == s[1..] + [c];
    }
  }

  lemma {:induction false} TrailingSpace(s: string, c: char)
    requires IsSpace(c)
    ensures Fields(s + [c]) == Fields(s)
    decreases |s|
  {
    var all := s + [c];
    if s == [] {
      assert all[1..] == [];
    } else if IsSpace(s[0]) {
      TrailingSpace(s[1..], c);
      assert all[1..] == s[1..] + [c];
    } else {
      var n := TokenLength(s);
      TokenBeforeSpace(s, c);
      assert all[..n] == s[..n] && all[n..] == s[n..] + [c];
      FirstField(s, s[n..]);
      FirstField(all, s[n..] + [c]);
      TrailingSpace(s[n..], c);
    }
  }

  lemma {:induction false} TrimmedFields(s: string)
    ensures Fields(TrimRight(s)) == Fields(s)
    decreases |s|
  {
    if s != [] && IsSpace(s[|s| - 1]) {
      var init := s[..|s| - 1];
      TrimmedFields(init);
      TrailingSpace(init, s[|s| - 1]);
      assert s == init + [s[|s| - 1]];
    }
  }

  /** A text that starts with neither a space nor a comment is fatal for its words alone. */
  lemma FatalByWords(p: string)
    requires p != [] && !IsSpace(p[0])
    ensures Fatal(p) <==> p[0] != '#' && BadSample(p)
  {
    TrimRightKeepsHead(p);
    TrimmedFields(p);
  }

  lemma {:induction false} CharInWord(s: string, c: char)
    requires c in s && !IsSpace(c)
    ensures exists i :: 0 <= i < |Fields(s)| && c in Fields(s)[i]
    decreases |s|
  {
    if IsSpace(s[0]) {
      assert s == [s[0]] + s[1..];
      CharInWord(s[1..], c);
      assert Fields(s) == Fields(s[1..]);
    } else {
      var n := TokenLength(s);
      var first, rest := s[..n], s[n..];
      FirstField(s, rest);
      assert s == first + rest;
      if c !in first { CharInWord(rest, c); }
      InFirstOrRest(first, Fields(rest), c);
    }
  }

  lemma InFirstOrRest(first: string, words: seq<string>, c: char)
    requires c in first || exists i :: 0 <= i < |words| && c in words[i]
    ensures exists i :: 0 <= i < |[first] + words| && c in ([first] + words)[i]
  {
    if c in first {
      assert c in ([first] + words)[0];
    } else {
      var i :| 0 <= i < |words| && c in words[i];
      assert ([first] + words)[i + 1] == words[i];
    }
  }

  // A sample line, cut anywhere.

  /** Two words, `}` and an integer, from the first character on. */
  predicate Opening(x: string) {
    x != [] && !IsSpace(x[0]) && |Fields(x)| == 2 && Fields(x)[0] == "}" && ParseInt(Fields(x)[1]).Some?
  }

  lemma LabelsAt(name: string, rest: string)
    requires MetricName(name) && rest != [] && rest[0] == '{'
    ensures (name + rest)[IndexOf(name + rest, '{')..] == rest
  {
    FirstBrace(name, rest);
  }

  lemma SourceText(name: string)
    requires MetricName(name)
    ensures NoSpace(name + SOURCE_PREFIX) && name + SOURCE_PREFIX != [] && !IsSpace(name[0])
  {
    OpenerText(SOURCE_PREFIX);
    TextAppend(name, SOURCE_PREFIX);
    assert name[0] in name;
  }

  /** Behind the opened label quote a text is fatal exactly when it is `}` and an integer. */
  lemma FatalSample(name: string, x: string)
    requires MetricName(name)
    ensures Fatal(name + SOURCE_PREFIX + x) <==> Opening(x)
  {
    var pre := name + SOURCE_PREFIX;
    SourceText(name);
    FatalByWords(pre + x);
    if x == [] {
      assert pre + x == pre;
      OneField(pre);
    } else if IsSpace(x[0]) {
      SpaceBehind(name, pre, x);
    } else {
      WordInFront(pre, x);
      BadBehind(name, Fields(x)[0]);
    }
  }

  lemma SpaceBehind(name: string, pre: string, x: string)
    requires MetricName(name) && pre == name + SOURCE_PREFIX && NoSpace(pre) && pre != [] && x != [] && IsSpace(x[0])
    ensures !BadSample(pre + x)
  {
    TokenBehind(pre, x);
    assert pre[0] in pre;
    FirstWord(pre + x);
    assert Fields(pre + x)[0] == pre;
    LabelsAt(name, SOURCE_PREFIX);
  }

  lemma BadBehind(name: string, w: string)
    requires MetricName(name)
    ensures var key := name + SOURCE_PREFIX + w;
            key[IndexOf(key, '{')..] == "{source=\"}" <==> w == "}"
  {
    LabelsAt(name, SOURCE_PREFIX + w);
    assert name + SOURCE_PREFIX + w == name + (SOURCE_PREFIX + w);
    assert "{source=\"}" == SOURCE_PREFIX + "}";
    if SOURCE_PREFIX + w == SOURCE_PREFIX + "}" { assert (SOURCE_PREFIX + w)[9..] == w && (SOURCE_PREFIX + "}")[9..] == "}"; }
  }

  lemma NoSpaceHarmless(p: string)
    requires NoSpace(p)
    ensures !Fatal(p)
  {
    if p != [] {
      assert p[0] in p;
      OneField(p);
      FatalByWords(p);
    }
  }

  lemma OpeningUnquoted(x: string)
    requires Opening(x)
    ensures '"' !in x
  {
    if '"' in x {
      CharInWord(x, '"');
      var i :| 0 <= i < |Fields(x)| && '"' in Fields(x)[i];
      IntegerUnquoted(Fields(x)[1]);
    }
  }

  lemma IntegerUnquoted(w: string)
    requires ParseInt(w).Some?
    ensures '"' !in w
  {
    assert w == [w[0]] + w[1..];
    var digits := if w[0] == '-' || w[0] == '+' then w[1..] else w;
    assert forall i :: 0 <= i < |digits| ==> digits[i] != '"';
  }

  /** Some beginning of the printed label is `}` and an integer, near enough to fit the scanner's buffer. */
  ghost predicate Risky(name: string, tag: string) {
    exists k :: 0 <= k <= |Escaped(tag)| && |name| + |SOURCE_PREFIX| + k <= MAX_SCAN_LINE && Opening(Escaped(tag)[..k])
  }

  /** What opens a label ends inside it. */
  lemma OpeningInside(e: string, rest: string, m: nat)
    requires rest != [] && rest[0] == '"' && m <= |e + rest|
    ensures Opening((e + rest)[..m]) ==> m <= |e| && (e + rest)[..m] == e[..m]
  {
    var x := (e + rest)[..m];
    assert m > |e| ==> x[|e|] == '"';
    if Opening(x) { OpeningUnquoted(x); }
  }

  lemma LineShape(name: string, open: string, tag: string, v: int)
    ensures SampleLine(name, open, tag, v) == name + open + (Escaped(tag) + ("\"} " + Int(v)))
    ensures SampleLine(name, open, tag, v) == name + (open + (Escaped(tag) + ("\"} " + Int(v))))
  {
    var e, n := Escaped(tag), Int(v);
    assert LABEL_END + " " == "\"} ";
    Reassociate(name, open, e, LABEL_END, " ", n, "\"} ");
  }

  lemma Reassociate(a: string, b: string, c: string, d: string, e: string, f: string, de: string)
    requires d + e == de
    ensures a + (b + c + d) + e + f == a + b + (c + (de + f)) == a + (b + (c + (de + f)))
  {
  }

  lemma CutBehind(pre: string, tail: string, k: nat)
    requires k <= |pre + tail|
    ensures (pre + tail)[..k] == if k <= |pre| then pre[..k] else pre + tail[..k - |pre|]
  {
  }

  lemma CutSample(name: string, tag: string, v: int, k: nat)
    requires MetricName(name) && !Risky(name, tag) && k <= |SampleLine(name, SOURCE_PREFIX, tag, v)| && k <= MAX_SCAN_LINE
    ensures !Fatal(SampleLine(name, SOURCE_PREFIX, tag, v)[..k])
  {
    LineShape(name, SOURCE_PREFIX, tag, v);
    CutTail(name, Escaped(tag), "\"} " + Int(v), k);
  }

  lemma CutTail(name: string, e: string, rest: string, k: nat)
    requires MetricName(name) && rest != [] && rest[0] == '"' && k <= |name + SOURCE_PREFIX + (e + rest)|
    requires forall m :: 0 <= m <= |e| && |name| + |SOURCE_PREFIX| + m <= k ==> !Opening(e[..m])
    ensures !Fatal((name + SOURCE_PREFIX + (e + rest))[..k])
  {
    var pre := name + SOURCE_PREFIX;
    SourceText(name);
    CutBehind(pre, e + rest, k);
    if k <= |pre| {
      PrefixSpaceless(pre, k);
      NoSpaceHarmless(pre[..k]);
    } else {
      FatalSample(name, (e + rest)[..k - |pre|]);
      OpeningInside(e, rest, k - |pre|);
    }
  }

  lemma PrefixSpaceless(s: string, k: nat)
    requires NoSpace(s) && k <= |s|
    ensures NoSpace(s[..k])
  {
    assert forall c :: c in s[..k] ==> c in s;
  }

  // The other lines, cut anywhere.

  /** Printable, and harmless wherever it is cut. */
  ghost predicate SafeLine(line: string) {
    Printable(line) && forall k :: 0 <= k <= |line| && k <= MAX_SCAN_LINE ==> !Fatal(line[..k])
  }

  ghost predicate SafeLines(lines: seq<string>) { forall i :: 0 <= i < |lines| ==> SafeLine(lines[i]) }

  lemma SafeAppend(s: seq<string>, t: seq<string>)
    requires SafeLines(s) && SafeLines(t)
    ensures SafeLines(s + t)
  {
  }

  lemma CommentSafe(line: string)
    requires Comment(line) && Printable(line)
    ensures SafeLine(line)
  {
    forall k | 0 <= k <= |line| ensures !Fatal(line[..k]) {
      if k > 0 { FatalByWords(line[..k]); }
    }
  }

  lemma HeaderSafe(name: string, kind: string, help: Wording)
    requires MetricName(name) && Printable(kind)
    ensures SafeLines(Header(name, kind, help))
  {
    HeaderText(name, kind, help);
    var lines := Header(name, kind, help);
    forall i | 0 <= i < |lines| ensures SafeLine(lines[i]) { CommentSafe(lines[i]); }
  }

  /** A text whose first brace, if any, does not open a source label is harmless. */
  lemma NoSourceHarmless(p: string)
    requires p != [] && !IsSpace(p[0])
    requires forall n :: 0 <= n <= |p| ==> p[..n][IndexOf(p[..n], '{')..] != "{source=\"}"
    ensures !Fatal(p)
  {
    FatalByWords(p);
    FirstWord(p);
  }

  lemma NoBraceSafe(line: string)
    requires line != [] && !IsSpace(line[0]) && '{' !in line && Printable(line)
    ensures SafeLine(line)
  {
    forall k | 0 <= k <= |line| ensures !Fatal(line[..k]) {
      if k > 0 {
        forall n | 0 <= n <= k ensures line[..k][..n][IndexOf(line[..k][..n], '{')..] != "{source=\"}" {
          assert line[..k][..n] == line[..n];
          NoBrace(line[..n]);
        }
        NoSourceHarmless(line[..k]);
      }
    }
  }

  lemma ArchiveLabels(name: string, rest: string, n: nat)
    requires MetricName(name) && n <= |name + (ARCHIVE_PREFIX + rest)|
    ensures var q := (name + (ARCHIVE_PREFIX + rest))[..n]; q[IndexOf(q, '{')..] != "{source=\"}"
  {
    var labels := ARCHIVE_PREFIX + rest;
    var q := (name + labels)[..n];
    if n <= |name| {
      assert q == name[..n];
      NoBrace(q);
    } else {
      assert q == name + labels[..n - |name|];
      LabelsAt(name, labels[..n - |name|]);
      if n > |name| + 1 { assert labels[..n - |name|][1] == 'a'; }
    }
  }

  lemma ArchiveSafe(name: string, tag: string, v: int)
    requires MetricName(name)
    ensures SafeLine(SampleLine(name, ARCHIVE_PREFIX, tag, v))
  {
    var line, rest := SampleLine(name, ARCHIVE_PREFIX, tag, v), Escaped(tag) + ("\"} " + Int(v));
    SampleUntrimmed(name, ARCHIVE_PREFIX, tag, v);
    LineShape(name, ARCHIVE_PREFIX, tag, v);
    forall k | 0 <= k <= |line| ensures !Fatal(line[..k]) { CutArchive(name, rest, line, k); }
  }

  lemma CutArchive(name: string, rest: string, line: string, k: nat)
    requires MetricName(name) && line == name + (ARCHIVE_PREFIX + rest) && k <= |line|
    ensures !Fatal(line[..k])
  {
    if k > 0 {
      forall n | 0 <= n <= k ensures line[..k][..n][IndexOf(line[..k][..n], '{')..] != "{source=\"}" {
        assert line[..k][..n] == line[..n];
        ArchiveLabels(name, rest, n);
      }
      assert name[0] in name && line[..k][0] == name[0];
      NoSourceHarmless(line[..k]);
    }
  }

  lemma SampleSafe(name: string, tag: string, v: int)
    requires MetricName(name) && !Risky(name, tag)
    ensures SafeLine(SampleLine(name, SOURCE_PREFIX, tag, v))
  {
    var line := SampleLine(name, SOURCE_PREFIX, tag, v);
    SampleUntrimmed(name, SOURCE_PREFIX, tag, v);
    forall k | 0 <= k <= |line| && k <= MAX_SCAN_LINE ensures !Fatal(line[..k]) { CutSample(name, tag, v, k); }
  }

  lemma {:induction false} SamplesSafe(name: string, open: string, samples: Counts, keys: seq<string>)
    requires MetricName(name) && (open == ARCHIVE_PREFIX || (open == SOURCE_PREFIX && forall i :: 0 <= i < |keys| ==> !Risky(name, keys[i])))
    ensures SafeLines(SampleLines(name, open, samples, keys))
  {
    if keys != [] {
      SamplesSafe(name, open, samples, keys[1..]);
      if open == ARCHIVE_PREFIX {
        ArchiveSafe(name, keys[0], Get(samples, keys[0]));
      } else {
        SampleSafe(name, keys[0], Get(samples, keys[0]));
      }
    }
  }

  lemma GaugeSafe(name: string, help: Wording, samples: Counts)
    requires MetricName(name)
    ensures SafeLines(Block(name, "gauge", help, ARCHIVE_PREFIX, samples))
  {
    HeaderSafe(name, "gauge", help);
    SamplesSafe(name, ARCHIVE_PREFIX, samples, SortedKeys(samples.Keys));
    SafeAppend(Header(name, "gauge", help), SampleLines(name, ARCHIVE_PREFIX, samples, SortedKeys(samples.Keys)));
  }

  lemma GaugesSafe(s: Snapshot, help: string -> Wording)
    ensures SafeLines(Gauges(s, help))
  {
    MissingName();
    ExpectedName();
    FoundName();
    GaugeSafe(METRIC_FILES_MISSING, help(METRIC_FILES_MISSING), s.filesMissing);
    GaugeSafe(METRIC_EXPECTED, help(METRIC_EXPECTED), s.checksExpected);
    GaugeSafe(METRIC_FOUND, help(METRIC_FOUND), s.checksFound);
  }

  /** No label of the counter is risky. */
  ghost predicate Unrisky(name: string, samples: Counts) { forall k :: k in samples ==> !Risky(name, k) }

  lemma CounterSafe(name: string, help: Wording, samples: Counts)
    requires MetricName(name) && Unrisky(name, samples)
    ensures SafeLines(CounterBlock(name, help, samples))
  {
    HeaderSafe(name, "counter", help);
    SortedKeysMembers(samples.Keys);
    var keys := SortedKeys(samples.Keys);
    forall i | 0 <= i < |keys| ensures !Risky(name, keys[i]) { assert keys[i] in keys; }
    SamplesSafe(name, SOURCE_PREFIX, samples, keys);
    SafeAppend(Header(name, "counter", help), SampleLines(name, SOURCE_PREFIX, samples, keys));
  }

  /** A name, a word and no brace. */
  lemma NumberSafe(name: string, word: string)
    requires MetricName(name) && word != [] && NoSpace(word) && Printable(word) && '{' !in word
    ensures SafeLine(name + " " + word)
  {
    PlainLine(name, word);
    assert name[0] in name;
    NoBraceSafe(name + " " + word);
  }

  lemma {:induction false} DigitsUnbraced(n: nat)
    ensures '{' !in Digits(n)
  {
    var s := Digits(n);
    forall c | c in s ensures c != '{' {
      var i :| 0 <= i < |s| && s[i] == c;
    }
  }

  lemma LastSuccessSafe(t: Option<int>, help: string -> Wording)
    ensures SafeLines(LastSuccessLines(t, help))
  {
    var v := if t.Some? then t.value else 0;
    LastSuccessName();
    HeaderSafe(METRIC_LAST_SUCCESS, "gauge", help(METRIC_LAST_SUCCESS));
    IntText(v);
    DigitsUnbraced(if v < 0 then -v else v);
    NumberSafe(METRIC_LAST_SUCCESS, Int(v));
    SafeAppend(Header(METRIC_LAST_SUCCESS, "gauge", help(METRIC_LAST_SUCCESS)), [METRIC_LAST_SUCCESS + " " + Int(v)]);
  }

  lemma SecondsUnbraced(ms: nat)
    ensures '{' !in Seconds(ms)
  {
    DigitsUnbraced(ms / 1000);
    DigitsUnbraced(ms / 100 % 10);
    DigitsUnbraced(ms / 10 % 10);
    DigitsUnbraced(ms % 10);
  }

  lemma DurationSafe(ms: nat, help: string -> Wording)
    ensures SafeLines(DurationLines(ms, help))
  {
    if ms != 0 {
      DurationName();
      HeaderSafe(METRIC_DURATION, "gauge", help(METRIC_DURATION));
      SecondsText(ms);
      SecondsUnbraced(ms);
      NumberSafe(METRIC_DURATION, Seconds(ms));
      SafeAppend(Header(METRIC_DURATION, "gauge", help(METRIC_DURATION)), [METRIC_DURATION + " " + Seconds(ms)]);
    }
  }

  lemma TextSafe(s: Snapshot, help: string -> Wording)
    requires Unrisky(METRIC_ATTEMPTS, s.attempts) && Unrisky(METRIC_FAILURES, s.failures)
    ensures SafeLines(TextLines(s, help))
  {
    var a, b, c := Gauges(s, help), LastSuccessLines(s.lastSuccess, help), DurationLines(s.durationMs, help);
    var d, e := CounterBlock(METRIC_ATTEMPTS, help(METRIC_ATTEMPTS), s.attempts), CounterBlock(METRIC_FAILURES, help(METRIC_FAILURES), s.failures);
    GaugesSafe(s, help);
    LastSuccessSafe(s.lastSuccess, help);
    DurationSafe(s.durationMs, help);
    CounterNames();
    CounterSafe(METRIC_ATTEMPTS, help(METRIC_ATTEMPTS), s.attempts);
    CounterSafe(METRIC_FAILURES, help(METRIC_FAILURES), s.failures);
    SafeAppend(d, e);
    SafeAppend(c, d + e);
    SafeAppend(b, c + (d + e));
    SafeAppend(a, b + (c + (d + e)));
  }

  // Cutting a file cuts its last line.

  lemma {:induction false} NoNewline(s: string)
    requires Printable(s)
    ensures Lines(s) == if s == [] then [] else [s]
  {
    AllOneLine(s);
    assert s[..|s|] == s;
  }

  lemma {:induction false} AllOneLine(s: string)
    requires Printable(s)
    ensures FirstNewline(s) == |s|
  {
    if s != [] {
      assert s[0] in s;
      AllOneLine(s[1..]);
    }
  }

  ghost predicate PrefixOfSome(l: string, lines: seq<string>) { exists i :: 0 <= i < |lines| && l <= lines[i] }

  /** Every line of a cut file is the beginning of a line of the whole one. */
  lemma {:induction false} CutLines(lines: seq<string>, n: nat, l: string)
    requires AllPrintable(lines) && n <= |Join(lines)| && l in Lines(Join(lines)[..n])
    ensures PrefixOfSome(l, lines)
    decreases |lines|
  {
    if lines != [] {
      var first, rest, text := lines[0], Join(lines[1..]), Join(lines);
      assert text == first + "\n" + rest;
      if n <= |first| {
        assert text[..n] == first[..n];
        NoNewline(first[..n]);
      } else {
        var m := n - |first| - 1;
        assert text[..n] == first + "\n" + rest[..m];
        FirstLine(first, rest[..m]);
        if l != first {
          CutLines(lines[1..], m, l);
          var i :| 0 <= i < |lines[1..]| && l <= lines[1..][i];
          assert lines[1..][i] == lines[i + 1];
        }
      }
    }
  }

  lemma {:induction false} ScannedMember(lines: seq<string>, x: string)
    requires x in Scanned(lines)
    ensures exists i :: 0 <= i < |lines| && |lines[i]| <= MAX_SCAN_LINE && x == DropCR(lines[i])
  {
    if x != DropCR(lines[0]) {
      ScannedMember(lines[1..], x);
      var i :| 0 <= i < |lines[1..]| && |lines[1..][i]| <= MAX_SCAN_LINE && x == DropCR(lines[1..][i]);
      assert lines[1..][i] == lines[i + 1];
    }
  }

  lemma SeenHarmless(lines: seq<string>, x: string)
    requires SafeLines(lines) && x in Seen(Join(lines))
    ensures !Fatal(x)
  {
    var text := Join(lines);
    var n := if |text| <= MAX_PRIOR_TEXTFILE_BYTES then |text| else MAX_PRIOR_TEXTFILE_BYTES;
    assert Head(text) == text[..n];
    ScannedMember(Lines(text[..n]), x);
    var i :| 0 <= i < |Lines(text[..n])| && |Lines(text[..n])[i]| <= MAX_SCAN_LINE && x == DropCR(Lines(text[..n])[i]);
    var l := Lines(text[..n])[i];
    CutLines(lines, n, l);
    var j :| 0 <= j < |lines| && l <= lines[j];
    PrefixPrintable(l, lines[j]);
    NoReturn(l);
    assert l == lines[j][..|l|];
  }

  lemma PrefixPrintable(l: string, line: string)
    requires l <= line && Printable(line)
    ensures Printable(l)
  {
    forall c | c in l ensures IsPrint(c) {
      var i :| 0 <= i < |l| && l[i] == c;
      assert line[i] in line;
    }
  }

  /** A file printed from a snapshot without risky counter labels is read back without a panic however long it is. */
  lemma CutNeverPanics(s: Snapshot, help: string -> Wording)
    requires Unrisky(METRIC_ATTEMPTS, s.attempts) && Unrisky(METRIC_FAILURES, s.failures)
    ensures ReadPrior(Some(WriteTextfile(s, help))).Some?
  {
    TextSafe(s, help);
    ReadPanicsExactly(Some(WriteTextfile(s, help)));
    var seen := Seen(WriteTextfile(s, help));
    forall i | 0 <= i < |seen| ensures !Fatal(seen[i]) { SeenHarmless(TextLines(s, help), seen[i]); }
  }

  /** Labels without a space are not risky. */
  lemma SpacelessUnrisky(name: string, tag: string)
    requires ' ' !in tag
    ensures !Risky(name, tag)
  {
    var e := Escaped(tag);
    EscapedText(tag);
    forall k | 0 <= k <= |e| ensures !Opening(e[..k]) {
      assert NoSpace(e[..k]);
      if k > 0 { OneField(e[..k]); }
    }
  }
}
