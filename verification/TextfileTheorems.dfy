/** Reading back what was printed, and conservation of the counters over any sequence of runs. */
module TextfileTheorems {
  import opened TextScan
  import opened Textfile

  // Label values.

  /** Characters %q prints as themselves. */
  predicate SelfPrinting(c: char) { IsPrint(c) && c != '"' && c != '\\' }

  /** A label value that survives: not empty, no space, quote, backslash or control character. */
  predicate Plain(tag: string) { tag != "" && forall c :: c in tag ==> SelfPrinting(c) && c != ' ' }

  lemma EscapeText(c: char)
    ensures Printable(Escape(c)) && |Escape(c)| >= 1
    ensures Escape(c) == [c] <==> SelfPrinting(c)
    ensures |Escape(c)| == 1 ==> Escape(c) == [c]
    ensures NoSpace(Escape(c)) <==> c != ' '
  {
    assert c == ' ' ==> c in Escape(c);
  }

  lemma {:induction false} EscapedText(tag: string)
    ensures Printable(Escaped(tag)) && |Escaped(tag)| >= |tag|
    ensures NoSpace(Escaped(tag)) <==> ' ' !in tag
    ensures Escaped(tag) == tag <==> forall c :: c in tag ==> SelfPrinting(c)
  {
    if tag != [] {
      EscapeText(tag[0]);
      EscapedText(tag[1..]);
      var e, rest := Escape(tag[0]), Escaped(tag[1..]);
      assert Escaped(tag) == e + rest && tag == [tag[0]] + tag[1..];
      assert ' ' in tag <==> tag[0] == ' ' || ' ' in tag[1..];
      if |e| == 1 {
        assert Escaped(tag)[0] == e[0] && Escaped(tag)[1..] == rest;
      } else {
        assert |Escaped(tag)| > |tag|;
      }
    }
  }

  // Metric names.

  predicate MetricName(name: string) {
    name != "" && NoSpace(name) && Printable(name) && '{' !in name && name[0] != '#'
  }

  lemma {:induction false} FirstBrace(name: string, rest: string)
    requires '{' !in name && rest != [] && rest[0] == '{'
    ensures IndexOf(name + rest, '{') == |name|
  {
    if name == [] {
      assert name + rest == rest;
    } else {
      assert name[0] in name;
      FirstBrace(name[1..], rest);
      assert (name + rest)[1..] == name[1..] + rest;
    }
  }

  lemma {:induction false} NoBrace(name: string)
    requires '{' !in name
    ensures IndexOf(name, '{') == |name|
  {
    if name != [] {
      assert name[0] in name;
      NoBrace(name[1..]);
    }
  }

  // One sample line.

  predicate Opener(open: string) { open == SOURCE_PREFIX || open == ARCHIVE_PREFIX }

  lemma OpenerText(open: string)
    requires Opener(open)
    ensures NoSpace(open) && Printable(open) && open != [] && open[0] == '{'
    ensures NoSpace(LABEL_END) && Printable(LABEL_END)
  {
  }

  lemma TextAppend(s: string, t: string)
    ensures NoSpace(s + t) <==> NoSpace(s) && NoSpace(t)
    ensures Printable(s + t) <==> Printable(s) && Printable(t)
  {
    assert forall c :: c in s + t <==> c in s || c in t;
  }

  lemma KeyText(name: string, open: string, tag: string)
    requires MetricName(name) && Opener(open)
    ensures var key := SampleKey(name, open, tag);
            && Printable(key) && key != [] && key[0] == name[0] && key[|key| - 1] == '}'
            && (NoSpace(key) <==> ' ' !in tag)
  {
    EscapedText(tag);
    OpenerText(open);
    TextAppend(open, Escaped(tag));
    TextAppend(open + Escaped(tag), LABEL_END);
    TextAppend(name, open + Escaped(tag) + LABEL_END);
  }

  lemma LineFields(name: string, open: string, tag: string, v: int)
    requires MetricName(name) && Opener(open)
    ensures var line := SampleLine(name, open, tag, v);
            if ' ' in tag then |Fields(line)| > 2 else Fields(line) == [SampleKey(name, open, tag), Int(v)]
  {
    var key := SampleKey(name, open, tag);
    KeyText(name, open, tag);
    IntText(v);
    LastField(key, Int(v));
    assert name[0] in name;
    if ' ' in tag { SeveralFields(key); } else { OneField(key); }
  }

  lemma KeySplits(name: string, open: string, tag: string)
    requires MetricName(name) && Opener(open)
    ensures var key := SampleKey(name, open, tag);
            IndexOf(key, '{') == |name| < |key| && key[..|name|] == name
            && key[|name|..] == open + Escaped(tag) + LABEL_END
  {
    OpenerText(open);
    FirstBrace(name, open + Escaped(tag) + LABEL_END);
  }

  predicate InInt64(v: int) { -MAX_INT64 - 1 <= v <= MAX_INT64 }

  lemma LabelsParse(name: string, e: string, v: int)
    ensures ParseLabels(name, SOURCE_PREFIX + e + LABEL_END, v) == if e == "" then Skip else Sample(name, e, v)
  {
    var labels := SOURCE_PREFIX + e + LABEL_END;
    assert SOURCE_PREFIX <= labels;
    assert labels[|labels| - 2..] == LABEL_END;
    assert labels[|SOURCE_PREFIX|..|labels| - 2] == e;
  }

  /** Exactly what a printed counter sample reads back as. */
  lemma SampleReadsBack(name: string, tag: string, v: int)
    requires MetricName(name) && InInt64(v)
    ensures ParseSample(SampleLine(name, SOURCE_PREFIX, tag, v)) ==
            if tag == "" || ' ' in tag then Skip else Sample(name, Escaped(tag), v)
  {
    LineFields(name, SOURCE_PREFIX, tag, v);
    if ' ' !in tag {
      KeySplits(name, SOURCE_PREFIX, tag);
      ParseOfInt(v);
      EscapedText(tag);
      LabelsParse(name, Escaped(tag), v);
    }
  }

  /** A counter sample survives the round trip exactly when its label value is plain. */
  lemma SampleRoundTrip(name: string, tag: string, v: int)
    requires MetricName(name) && InInt64(v)
    ensures ParseSample(SampleLine(name, SOURCE_PREFIX, tag, v)) == Sample(name, tag, v) <==> Plain(tag)
  {
    SampleReadsBack(name, tag, v);
    EscapedText(tag);
  }

  /** A gauge sample is never taken for a counter, whatever its label value. */
  lemma GaugeSkipped(name: string, tag: string, v: int)
    requires MetricName(name)
    ensures ParseSample(SampleLine(name, ARCHIVE_PREFIX, tag, v)) == Skip
  {
    LineFields(name, ARCHIVE_PREFIX, tag, v);
    if ' ' !in tag {
      KeySplits(name, ARCHIVE_PREFIX, tag);
      NotASource(Escaped(tag) + LABEL_END);
      assert ARCHIVE_PREFIX + Escaped(tag) + LABEL_END == ARCHIVE_PREFIX + (Escaped(tag) + LABEL_END);
    }
  }

  lemma NotASource(rest: string)
    ensures !(SOURCE_PREFIX <= ARCHIVE_PREFIX + rest)
  {
    assert (ARCHIVE_PREFIX + rest)[1] == 'a' && SOURCE_PREFIX[1] == 's';
  }

  /** The reader panics on exactly one malformed label: an opened `{source="` closed by `}` alone. */
  lemma PanicExactly(line: string)
    ensures ParseSample(line) == Panic <==>
              && |Fields(line)| == 2 && ParseInt(Fields(line)[1]).Some?
              && Fields(line)[0][IndexOf(Fields(line)[0], '{')..] == "{source=\"}"
  {
    var fields := Fields(line);
    if |fields| == 2 && ParseInt(fields[1]).Some? {
      var labels := fields[0][IndexOf(fields[0], '{')..];
      if labels != [] && SOURCE_PREFIX <= labels && HasSuffix(labels, LABEL_END) && |labels| < |SOURCE_PREFIX| + 2 {
        assert |labels| == 9 || |labels| == 10;
        assert labels[..9] == SOURCE_PREFIX;
        assert labels[|labels| - 2..] == LABEL_END;
        assert labels[|labels| - 1] == '}';
        assert labels == SOURCE_PREFIX + "}";
      }
      assert "{source=\"}"[8..] == LABEL_END;
    }
  }
}
