/** The loops that print a snapshot and fold the previous file into it. */
module TextfileWriter {
  import opened Basics
  import opened TextScan
  import opened Textfile
  import StringOrder

  lemma LeastIsFirst(keys: set<string>, k: string)
    requires k in keys && forall j :: j in keys ==> !StringOrder.Less(j, k)
    ensures SortedKeys(keys) == [k] + SortedKeys(keys - {k})
  {
    var first := SortedKeys(keys)[0];
    LeastKeyExists(keys);
    StringOrder.LessTotal(first, k);
  }

  lemma {:induction false} SortedKeysAscend(keys: set<string>, i: nat, j: nat)
    requires i < j < |SortedKeys(keys)|
    ensures StringOrder.Less(SortedKeys(keys)[i], SortedKeys(keys)[j])
  {
    var ks := SortedKeys(keys);
    SortedKeysMembers(keys);
    if i > 0 {
      SortedKeysAscend(keys - {ks[0]}, i - 1, j - 1);
    } else {
      assert ks[0] in keys && ks[j] in ks;
      LeastFirst(keys, ks[j]);
      StringOrder.LessTotal(ks[0], ks[j]);
    }
  }

  lemma LeastFirst(keys: set<string>, k: string)
    requires k in keys
    ensures SortedKeys(keys) != [] && !StringOrder.Less(k, SortedKeys(keys)[0])
  {
    LeastKeyExists(keys);
  }

  /** Exactly the keys of the map, strictly ascending. */
  ghost predicate KeysOf(samples: Counts, keys: seq<string>) {
    (forall k :: k in keys <==> k in samples) && forall i, j :: 0 <= i < j < |keys| ==> StringOrder.Less(keys[i], keys[j])
  }

  method KeysAscending(samples: Counts) returns (keys: seq<string>)
    ensures keys == SortedKeys(samples.Keys) && KeysOf(samples, keys)
  {
    keys := [];
    var rest := samples.Keys;
    while rest != {}
      invariant SortedKeys(samples.Keys) == keys + SortedKeys(rest)
      decreases rest
    {
      LeastKeyExists(rest);
      var k :| k in rest && forall j :: j in rest ==> !StringOrder.Less(j, k);
      LeastIsFirst(rest, k);
      keys, rest := keys + [k], rest - {k};
    }
    SortedKeysMembers(samples.Keys);
    forall i, j | 0 <= i < j < |keys| ensures StringOrder.Less(keys[i], keys[j]) { SortedKeysAscend(samples.Keys, i, j); }
  }

  method WriteSamples(name: string, open: string, samples: Counts) returns (text: string)
    ensures text == Join(SampleLines(name, open, samples, SortedKeys(samples.Keys)))
  {
    var keys := KeysAscending(samples);
    SortedKeysMembers(samples.Keys);
    text := "";
    ghost var rest := Join(SampleLines(name, open, samples, keys));
    for i := 0 to |keys|
      invariant rest == Join(SampleLines(name, open, samples, keys[i..]))
      invariant Join(SampleLines(name, open, samples, keys)) == text + rest
    {
      assert keys[i..][1..] == keys[i + 1..];
      assert keys[i] in keys;
      var line := SampleLine(name, open, keys[i], samples[keys[i]]) + "\n";
      rest := Join(SampleLines(name, open, samples, keys[i + 1..]));
      Spliced(text, line, rest);
      text := text + line;
    }
  }

  method WriteBlock(name: string, kind: string, help: Wording, open: string, samples: Counts) returns (text: string)
    ensures text == Join(Block(name, kind, help, open, samples))
  {
    text := WriteSamples(name, open, samples);
    JoinAppend(Header(name, kind, help), SampleLines(name, open, samples, SortedKeys(samples.Keys)));
    text := Join(Header(name, kind, help)) + text;
  }

  method WriteCounter(name: string, help: Wording, samples: Counts) returns (text: string)
    ensures text == Join(CounterBlock(name, help, samples))
  {
    if |samples| == 0 {
      return "";
    }
    text := WriteBlock(name, "counter", help, SOURCE_PREFIX, samples);
  }

  lemma JoinFive(a: seq<string>, b: seq<string>, c: seq<string>, d: seq<string>, e: seq<string>)
    ensures Join(a + (b + (c + (d + e)))) == Join(a) + (Join(b) + (Join(c) + (Join(d) + Join(e))))
  {
    JoinAppend(a, b + (c + (d + e)));
    JoinAppend(b, c + (d + e));
    JoinAppend(c, d + e);
    JoinAppend(d, e);
  }

  method WriteGauges(s: Snapshot, help: string -> Wording) returns (text: string)
    ensures text == Join(Gauges(s, help))
  {
    var missing := WriteBlock(METRIC_FILES_MISSING, "gauge", help(METRIC_FILES_MISSING), ARCHIVE_PREFIX, s.filesMissing);
    var expected := WriteBlock(METRIC_EXPECTED, "gauge", help(METRIC_EXPECTED), ARCHIVE_PREFIX, s.checksExpected);
    var found := WriteBlock(METRIC_FOUND, "gauge", help(METRIC_FOUND), ARCHIVE_PREFIX, s.checksFound);
    ghost var a := Block(METRIC_FILES_MISSING, "gauge", help(METRIC_FILES_MISSING), ARCHIVE_PREFIX, s.filesMissing);
    ghost var b := Block(METRIC_EXPECTED, "gauge", help(METRIC_EXPECTED), ARCHIVE_PREFIX, s.checksExpected);
    JoinAppend(a + b, Block(METRIC_FOUND, "gauge", help(METRIC_FOUND), ARCHIVE_PREFIX, s.checksFound));
    JoinAppend(a, b);
    text := missing + expected + found;
  }

  /** A run's metrics, updated in place when the previous file is folded in. */
  class MetricsRun {
    var snapshot: Snapshot

    constructor (snapshot: Snapshot)
      ensures this.snapshot == snapshot
    {
      this.snapshot := snapshot;
    }

    method CarryPrior(prior: Prior)
      modifies this
      ensures snapshot == CarryForward(old(snapshot), prior)
    {
      if snapshot.lastSuccess.None? {
        snapshot := snapshot.(lastSuccess := prior.lastSuccess);
      }
      var attempts := AddCounts(snapshot.attempts, prior.attempts);
      var failures := AddCounts(snapshot.failures, prior.failures);
      snapshot := snapshot.(attempts := attempts, failures := failures);
    }

    method Render(help: string -> Wording) returns (text: string)
      ensures text == WriteTextfile(snapshot, help)
    {
      var s := snapshot;
      var gauges := WriteGauges(s, help);
      var attempts := WriteCounter(METRIC_ATTEMPTS, help(METRIC_ATTEMPTS), s.attempts);
      var failures := WriteCounter(METRIC_FAILURES, help(METRIC_FAILURES), s.failures);
      JoinFive(Gauges(s, help), LastSuccessLines(s.lastSuccess, help), DurationLines(s.durationMs, help),
               CounterBlock(METRIC_ATTEMPTS, help(METRIC_ATTEMPTS), s.attempts),
               CounterBlock(METRIC_FAILURES, help(METRIC_FAILURES), s.failures));
      text := gauges + (Join(LastSuccessLines(s.lastSuccess, help)) + (Join(DurationLines(s.durationMs, help)) + (attempts + failures)));
    }

    /** The content that replaces the file; None is a panic while reading the old one. */
    method WriteTextfileAtomic(content: Option<string>, help: string -> Wording) returns (text: Option<string>)
      modifies this
      ensures text.Some? <==> ReadPrior(content).Some?
      ensures text.Some? ==> snapshot == CarryForward(old(snapshot), ReadPrior(content).value)
      ensures text.Some? ==> text.value == WriteTextfile(snapshot, help)
      ensures text.None? ==> snapshot == old(snapshot)
    {
      var prior := ReadPriorTextfile(content);
      if prior.None? {
        return None;
      }
      CarryPrior(prior.value);
      var printed := Render(help);
      text := Some(printed);
    }
  }

  method AddCounts(mine: Counts, prior: Counts) returns (sum: Counts)
    ensures sum == Added(mine, prior)
  {
    sum := mine;
    var todo := prior.Keys;
    while todo != {}
      invariant todo <= prior.Keys && sum.Keys == mine.Keys + (prior.Keys - todo)
      invariant forall k :: k in sum ==> sum[k] == Get(mine, k) + if k in todo then 0 else Get(prior, k)
      decreases todo
    {
      var k :| k in todo;
      sum := sum[k := Get(sum, k) + prior[k]];
      todo := todo - {k};
    }
  }
}
