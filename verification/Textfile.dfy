/** The metrics textfile: what a run prints, what the next run reads back, and what it carries forward. */
module Textfile {
  import opened Basics
  import opened Decimal
  import opened TextScan
  import StringOrder

  const ARCHIVE: string := "archive_"
  const NAMESPACE: string := ARCHIVE + "completeness_"
  const METRIC_LAST_SUCCESS: string := NAMESPACE + "last_success_timestamp"
  const METRIC_ATTEMPTS: string := NAMESPACE + "repair_attempts_total"
  const METRIC_FAILURES: string := NAMESPACE + "repair_failures_total"
  const METRIC_DURATION: string := NAMESPACE + "run_duration_seconds"
  const METRIC_FILES_MISSING: string := ARCHIVE + "files_missing"
  const METRIC_EXPECTED: string := ARCHIVE + "checkpoints_expected"
  const METRIC_FOUND: string := ARCHIVE + "checkpoints_found"
  const MAX_PRIOR_TEXTFILE_BYTES: nat := 1048576

  type Counts = map<string, int>

  /** The wording of a metric's HELP comment; the reader never looks at it. */
  type Wording = s: string | Printable(s) witness ""

  /** One run's metrics. The duration is in milliseconds; no clean run is `None`, otherwise Unix seconds. */
  datatype Snapshot = Snapshot(
    filesMissing: Counts, checksExpected: Counts, checksFound: Counts, durationMs: nat,
    lastSuccess: Option<int>, attempts: Counts, failures: Counts)

  /** The part of a written file that survives a rewrite. */
  datatype Prior = Prior(lastSuccess: Option<int>, attempts: Counts, failures: Counts)

  const NO_PRIOR: Prior := Prior(None, map[], map[])

  function Get(m: Counts, k: string): int { if k in m then m[k] else 0 }

  // Printing.

  /** One character of Go's %q for ASCII. */
  function Escape(c: char): string {
    if c == '"' || c == '\\' then ['\\', c]
    else if IsPrint(c) then [c]
    else if c == '\n' then "\\n"
    else if c == '\t' then "\\t"
    else if c == '\r' then "\\r"
    else if c as int == 7 then "\\a"
    else if c as int == 8 then "\\b"
    else if c as int == 11 then "\\v"
    else if c as int == 12 then "\\f"
    else "\\x" + [HexDigit(c as int / 16 % 16), HexDigit(c as int % 16)]
  }

  function HexDigit(d: nat): (c: char)
    requires d < 16
    ensures IsPrint(c) && c != ' '
  {
    if d < 10 then '0' + d as char else 'a' + (d - 10) as char
  }

  function Escaped(s: string): string {
    if s == [] then [] else Escape(s[0]) + Escaped(s[1..])
  }

  const SOURCE_PREFIX: string := "{source=\""
  const ARCHIVE_PREFIX: string := "{archive=\""
  const LABEL_END: string := "\"}"

  /** Metric name and label: `open` is the brace, the label key and the opening quote. */
  function SampleKey(name: string, open: string, tag: string): string { name + (open + Escaped(tag) + LABEL_END) }

  function SampleLine(name: string, open: string, tag: string, v: int): string {
    SampleKey(name, open, tag) + " " + Int(v)
  }

  lemma {:induction false} LeastKey(keys: set<string>) returns (least: string)
    requires keys != {}
    ensures least in keys && forall k :: k in keys ==> !StringOrder.Less(k, least)
  {
    least :| least in keys;
    var rest := keys - {least};
    if rest == {} {
      forall k | k in keys ensures !StringOrder.Less(k, least) {
        assert k == least || k in rest;
        StringOrder.LessIrreflexive(least);
      }
    } else {
      var other := LeastKey(rest);
      if StringOrder.Less(other, least) {
        forall k | k in keys ensures !StringOrder.Less(k, other) {
          if k == least { StringOrder.LessAsymmetric(other, least); }
        }
        least := other;
      } else {
        forall k | k in keys ensures !StringOrder.Less(k, least) {
          if k == least {
            StringOrder.LessIrreflexive(least);
          } else if StringOrder.Less(k, least) {
            StringOrder.LessTotal(other, least);
            if other != least { StringOrder.LessTransitive(k, least, other); }
          }
        }
      }
    }
  }

  lemma LeastKeyExists(keys: set<string>)
    requires keys != {}
    ensures exists k :: k in keys && forall j :: j in keys ==> !StringOrder.Less(j, k)
  {
    var k := LeastKey(keys);
  }

  /** The keys in ascending order. */
  ghost function SortedKeys(keys: set<string>): seq<string> {
    if keys == {} then []
    else
      LeastKeyExists(keys);
      var k :| k in keys && forall j :: j in keys ==> !StringOrder.Less(j, k);
      [k] + SortedKeys(keys - {k})
  }

  lemma {:induction false} SortedKeysMembers(keys: set<string>)
    ensures forall k :: k in SortedKeys(keys) <==> k in keys
    ensures forall i, j :: 0 <= i < j < |SortedKeys(keys)| ==> SortedKeys(keys)[i] != SortedKeys(keys)[j]
  {
    if keys != {} {
      var ks := SortedKeys(keys);
      SortedKeysMembers(keys - {ks[0]});
      assert ks[1..] == SortedKeys(keys - {ks[0]});
      assert ks == [ks[0]] + ks[1..];
    }
  }

  lemma {:induction false} KeyCount(keys: set<string>)
    ensures |SortedKeys(keys)| == |keys|
  {
    if keys != {} {
      var ks := SortedKeys(keys);
      SortedKeysMembers(keys);
      assert ks[0] in keys;
      KeyCount(keys - {ks[0]});
    }
  }

  function SampleLines(name: string, open: string, samples: Counts, keys: seq<string>): seq<string> {
    if keys == [] then []
    else [SampleLine(name, open, keys[0], Get(samples, keys[0]))] + SampleLines(name, open, samples, keys[1..])
  }

  ghost function Block(name: string, kind: string, help: Wording, open: string, samples: Counts): seq<string> {
    Header(name, kind, help) + SampleLines(name, open, samples, SortedKeys(samples.Keys))
  }

  ghost function CounterBlock(name: string, help: Wording, samples: Counts): seq<string> {
    if samples == map[] then [] else Block(name, "counter", help, SOURCE_PREFIX, samples)
  }

  /** Seconds with three decimals. */
  function Seconds(ms: nat): string {
    Digits(ms / 1000) + "." + Digits(ms / 100 % 10) + Digits(ms / 10 % 10) + Digits(ms % 10)
  }

  function Header(name: string, kind: string, help: Wording): seq<string> {
    ["# HELP " + name + " " + help, "# TYPE " + name + " " + kind]
  }

  function DurationLines(ms: nat, help: string -> Wording): seq<string> {
    if ms == 0 then [] else Header(METRIC_DURATION, "gauge", help(METRIC_DURATION)) + [METRIC_DURATION + " " + Seconds(ms)]
  }

  ghost function Gauges(s: Snapshot, help: string -> Wording): seq<string> {
    Block(METRIC_FILES_MISSING, "gauge", help(METRIC_FILES_MISSING), ARCHIVE_PREFIX, s.filesMissing)
    + Block(METRIC_EXPECTED, "gauge", help(METRIC_EXPECTED), ARCHIVE_PREFIX, s.checksExpected)
    + Block(METRIC_FOUND, "gauge", help(METRIC_FOUND), ARCHIVE_PREFIX, s.checksFound)
  }

  function LastSuccessLines(lastSuccess: Option<int>, help: string -> Wording): seq<string> {
    Header(METRIC_LAST_SUCCESS, "gauge", help(METRIC_LAST_SUCCESS))
    + [METRIC_LAST_SUCCESS + " " + Int(if lastSuccess.Some? then lastSuccess.value else 0)]
  }

  ghost function Counters(s: Snapshot, help: string -> Wording): seq<string> {
    CounterBlock(METRIC_ATTEMPTS, help(METRIC_ATTEMPTS), s.attempts) + CounterBlock(METRIC_FAILURES, help(METRIC_FAILURES), s.failures)
  }

  ghost function TextLines(s: Snapshot, help: string -> Wording): seq<string> {
    Gauges(s, help) + (LastSuccessLines(s.lastSuccess, help) + (DurationLines(s.durationMs, help) + Counters(s, help)))
  }

  ghost function WriteTextfile(s: Snapshot, help: string -> Wording): string { Join(TextLines(s, help)) }

  // Reading.

  /** Skip is ok == false; Panic is the slice expression out of range. */
  datatype Parsed = Sample(name: string, tag: string, value: int) | Skip | Panic

  function IndexOf(s: string, c: char): (n: nat)
    ensures n <= |s| && (n < |s| ==> s[n] == c)
  {
    if s == [] || s[0] == c then 0 else 1 + IndexOf(s[1..], c)
  }

  function ParseLabels(name: string, labels: string, v: int): Parsed {
    if !(SOURCE_PREFIX <= labels) || !HasSuffix(labels, LABEL_END) then Skip
    else if |SOURCE_PREFIX| > |labels| - 2 then Panic
    else
      var tag := labels[|SOURCE_PREFIX|..|labels| - 2];
      if tag == "" then Skip else Sample(name, tag, v)
  }

  function ParseSample(line: string): Parsed {
    var fields := Fields(line);
    if |fields| != 2 || ParseInt(fields[1]).None? then Skip
    else
      var open := IndexOf(fields[0], '{');
      var v := ParseInt(fields[1]).value;
      if open < |fields[0]| then ParseLabels(fields[0][..open], fields[0][open..], v)
      else Sample(fields[0], "", v)
  }

  function Bump(m: Counts, tag: string, v: int): Counts {
    if tag != "" && v > 0 then m[tag := Get(m, tag) + v] else m
  }

  /** One line of the read-back loop; None is a panic. */
  function Absorb(p: Prior, line: string): Option<Prior> {
    var text := TrimSpace(line);
    if text == "" || text[0] == '#' then Some(p)
    else
      match ParseSample(text)
      case Panic => None
      case Skip => Some(p)
      case Sample(name, tag, v) => Some(
        if name == METRIC_LAST_SUCCESS then (if v > 0 then p.(lastSuccess := Some(v)) else p)
        else if name == METRIC_ATTEMPTS then p.(attempts := Bump(p.attempts, tag, v))
        else if name == METRIC_FAILURES then p.(failures := Bump(p.failures, tag, v))
        else p)
  }

  function AbsorbAll(p: Prior, lines: seq<string>): Option<Prior>
    decreases |lines|
  {
    if lines == [] then Some(p)
    else if Absorb(p, lines[0]).None? then None
    else AbsorbAll(Absorb(p, lines[0]).value, lines[1..])
  }

  function Head(content: string): string {
    if |content| <= MAX_PRIOR_TEXTFILE_BYTES then content else content[..MAX_PRIOR_TEXTFILE_BYTES]
  }

  /** An absent `content` is a file that could not be opened; an absent result is a panic. */
  function ReadPrior(content: Option<string>): Option<Prior> {
    if content.None? then Some(NO_PRIOR) else AbsorbAll(NO_PRIOR, Scanned(Lines(Head(content.value))))
  }

  method ReadPriorTextfile(content: Option<string>) returns (r: Option<Prior>)
    ensures r == ReadPrior(content)
  {
    var p := NO_PRIOR;
    if content.None? {
      return Some(p);
    }
    var lines := Scanned(Lines(Head(content.value)));
    for i := 0 to |lines|
      invariant AbsorbAll(NO_PRIOR, lines) == AbsorbAll(p, lines[i..])
    {
      assert lines[i..][1..] == lines[i + 1..];
      var next := Absorb(p, lines[i]);
      if next.None? {
        return None;
      }
      p := next.value;
    }
    r := Some(p);
  }

  // Carrying forward.

  function Added(mine: Counts, prior: Counts): Counts {
    map k | k in mine.Keys + prior.Keys :: Get(mine, k) + Get(prior, k)
  }

  function CarryForward(s: Snapshot, p: Prior): Snapshot {
    s.(lastSuccess := if s.lastSuccess.None? then p.lastSuccess else s.lastSuccess,
       attempts := Added(s.attempts, p.attempts),
       failures := Added(s.failures, p.failures))
  }
}
