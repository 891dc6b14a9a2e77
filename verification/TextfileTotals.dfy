/** The counters over any sequence of runs. */
module TextfileTotals {
  import opened Basics
  import opened Textfile
  import opened TextfileTheorems
  import opened TextfileRuns

  /** What the latest run publishes after folding in the file the runs before it left; None if a read-back panicked. */
  ghost function Published(runs: seq<Snapshot>, help: string -> Wording): Option<Snapshot>
    requires runs != []
  {
    var init, last := runs[..|runs| - 1], runs[|runs| - 1];
    var prior := if init == [] then Some(NO_PRIOR)
                 else if Published(init, help).None? then None
                 else ReadPrior(Some(WriteTextfile(Published(init, help).value, help)));
    if prior.None? then None else Some(CarryForward(last, prior.value))
  }

  /** The same without any file: each run's snapshot with the positive part of what came before added. */
  function Folded(runs: seq<Snapshot>): Snapshot
    requires runs != []
  {
    var init, last := runs[..|runs| - 1], runs[|runs| - 1];
    CarryForward(last, if init == [] then NO_PRIOR else ReadBack(Folded(init)))
  }

  function CountsOf(s: Snapshot, attempts: bool): Counts { if attempts then s.attempts else s.failures }

  function Total(runs: seq<Snapshot>, attempts: bool, k: string): int {
    if runs == [] then 0 else Total(runs[..|runs| - 1], attempts, k) + Get(CountsOf(runs[|runs| - 1], attempts), k)
  }

  /** The clean run closest to the end, if there was one. */
  function LatestClean(runs: seq<Snapshot>): Option<int> {
    if runs == [] then None
    else if runs[|runs| - 1].lastSuccess.Some? then runs[|runs| - 1].lastSuccess
    else LatestClean(runs[..|runs| - 1])
  }

  ghost predicate Countable(m: Counts) { forall k :: k in m ==> Plain(k) && m[k] >= 0 }

  /** Labels are plain, counts are not negative, and clean runs happen after 1970. */
  ghost predicate WellFormed(s: Snapshot) {
    && Countable(s.attempts) && Countable(s.failures)
    && (s.lastSuccess.Some? ==> s.lastSuccess.value > 0 && InInt64(s.lastSuccess.value))
  }

  /** The totals stay within 64 bits and the file within the reader's limits. */
  ghost predicate Readable(runs: seq<Snapshot>, help: string -> Wording) {
    && (forall a, k :: InInt64(Total(runs, a, k)))
    && (runs != [] ==> Fits(Folded(runs), help))
  }

  /** Every file left behind before the last run is readable. */
  ghost predicate AllReadable(runs: seq<Snapshot>, help: string -> Wording) {
    forall i :: 0 < i < |runs| ==> Readable(runs[..i], help)
  }

  lemma ReadableInit(runs: seq<Snapshot>, help: string -> Wording)
    requires AllReadable(runs, help) && |runs| > 1
    ensures AllReadable(runs[..|runs| - 1], help) && Readable(runs[..|runs| - 1], help)
  {
    var init := runs[..|runs| - 1];
    forall i | 0 < i < |init| ensures Readable(init[..i], help) { assert init[..i] == runs[..i]; }
  }

  ghost predicate AllWellFormed(runs: seq<Snapshot>) { forall i :: 0 <= i < |runs| ==> WellFormed(runs[i]) }

  /** `m` holds the sums over the runs, under plain labels. */
  ghost predicate Sums(m: Counts, runs: seq<Snapshot>, attempts: bool) {
    Countable(m) && forall k :: Get(m, k) == Total(runs, attempts, k)
  }

  /** `s` publishes the sums over the runs and their latest clean time. */
  ghost predicate SumsUp(s: Snapshot, runs: seq<Snapshot>) {
    s.lastSuccess == LatestClean(runs) && Sums(s.attempts, runs, true) && Sums(s.failures, runs, false)
  }

  lemma AddedSums(mine: Counts, before: Counts, init: seq<Snapshot>, last: Snapshot, attempts: bool)
    requires Countable(mine) && mine == CountsOf(last, attempts) && Sums(before, init, attempts)
    ensures Sums(Added(mine, PositivePart(before)), init + [last], attempts)
  {
    var runs := init + [last];
    assert runs[..|runs| - 1] == init;
    forall k ensures Get(Added(mine, PositivePart(before)), k) == Total(runs, attempts, k) {
      assert Get(before, k) == Total(init, attempts, k);
    }
  }

  lemma FirstSums(mine: Counts, last: Snapshot, attempts: bool)
    requires Countable(mine) && mine == CountsOf(last, attempts)
    ensures Sums(Added(mine, map[]), [last], attempts)
  {
    assert [last][..0] == [];
    forall k ensures Get(Added(mine, map[]), k) == Total([last], attempts, k) { assert Total([], attempts, k) == 0; }
  }

  lemma {:induction false} LatestCleanPositive(runs: seq<Snapshot>)
    requires AllWellFormed(runs)
    ensures PositiveTime(LatestClean(runs)) == LatestClean(runs) && TimeFits(LatestClean(runs))
  {
    if runs != [] {
      assert WellFormed(runs[|runs| - 1]);
      LatestCleanPositive(runs[..|runs| - 1]);
    }
  }

  lemma CarrySumsUp(init: seq<Snapshot>, last: Snapshot, s: Snapshot)
    requires WellFormed(last) && SumsUp(s, init) && PositiveTime(s.lastSuccess) == s.lastSuccess
    ensures SumsUp(CarryForward(last, ReadBack(s)), init + [last])
  {
    AddedSums(last.attempts, s.attempts, init, last, true);
    AddedSums(last.failures, s.failures, init, last, false);
    assert (init + [last])[..|init|] == init;
  }

  /** Folding sums up. */
  lemma {:induction false} FoldedSumsUp(runs: seq<Snapshot>)
    requires runs != [] && AllWellFormed(runs)
    ensures SumsUp(Folded(runs), runs)
  {
    var init, last := runs[..|runs| - 1], runs[|runs| - 1];
    assert runs == init + [last] && WellFormed(last);
    if init == [] {
      FirstRun(last);
    } else {
      FoldedSumsUp(init);
      LatestCleanPositive(init);
      CarrySumsUp(init, last, Folded(init));
    }
  }

  lemma FirstRun(s: Snapshot)
    requires WellFormed(s)
    ensures SumsUp(CarryForward(s, NO_PRIOR), [s])
  {
    FirstSums(s.attempts, s, true);
    FirstSums(s.failures, s, false);
    assert [s][..0] == [] && LatestClean([]) == None;
  }

  lemma SumsSound(m: Counts, runs: seq<Snapshot>, attempts: bool)
    requires Sums(m, runs, attempts) && forall k :: InInt64(Total(runs, attempts, k))
    ensures Sound(m)
  {
    forall k | k in m ensures InInt64(m[k]) { assert Get(m, k) == Total(runs, attempts, k); }
  }

  lemma FoldedPublishable(runs: seq<Snapshot>, help: string -> Wording)
    requires runs != [] && AllWellFormed(runs) && Readable(runs, help)
    ensures Publishable(Folded(runs), help)
  {
    FoldedSumsUp(runs);
    LatestCleanPositive(runs);
    SumsSound(Folded(runs).attempts, runs, true);
    SumsSound(Folded(runs).failures, runs, false);
  }

  /**
   Over any sequence of runs what is published through the file is what folding the runs gives:
   the totals are the sums of the per-run counts, and last success is the latest clean run.
   */
  lemma {:induction false} CountersConserved(runs: seq<Snapshot>, help: string -> Wording)
    requires runs != [] && AllWellFormed(runs)
    requires AllReadable(runs, help)
    ensures Published(runs, help) == Some(Folded(runs)) && SumsUp(Folded(runs), runs)
  {
    FoldedSumsUp(runs);
    var init := runs[..|runs| - 1];
    if init != [] {
      ReadableInit(runs, help);
      CountersConserved(init, help);
      FoldedPublishable(init, help);
      PublishedNext(runs, help);
    }
  }

  lemma PublishedNext(runs: seq<Snapshot>, help: string -> Wording)
    requires |runs| > 1
    requires var init := runs[..|runs| - 1]; Published(init, help) == Some(Folded(init)) && Publishable(Folded(init), help)
    ensures Published(runs, help) == Some(Folded(runs))
  {
    TextfileRoundTrip(Folded(runs[..|runs| - 1]), help);
  }
}
