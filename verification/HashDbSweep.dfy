/** The ledger-hash verifier: one pass over a window, how it is classified, and the drift counter fed by many passes. */
module HashDbSweep {
  import opened Basics

  const MAX_DRIFT_SEQS_REPORTED: nat := 64

  /** What the hash database says about one ledger's fresh hash. */
  datatype Verdict = Match | Drift | Missing | OutOfRange | IOError

  datatype VerifyResult = VerifyResult(
    from: nat, to: nat, verified: nat, drifted: nat, missing: nat, outOfRange: nat, driftSeqs: seq<nat>)

  function Tally(res: VerifyResult, ledger: nat, v: Verdict): VerifyResult {
    match v
    case Match => res.(verified := res.verified + 1)
    case Drift =>
      res.(drifted := res.drifted + 1,
           driftSeqs := if |res.driftSeqs| < MAX_DRIFT_SEQS_REPORTED then res.driftSeqs + [ledger] else res.driftSeqs)
    case Missing => res.(missing := res.missing + 1)
    case OutOfRange => res.(outOfRange := res.outOfRange + 1)
    case IOError => res
  }

  /** The verifier accumulates its result in place; `db` is absent when no database was opened. */
  class WindowVerifier<Hash> {
    const db: Option<(nat, Hash) -> Verdict>
    var res: VerifyResult

    constructor (db: Option<(nat, Hash) -> Verdict>, from: nat, to: nat)
      ensures this.db == db && res == VerifyResult(from, to, 0, 0, 0, 0, [])
    {
      this.db, res := db, VerifyResult(from, to, 0, 0, 0, 0, []);
    }

    /** Fails only when the ledger could not be checked; a mismatch is data. */
    method Observe(ledger: nat, observed: Hash) returns (ok: bool)
      modifies this
      ensures ok <==> db.Some? && db.value(ledger, observed) != IOError
      ensures res == if ok then Tally(old(res), ledger, db.value(ledger, observed)) else old(res)
    {
      if db.None? {
        return false;
      }
      match db.value(ledger, observed) {
        case Match =>
          res := res.(verified := res.verified + 1);
        case Drift =>
          res := res.(drifted := res.drifted + 1);
          if |res.driftSeqs| < MAX_DRIFT_SEQS_REPORTED {
            res := res.(driftSeqs := res.driftSeqs + [ledger]);
          }
        case Missing =>
          res := res.(missing := res.missing + 1);
        case OutOfRange =>
          res := res.(outOfRange := res.outOfRange + 1);
        case IOError =>
          return false;
      }
      ok := true;
    }
  }

  // One pass.

  datatype Observation = Observation(ledger: nat, verdict: Verdict)

  ghost predicate Checked(obs: seq<Observation>) { forall i :: 0 <= i < |obs| ==> obs[i].verdict != IOError }

  function Pass(from: nat, to: nat, obs: seq<Observation>): VerifyResult {
    if obs == [] then VerifyResult(from, to, 0, 0, 0, 0, [])
    else Tally(Pass(from, to, obs[..|obs| - 1]), obs[|obs| - 1].ledger, obs[|obs| - 1].verdict)
  }

  datatype StreamError = NoError | Canceled | OtherError

  datatype Outcome = Shutdown | DriftFound | Error | Incomplete | OK

  /** int(to-from)+1 with the subtraction in uint32. */
  function WindowSize(from: nat, to: nat): nat { (to - from) % 0x1_0000_0000 + 1 }

  predicate SweepComplete(res: VerifyResult, observed: nat, from: nat, to: nat) {
    observed == WindowSize(from, to) && res.verified > 0
  }

  function Classify(res: VerifyResult, err: StreamError, from: nat, to: nat): Outcome {
    if res.drifted > 0 then DriftFound
    else if err == Canceled then Shutdown
    else if err != NoError then Error
    else if !SweepComplete(res, res.verified + res.drifted + res.missing + res.outOfRange, from, to) then Incomplete
    else OK
  }

  function DriftedLedgers(obs: seq<Observation>): seq<nat> {
    if obs == [] then []
    else
      var o := obs[|obs| - 1];
      DriftedLedgers(obs[..|obs| - 1]) + if o.verdict == Drift then [o.ledger] else []
  }

  /** The counts partition the observations; the drift sample is the first 64 drifted ledgers. */
  lemma {:induction false} PassCounts(from: nat, to: nat, obs: seq<Observation>)
    requires Checked(obs)
    ensures var res := Pass(from, to, obs);
            && res.verified + res.drifted + res.missing + res.outOfRange == |obs|
            && res.drifted == |DriftedLedgers(obs)|
            && res.driftSeqs == DriftedLedgers(obs)[..Min(res.drifted, MAX_DRIFT_SEQS_REPORTED)]
            && (res.verified > 0 <==> exists i :: 0 <= i < |obs| && obs[i].verdict == Match)
            && (res.drifted > 0 <==> exists i :: 0 <= i < |obs| && obs[i].verdict == Drift)
  {
    if obs != [] {
      var init, last := obs[..|obs| - 1], |obs| - 1;
      PassCounts(from, to, init);
      SomeVerdict(obs, Match);
      SomeVerdict(obs, Drift);
    }
  }

  lemma SomeVerdict(obs: seq<Observation>, v: Verdict)
    requires obs != []
    ensures var init := obs[..|obs| - 1];
            (exists i :: 0 <= i < |obs| && obs[i].verdict == v) <==>
            obs[|obs| - 1].verdict == v || exists i :: 0 <= i < |init| && init[i].verdict == v
  {
    var init := obs[..|obs| - 1];
    if i :| 0 <= i < |init| && init[i].verdict == v { assert obs[i].verdict == v; }
    if i :| 0 <= i < |obs| && obs[i].verdict == v { assert i < |init| ==> init[i].verdict == v; }
  }

  /** The ledgers from `from` to `to`, both included. */
  function Window(from: nat, to: nat): (w: set<nat>)
    ensures forall l :: l in w <==> from <= l <= to
    ensures from <= to ==> |w| == to - from + 1
    decreases if from <= to then to - from + 1 else 0
  {
    if from > to then {} else {from} + Window(from + 1, to)
  }

  function Ledgers(obs: seq<Observation>): set<nat> {
    if obs == [] then {} else Ledgers(obs[..|obs| - 1]) + {obs[|obs| - 1].ledger}
  }

  lemma {:induction false} LedgersMembers(obs: seq<Observation>, l: nat)
    ensures l in Ledgers(obs) <==> exists i :: 0 <= i < |obs| && obs[i].ledger == l
  {
    if obs != [] {
      var init, last := obs[..|obs| - 1], |obs| - 1;
      LedgersMembers(init, l);
      if i :| 0 <= i < |init| && init[i].ledger == l { assert obs[i].ledger == l; }
      if i :| 0 <= i < |obs| && obs[i].ledger == l { assert i < last ==> init[i].ledger == l; }
    }
  }

  ghost predicate DifferentLedgers(obs: seq<Observation>) {
    forall i, j :: 0 <= i < j < |obs| ==> obs[i].ledger != obs[j].ledger
  }

  ghost predicate Inside(from: nat, to: nat, obs: seq<Observation>) {
    forall i :: 0 <= i < |obs| ==> from <= obs[i].ledger <= to
  }

  lemma {:induction false} DistinctLedgers(obs: seq<Observation>)
    requires DifferentLedgers(obs)
    ensures |Ledgers(obs)| == |obs|
  {
    if obs != [] {
      var init := obs[..|obs| - 1];
      DistinctLedgers(init);
      LedgersMembers(init, obs[|obs| - 1].ledger);
    }
  }

  lemma SubsetOfSameSize<T>(a: set<T>, b: set<T>)
    requires a <= b && |a| == |b|
    ensures a == b
  {
    assert |b - a| == 0;
  }

  /** The positions of the observations with one verdict. */
  ghost function With(obs: seq<Observation>, v: Verdict): set<nat> { set i | 0 <= i < |obs| && obs[i].verdict == v }

  lemma WithNext(obs: seq<Observation>, v: Verdict)
    requires obs != []
    ensures var n := |obs| - 1; |With(obs, v)| == |With(obs[..n], v)| + if obs[n].verdict == v then 1 else 0
  {
    var n := |obs| - 1;
    assert With(obs, v) == With(obs[..n], v) + if obs[n].verdict == v then {n} else {};
  }

  /** Each tally is the number of observations with its verdict, over the window given. */
  lemma {:induction false} TalliesExactly(from: nat, to: nat, obs: seq<Observation>)
    ensures var res := Pass(from, to, obs);
            && res.from == from && res.to == to
            && res.verified == |With(obs, Match)| && res.drifted == |With(obs, Drift)|
            && res.missing == |With(obs, Missing)| && res.outOfRange == |With(obs, OutOfRange)|
  {
    if obs == [] {
      assert With(obs, Match) == {} && With(obs, Drift) == {} && With(obs, Missing) == {} && With(obs, OutOfRange) == {};
    } else {
      TalliesExactly(from, to, obs[..|obs| - 1]);
      WithNext(obs, Match);
      WithNext(obs, Drift);
      WithNext(obs, Missing);
      WithNext(obs, OutOfRange);
    }
  }

  ghost predicate Saw(obs: seq<Observation>, v: Verdict) { exists i :: 0 <= i < |obs| && obs[i].verdict == v }

  /**
   What each outcome means. Drift outranks every stream error. A clean verdict is earned: every
   ledger of the window was observed, none drifted, and at least one hash matched.
   */
  lemma OutcomeExactly(from: nat, to: nat, obs: seq<Observation>, err: StreamError)
    requires from <= to < 0x1_0000_0000 && Checked(obs)
    requires DifferentLedgers(obs)
    requires Inside(from, to, obs)
    ensures var outcome, whole := Classify(Pass(from, to, obs), err, from, to), Ledgers(obs) == Window(from, to) && Saw(obs, Match);
            && (outcome == DriftFound <==> Saw(obs, Drift))
            && (outcome == Shutdown <==> !Saw(obs, Drift) && err == Canceled)
            && (outcome == Error <==> !Saw(obs, Drift) && err == OtherError)
            && (outcome == Incomplete <==> !Saw(obs, Drift) && err == NoError && !whole)
            && (outcome == OK <==> !Saw(obs, Drift) && err == NoError && whole)
  {
    PassCounts(from, to, obs);
    FullCount(from, to, obs);
  }

  lemma LedgersInside(from: nat, to: nat, obs: seq<Observation>)
    requires Inside(from, to, obs)
    ensures Ledgers(obs) <= Window(from, to)
  {
    forall l | l in Ledgers(obs) ensures l in Window(from, to) {
      LedgersMembers(obs, l);
    }
  }

  lemma WindowSizeExact(from: nat, to: nat)
    requires from <= to < 0x1_0000_0000
    ensures |Window(from, to)| == WindowSize(from, to)
  {
  }

  lemma SubsetFills<T>(a: set<T>, b: set<T>, m: nat, n: nat)
    requires a <= b && |a| == m && |b| == n
    ensures m == n <==> a == b
  {
    if m == n { SubsetOfSameSize(a, b); }
  }

  /** Pigeonhole: as many distinct in-window ledgers as the window holds are all of them. */
  lemma FullCount(from: nat, to: nat, obs: seq<Observation>)
    requires from <= to < 0x1_0000_0000
    requires DifferentLedgers(obs)
    requires Inside(from, to, obs)
    ensures |obs| == WindowSize(from, to) <==> Ledgers(obs) == Window(from, to)
  {
    DistinctLedgers(obs);
    LedgersInside(from, to, obs);
    WindowSizeExact(from, to);
    SubsetFills(Ledgers(obs), Window(from, to), |obs|, WindowSize(from, to));
  }

  // Many passes.

  function SetOf(s: seq<nat>): set<nat> { set l | l in s }

  function Reported(res: VerifyResult): set<nat> { SetOf(res.driftSeqs) }

  function Excess(res: VerifyResult): nat {
    if res.drifted > |res.driftSeqs| then res.drifted - |res.driftSeqs| else 0
  }

  /**
   The ledgers already counted, and the running total published. The periodic sweep remembers;
   a one-off pass has no memory.
   */
  class DriftCounter {
    const remembers: bool
    var seen: set<nat>
    var total: nat

    constructor (remembers: bool)
      ensures this.remembers == remembers && seen == {} && total == 0
    {
      this.remembers, seen, total := remembers, {}, 0;
    }

    method CountNewDrift(res: VerifyResult) returns (newly: nat)
      modifies this
      ensures remembers ==> newly == |Reported(res) - old(seen)| + Excess(res) && seen == old(seen) + Reported(res)
      ensures !remembers ==> newly == res.drifted && seen == old(seen)
      ensures total == old(total) + newly
    {
      if !remembers {
        newly := res.drifted;
      } else {
        newly := CountUnseen(res.driftSeqs);
        if res.drifted - |res.driftSeqs| > 0 {
          newly := newly + (res.drifted - |res.driftSeqs|);
        }
      }
      total := total + newly;
    }

    method CountUnseen(ledgers: seq<nat>) returns (newly: nat)
      modifies this`seen
      ensures newly == |SetOf(ledgers) - old(seen)| && seen == old(seen) + SetOf(ledgers)
    {
      newly := 0;
      ghost var before := seen;
      for i := 0 to |ledgers|
        invariant seen == before + SetOf(ledgers[..i]) && newly == |seen - before|
      {
        GrowSet(ledgers, i);
        if ledgers[i] !in seen {
          CountOne(seen, before, ledgers[i]);
          seen := seen + {ledgers[i]};
          newly := newly + 1;
        }
      }
      assert ledgers[..|ledgers|] == ledgers;
      assert seen - before == SetOf(ledgers) - before;
    }
  }

  lemma GrowSet(s: seq<nat>, i: nat)
    requires i < |s|
    ensures SetOf(s[..i + 1]) == SetOf(s[..i]) + {s[i]}
  {
    assert s[..i + 1] == s[..i] + [s[i]];
  }

  lemma CountOne(seen: set<nat>, before: set<nat>, ledger: nat)
    requires before <= seen && ledger !in seen
    ensures |seen + {ledger} - before| == |seen - before| + 1
  {
    assert seen + {ledger} - before == (seen - before) + {ledger};
  }

  /** Total and memory after a sequence of passes through CountNewDrift. */
  function AfterSweeps(sweeps: seq<VerifyResult>): (set<nat>, nat) {
    if sweeps == [] then ({}, 0)
    else
      var (seen, total) := AfterSweeps(sweeps[..|sweeps| - 1]);
      var res := sweeps[|sweeps| - 1];
      (seen + Reported(res), total + |Reported(res) - seen| + Excess(res))
  }

  /** The periodic sweep: one counter with a memory, a pass at every tick. */
  method CountSweeps(sweeps: seq<VerifyResult>) returns (total: nat, seen: set<nat>)
    ensures (seen, total) == AfterSweeps(sweeps)
  {
    var counter := new DriftCounter(true);
    for i := 0 to |sweeps|
      invariant fresh(counter) && counter.remembers && (counter.seen, counter.total) == AfterSweeps(sweeps[..i])
    {
      var newly := counter.CountNewDrift(sweeps[i]);
      assert sweeps[..i + 1][..i] == sweeps[..i];
    }
    assert sweeps[..|sweeps|] == sweeps;
    total, seen := counter.total, counter.seen;
  }

  function SumExcess(sweeps: seq<VerifyResult>): nat {
    if sweeps == [] then 0 else SumExcess(sweeps[..|sweeps| - 1]) + Excess(sweeps[|sweeps| - 1])
  }

  function AllReported(sweeps: seq<VerifyResult>): set<nat> {
    if sweeps == [] then {} else AllReported(sweeps[..|sweeps| - 1]) + Reported(sweeps[|sweeps| - 1])
  }

  /** The published total is the number of distinct reported ledgers plus what overflowed the sample. */
  lemma {:induction false} TotalCountsDistinct(sweeps: seq<VerifyResult>)
    ensures AfterSweeps(sweeps).0 == AllReported(sweeps)
    ensures AfterSweeps(sweeps).1 == |AllReported(sweeps)| + SumExcess(sweeps)
  {
    if sweeps != [] {
      var init, res := sweeps[..|sweeps| - 1], sweeps[|sweeps| - 1];
      TotalCountsDistinct(init);
      var seen := AllReported(init);
      assert AllReported(sweeps) == seen + (Reported(res) - seen);
    }
  }

  /** The drifted ledgers of all passes over all windows. */
  function AllDrifted(passes: seq<seq<Observation>>): set<nat> {
    if passes == [] then {}
    else
      var last := DriftedLedgers(passes[|passes| - 1]);
      AllDrifted(passes[..|passes| - 1]) + set l | l in last
  }

  function Results(passes: seq<seq<Observation>>): (r: seq<VerifyResult>)
    ensures |r| == |passes|
  {
    seq(|passes|, i requires 0 <= i < |passes| => Pass(0, 0, passes[i]))
  }

  /** With at most 64 drifts per pass, overlapping windows count every drifted ledger exactly once. */
  lemma {:induction false} DriftCountedOnce(passes: seq<seq<Observation>>)
    requires forall i :: 0 <= i < |passes| ==> Checked(passes[i]) && |DriftedLedgers(passes[i])| <= MAX_DRIFT_SEQS_REPORTED
    ensures AfterSweeps(Results(passes)).1 == |AllDrifted(passes)|
  {
    TotalCountsDistinct(Results(passes));
    NothingOverflows(passes);
  }

  lemma {:induction false} NothingOverflows(passes: seq<seq<Observation>>)
    requires forall i :: 0 <= i < |passes| ==> Checked(passes[i]) && |DriftedLedgers(passes[i])| <= MAX_DRIFT_SEQS_REPORTED
    ensures SumExcess(Results(passes)) == 0 && AllReported(Results(passes)) == AllDrifted(passes)
  {
    if passes != [] {
      var init, last := passes[..|passes| - 1], passes[|passes| - 1];
      NothingOverflows(init);
      var rs := Results(passes);
      assert rs[..|rs| - 1] == Results(init);
      PassCounts(0, 0, last);
      assert DriftedLedgers(last)[..|DriftedLedgers(last)|] == DriftedLedgers(last);
    }
  }

  /** Drifts beyond the 64 a pass reports. */
  function Unreported(passes: seq<seq<Observation>>): nat {
    if passes == [] then 0
    else
      var n := |DriftedLedgers(passes[|passes| - 1])|;
      Unreported(passes[..|passes| - 1]) + if n > 64 then n - 64 else 0
  }

  lemma {:induction false} ExcessIsUnreported(passes: seq<seq<Observation>>)
    requires forall i :: 0 <= i < |passes| ==> Checked(passes[i])
    ensures SumExcess(Results(passes)) == Unreported(passes)
  {
    if passes != [] {
      var init, last := passes[..|passes| - 1], passes[|passes| - 1];
      ExcessIsUnreported(init);
      var rs := Results(passes);
      assert rs[..|rs| - 1] == Results(init);
      PassCounts(0, 0, last);
    }
  }

  /** Over any passes the total is the number of distinct reported ledgers plus every drift a pass could not report. */
  lemma DriftTotalExactly(passes: seq<seq<Observation>>)
    requires forall i :: 0 <= i < |passes| ==> Checked(passes[i])
    ensures AfterSweeps(Results(passes)).1 == |AllReported(Results(passes))| + Unreported(passes)
  {
    TotalCountsDistinct(Results(passes));
    ExcessIsUnreported(passes);
  }
}
