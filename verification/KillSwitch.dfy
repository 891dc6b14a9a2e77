/**
 Concurrent kill-switch checks of one account: each check stamps its clock, reads the cache,
 reads the store, and reads or overwrites the cache again, with any other step in between.
 */
module KillSwitch {
  import opened Basics
  import opened StatusGate

  datatype Via = FreshCache | Store | RideOut

  /** Let through, turned away as unauthorized, or told to retry because no usable status is at hand. */
  datatype Outcome = Accepted | Refused | StatusUnavailable

  datatype Phase =
    | Called                       // clock stamped, nothing read
    | CacheMissed                  // no fresh entry
    | StoreFailed                  // the store read errored
    | Got(status: Status)          // the store answered, not yet cached
    | Answered(outcome: Outcome, via: Via)

  /** `now` is the time the check was called with. */
  datatype Check = Check(now: int, phase: Phase)

  /** What a check reads of a cached account: its status and when it was stamped. */
  datatype Entry = Entry(status: Status, at: int)

  datatype State = State(clock: int, suspendedAt: Option<int>, entry: Option<Entry>, checks: map<nat, Check>)

  datatype Step =
    | Tick(d: nat)
    | Suspend
    | CallCheck(id: nat)
    | ReadFresh(id: nat)
    | ReadStore(id: nat, answers: bool)
    | ReadStale(id: nat)
    | StoreStatus(id: nat)
    | EvictFor(at: int) // another account's check stores at time `at` and sweeps the map

  function CurrentStatus(s: State): Status { if s.suspendedAt.None? then Active else Inactive }

  function OutcomeOf(status: Status): Outcome { if status == Active then Accepted else Refused }

  predicate EntryWithin(s: State, now: int, window: int) { s.entry.Some? && now - s.entry.value.at <= window }

  predicate At(s: State, id: nat, phase: Phase) { id in s.checks && s.checks[id].phase == phase }

  predicate Enabled(s: State, step: Step) {
    match step
    case Tick(_) => true
    case Suspend => s.suspendedAt.None?
    case CallCheck(id) => id !in s.checks
    case ReadFresh(id) => At(s, id, Called)
    case ReadStore(id, _) => At(s, id, CacheMissed)
    case ReadStale(id) => At(s, id, StoreFailed)
    case StoreStatus(id) => id in s.checks && s.checks[id].phase.Got?
    case EvictFor(at) => at <= s.clock
  }

  function SetPhase(s: State, id: nat, p: Phase): State
    requires id in s.checks
  {
    s.(checks := s.checks[id := s.checks[id].(phase := p)])
  }

  function Sweep(entry: Option<Entry>, at: int, ttl: int): Option<Entry> {
    if entry.Some? && at - entry.value.at > 10 * ttl then None else entry
  }

  function Apply(s: State, step: Step, ttl: int): State
    requires Enabled(s, step)
  {
    match step
    case Tick(d) => s.(clock := s.clock + d)
    case Suspend => s.(suspendedAt := Some(s.clock))
    case CallCheck(id) => s.(checks := s.checks[id := Check(s.clock, Called)])
    case ReadFresh(id) =>
      if EntryWithin(s, s.checks[id].now, ttl)
      then SetPhase(s, id, Answered(OutcomeOf(s.entry.value.status), FreshCache))
      else SetPhase(s, id, CacheMissed)
    case ReadStore(id, answers) => SetPhase(s, id, if answers then Got(CurrentStatus(s)) else StoreFailed)
    case ReadStale(id) =>
      if EntryWithin(s, s.checks[id].now, 10 * ttl)
      then SetPhase(s, id, Answered(OutcomeOf(s.entry.value.status), RideOut))
      else SetPhase(s, id, Answered(StatusUnavailable, RideOut))
    case StoreStatus(id) =>
      var status, now := s.checks[id].phase.status, s.checks[id].now;
      SetPhase(s.(entry := Sweep(Some(Entry(status, now)), now, ttl)), id, Answered(OutcomeOf(status), Store))
    case EvictFor(at) => s.(entry := Sweep(s.entry, at, ttl))
  }

  /** Any cached entry whose stamp is not after the status it reports was current. */
  predicate Init(s: State) {
    s.suspendedAt.None? && s.checks == map[] && (s.entry.Some? ==> s.entry.value.at <= s.clock)
  }

  predicate Runs(s0: State, steps: seq<Step>, s: State, ttl: int)
    decreases |steps|
  {
    if steps == [] then s == s0
    else Enabled(s0, steps[0]) && Runs(Apply(s0, steps[0], ttl), steps[1..], s, ttl)
  }

  /** A stamp that cannot be later than the suspension. */
  predicate NotAfter(s: State, at: int) { at <= s.clock && (s.suspendedAt.Some? ==> at <= s.suspendedAt.value) }

  ghost predicate CheckOk(s: State, c: Check, ttl: int) {
    && c.now <= s.clock
    && (c.phase == Got(Active) ==> NotAfter(s, c.now))
    && (c.phase.Answered? && c.phase.outcome == Accepted && s.suspendedAt.Some? ==>
          c.now <= s.suspendedAt.value + if c.phase.via == RideOut then 10 * ttl else ttl)
  }

  ghost predicate Inv(s: State, ttl: int) {
    && (s.suspendedAt.Some? ==> s.suspendedAt.value <= s.clock)
    && (s.entry.Some? && s.entry.value.status == Active ==> NotAfter(s, s.entry.value.at))
    && forall id :: id in s.checks ==> CheckOk(s, s.checks[id], ttl)
  }

  lemma StepKeepsInv(s: State, step: Step, ttl: int)
    requires ttl >= 0 && Inv(s, ttl) && Enabled(s, step)
    ensures Inv(Apply(s, step, ttl), ttl)
  {
    var s' := Apply(s, step, ttl);
    forall id | id in s'.checks ensures CheckOk(s', s'.checks[id], ttl) {
      assert id in s.checks ==> CheckOk(s, s.checks[id], ttl);
    }
  }

  lemma {:induction false} RunsKeepInv(s0: State, steps: seq<Step>, s: State, ttl: int)
    requires ttl >= 0 && Inv(s0, ttl) && Runs(s0, steps, s, ttl)
    ensures Inv(s, ttl)
    decreases |steps|
  {
    if steps != [] {
      StepKeepsInv(s0, steps[0], ttl);
      RunsKeepInv(Apply(s0, steps[0], ttl), steps[1..], s, ttl);
    }
  }

  /**
   In every interleaving, stale overwrites included: a check accepted although the account is
   suspended was called no later than ttl after the suspension, or no later than 10 ttl after
   it and then only because its own store read failed.
   */
  lemma SuspensionBites(s0: State, steps: seq<Step>, s: State, ttl: int, id: nat)
    requires ttl >= 0 && Init(s0) && Runs(s0, steps, s, ttl)
    requires s.suspendedAt.Some? && id in s.checks && s.checks[id].phase.Answered? && s.checks[id].phase.outcome == Accepted
    ensures s.checks[id].now <= s.suspendedAt.value + 10 * ttl
    ensures s.checks[id].phase.via != RideOut ==> s.checks[id].now <= s.suspendedAt.value + ttl
  {
    RunsKeepInv(s0, steps, s, ttl);
    assert CheckOk(s, s.checks[id], ttl);
  }

  lemma Prepend(s0: State, step: Step, rest: seq<Step>, s: State, ttl: int) returns (steps: seq<Step>)
    requires Enabled(s0, step) && Runs(Apply(s0, step, ttl), rest, s, ttl)
    ensures Runs(s0, steps, s, ttl) && steps == [step] + rest
  {
    steps := [step] + rest;
    assert steps[1..] == rest;
  }

  /** An account suspended at time 0 that was cached active at time 0, and a check called `wait` later. */
  function CalledAfter(wait: nat): State {
    State(wait, Some(0), Some(Entry(Active, 0)), map[0 := Check(wait, Called)])
  }

  lemma WaitThenCall(wait: nat, tail: seq<Step>, s: State, ttl: nat) returns (s0: State, steps: seq<Step>)
    requires Runs(CalledAfter(wait), tail, s, ttl)
    ensures Init(s0) && Runs(s0, steps, s, ttl)
  {
    s0 := State(0, None, Some(Entry(Active, 0)), map[]);
    var s1 := Apply(s0, Suspend, ttl);
    var s2 := Apply(s1, Tick(wait), ttl);
    assert Apply(s2, CallCheck(0), ttl) == CalledAfter(wait);
    steps := Prepend(s2, CallCheck(0), tail, s, ttl);
    steps := Prepend(s1, Tick(wait), steps, s, ttl);
    steps := Prepend(s0, Suspend, steps, s, ttl);
  }

  /** An entry stamped at the suspension serves until exactly ttl after it. */
  lemma FreshBoundIsExact(ttl: nat) returns (s0: State, steps: seq<Step>, s: State)
    ensures Init(s0) && Runs(s0, steps, s, ttl) && s.suspendedAt == Some(0)
    ensures 0 in s.checks && s.checks[0] == Check(ttl, Answered(Accepted, FreshCache))
  {
    var called := CalledAfter(ttl);
    s := Apply(called, ReadFresh(0), ttl);
    steps := Prepend(called, ReadFresh(0), [], s, ttl);
    s0, steps := WaitThenCall(ttl, steps, s, ttl);
  }

  /** When the store fails it rides out until exactly 10 ttl. */
  lemma RideOutBoundIsExact(ttl: nat) returns (s0: State, steps: seq<Step>, s: State)
    requires ttl > 0
    ensures Init(s0) && Runs(s0, steps, s, ttl) && s.suspendedAt == Some(0)
    ensures 0 in s.checks && s.checks[0] == Check(10 * ttl, Answered(Accepted, RideOut))
  {
    var called := CalledAfter(10 * ttl);
    var missed := Apply(called, ReadFresh(0), ttl);
    var failed := Apply(missed, ReadStore(0, false), ttl);
    s := Apply(failed, ReadStale(0), ttl);
    steps := Prepend(failed, ReadStale(0), [], s, ttl);
    steps := Prepend(missed, ReadStore(0, false), steps, s, ttl);
    steps := Prepend(called, ReadFresh(0), steps, s, ttl);
    s0, steps := WaitThenCall(10 * ttl, steps, s, ttl);
  }

  // Sweeps and in-flight checks.

  /** A sweep at `at` drops the entry although a check stamped `now` is still within `window` of it. */
  predicate SweptTooEarly(s: State, at: int, now: int, window: int, ttl: int) {
    s.entry.Some? && now - s.entry.value.at <= window && 10 * ttl < at - s.entry.value.at
  }

  /** A sweep changes what a check answers after its store read failed exactly when it drops an entry the check could still ride out on. */
  lemma SweepSeenByRideOut(s: State, id: nat, at: int, ttl: int)
    requires Enabled(s, EvictFor(at)) && Enabled(s, ReadStale(id))
    ensures Enabled(Apply(s, EvictFor(at), ttl), ReadStale(id))
    ensures Apply(Apply(s, EvictFor(at), ttl), ReadStale(id), ttl).checks[id] != Apply(s, ReadStale(id), ttl).checks[id]
       <==> SweptTooEarly(s, at, s.checks[id].now, 10 * ttl, ttl)
  {
  }

  /** It changes what a check finds in its first cache read exactly when it drops an entry still fresh for the check. */
  lemma SweepSeenByFirstRead(s: State, id: nat, at: int, ttl: int)
    requires Enabled(s, EvictFor(at)) && Enabled(s, ReadFresh(id))
    ensures Enabled(Apply(s, EvictFor(at), ttl), ReadFresh(id))
    ensures Apply(Apply(s, EvictFor(at), ttl), ReadFresh(id), ttl).checks[id] != Apply(s, ReadFresh(id), ttl).checks[id]
       <==> SweptTooEarly(s, at, s.checks[id].now, ttl, ttl)
  {
  }

  predicate Unanswered(s: State, id: nat) { id in s.checks && !s.checks[id].phase.Answered? }

  /** No sweep comes later than the stamp of a check still in flight. */
  ghost predicate SweepsInTime(s: State, steps: seq<Step>, ttl: int)
    decreases |steps|
  {
    steps != [] && Enabled(s, steps[0]) ==>
      && (steps[0].EvictFor? ==> forall id :: Unanswered(s, id) ==> steps[0].at <= s.checks[id].now)
      && SweepsInTime(Apply(s, steps[0], ttl), steps[1..], ttl)
  }

  function WithoutSweeps(steps: seq<Step>): seq<Step> {
    if steps == [] then []
    else if steps[0].EvictFor? then WithoutSweeps(steps[1..])
    else [steps[0]] + WithoutSweeps(steps[1..])
  }

  /** The two states differ at most in an entry too old for every check in flight and every check to come. */
  ghost predicate DiffersInDeadEntry(swept: State, kept: State, ttl: int) {
    && swept == kept.(entry := swept.entry)
    && (swept.entry != kept.entry ==>
          && swept.entry.None? && kept.entry.Some?
          && kept.clock - kept.entry.value.at > 10 * ttl
          && forall id :: Unanswered(kept, id) ==> kept.checks[id].now - kept.entry.value.at > 10 * ttl)
  }

  lemma SweepDropsDead(swept: State, kept: State, at: int, ttl: int)
    requires ttl >= 0 && DiffersInDeadEntry(swept, kept, ttl) && Enabled(swept, EvictFor(at))
    requires forall id :: Unanswered(swept, id) ==> at <= swept.checks[id].now
    ensures DiffersInDeadEntry(Apply(swept, EvictFor(at), ttl), kept, ttl)
  {
  }

  lemma StepInStep(swept: State, kept: State, step: Step, ttl: int)
    requires ttl >= 0 && DiffersInDeadEntry(swept, kept, ttl) && Enabled(swept, step) && !step.EvictFor?
    ensures Enabled(kept, step) && DiffersInDeadEntry(Apply(swept, step, ttl), Apply(kept, step, ttl), ttl)
  {
    var a, b := Apply(swept, step, ttl), Apply(kept, step, ttl);
    forall id | Unanswered(b, id) && a.entry != b.entry ensures b.checks[id].now - b.entry.value.at > 10 * ttl {
      assert id in kept.checks ==> Unanswered(kept, id);
    }
  }

  lemma {:induction false} RunsInStep(swept: State, kept: State, steps: seq<Step>, s: State, ttl: int) returns (t: State)
    requires ttl >= 0 && DiffersInDeadEntry(swept, kept, ttl) && Runs(swept, steps, s, ttl) && SweepsInTime(swept, steps, ttl)
    ensures Runs(kept, WithoutSweeps(steps), t, ttl) && DiffersInDeadEntry(s, t, ttl)
    decreases |steps|
  {
    if steps == [] {
      t := kept;
    } else if steps[0].EvictFor? {
      SweepDropsDead(swept, kept, steps[0].at, ttl);
      t := RunsInStep(Apply(swept, steps[0], ttl), kept, steps[1..], s, ttl);
    } else {
      StepInStep(swept, kept, steps[0], ttl);
      t := RunsInStep(Apply(swept, steps[0], ttl), Apply(kept, steps[0], ttl), steps[1..], s, ttl);
      assert ([steps[0]] + WithoutSweeps(steps[1..]))[1..] == WithoutSweeps(steps[1..]);
    }
  }

  /** In every run whose sweeps come in time, all answers are those of the run without its sweeps. */
  lemma TimelySweepsInvisible(s0: State, steps: seq<Step>, s: State, ttl: int) returns (t: State)
    requires ttl >= 0 && Runs(s0, steps, s, ttl) && SweepsInTime(s0, steps, ttl)
    ensures Runs(s0, WithoutSweeps(steps), t, ttl) && t.checks == s.checks
  {
    t := RunsInStep(s0, s0, steps, s, ttl);
  }

  // A sweep that comes too late for a check in flight.

  /** A check stamped when the entry is exactly 10 ttl old fails its store read, and a moment passes. */
  function InFlight(): seq<Step> { [CallCheck(0), ReadFresh(0), ReadStore(0, false), Tick(1)] }

  function AgedEntry(ttl: nat, status: Status): State { State(10 * ttl, None, Some(Entry(status, 0)), map[]) }

  lemma AfterInFlight(ttl: nat, status: Status, tail: seq<Step>, s: State)
    requires ttl > 0
    requires Runs(State(10 * ttl + 1, None, Some(Entry(status, 0)), map[0 := Check(10 * ttl, StoreFailed)]), tail, s, ttl)
    ensures Runs(AgedEntry(ttl, status), InFlight() + tail, s, ttl)
  {
    var s0 := AgedEntry(ttl, status);
    var s1 := Apply(s0, CallCheck(0), ttl);
    var s2 := Apply(s1, ReadFresh(0), ttl);
    var s3 := Apply(s2, ReadStore(0, false), ttl);
    assert s3.checks == map[0 := Check(10 * ttl, StoreFailed)];
    var steps := Prepend(s3, Tick(1), tail, s, ttl);
    steps := Prepend(s2, ReadStore(0, false), steps, s, ttl);
    steps := Prepend(s1, ReadFresh(0), steps, s, ttl);
    steps := Prepend(s0, CallCheck(0), steps, s, ttl);
    assert steps == InFlight() + tail;
  }

  /**
   A check in flight can lose its ride-out to another account's later sweep: the same steps accept
   an active account, or refuse an inactive one, without the sweep and find no status with it.
   */
  lemma SweepCanRejectInFlight(ttl: nat, status: Status) returns (kept: State, swept: State)
    requires ttl > 0
    ensures Init(AgedEntry(ttl, status))
    ensures Runs(AgedEntry(ttl, status), InFlight() + [ReadStale(0)], kept, ttl)
    ensures Runs(AgedEntry(ttl, status), InFlight() + [EvictFor(10 * ttl + 1), ReadStale(0)], swept, ttl)
    ensures At(kept, 0, Answered(OutcomeOf(status), RideOut)) && At(swept, 0, Answered(StatusUnavailable, RideOut))
  {
    var s4 := State(10 * ttl + 1, None, Some(Entry(status, 0)), map[0 := Check(10 * ttl, StoreFailed)]);
    kept := Apply(s4, ReadStale(0), ttl);
    var s5 := Apply(s4, EvictFor(10 * ttl + 1), ttl);
    swept := Apply(s5, ReadStale(0), ttl);
    var a := Prepend(s4, ReadStale(0), [], kept, ttl);
    var b := Prepend(s5, ReadStale(0), [], swept, ttl);
    b := Prepend(s4, EvictFor(10 * ttl + 1), b, swept, ttl);
    assert a == [ReadStale(0)] && b == [EvictFor(10 * ttl + 1), ReadStale(0)];
    AfterInFlight(ttl, status, a, kept);
    AfterInFlight(ttl, status, b, swept);
  }
}
