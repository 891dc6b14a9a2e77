/**
 The API-key cache protocol for one key: any number of cache-miss lookups interleaved with a
 Postgres revocation and any number of evictions, one Redis command or Postgres read per step.

 Times are milliseconds of one clock. A Redis command may fail, in which case it changes
 nothing and a read counts as a miss. Nothing else writes the key's Redis entries.
 */
module KeyCache {
  import opened Basics

  const TOMBSTONE_TTL: int := 60000

  /** The `apikey-cache:` row: the Postgres read it was derived from and when Redis drops it. */
  datatype Row = Row(readAt: int, expires: int)

  /** The canonical `apikey:` record, read before the cache row. */
  datatype Record = Record(revoked: bool)

  /** What the checks after a hit decide: expiry, account status, and a record that does not decode. */
  datatype HitOutcome = Accept | Reject | Degrade

  datatype Phase =
    | Started                 // before the first GET
    | CanonicalMissed         // the canonical record was not served
    | CacheMissed             // neither record was served
    | ReadActive(readAt: int) // Postgres said active at that time; the write-back is still to come
    | Answered(accepted: bool)

  /** `late` marks a lookup that started after an eviction of the revoked key had completed. */
  datatype Lookup = Lookup(phase: Phase, late: bool)

  /** Which of the three commands have been sent, and whether all sent so far succeeded. */
  datatype Progress = ToSet | ToDeleteCanonical | ToDeleteCache | Finished

  datatype Eviction = Eviction(progress: Progress, clean: bool, afterCommit: bool)

  datatype State = State(
    now: int,
    revokedAt: Option<int>,
    tombstone: Option<int>, // when it expires
    canonical: Option<Record>,
    cache: Option<Row>,
    lookups: map<nat, Lookup>,
    evictions: map<nat, Eviction>)

  datatype Step =
    | Tick(d: nat)
    | Revoke
    | Begin(id: nat)
    | ReadCanonical(id: nat, redisOk: bool, hit: HitOutcome)
    | ReadCache(id: nat, redisOk: bool, hit: HitOutcome)
    | ReadPostgres(id: nat, otherwiseOk: bool)
    | StoreCache(id: nat, redisOk: bool)
    | BeginEvict(id: nat)
    | SetTombstone(id: nat, redisOk: bool)
    | DeleteCanonical(id: nat, redisOk: bool)
    | DeleteCache(id: nat, redisOk: bool)

  /** How long after its Postgres read a lookup may still write back, and how long a row lives. */
  datatype Timing = Timing(maxGap: int, cacheTTL: int)

  predicate TombstoneLive(s: State) { s.tombstone.Some? && s.now < s.tombstone.value }

  predicate RowLive(s: State) { s.cache.Some? && s.now < s.cache.value.expires }

  /** Some eviction begun after the revocation committed has completed without an error. */
  ghost predicate Evicted(s: State) {
    exists id :: id in s.evictions && CompletedAfterCommit(s.evictions[id])
  }

  predicate CompletedAfterCommit(e: Eviction) { e.progress == Finished && e.clean && e.afterCommit }

  function SetPhase(s: State, id: nat, p: Phase): State
    requires id in s.lookups
  {
    s.(lookups := s.lookups[id := s.lookups[id].(phase := p)])
  }

  function AfterHit(hit: HitOutcome): Phase {
    match hit
    case Accept => Answered(true)
    case Reject => Answered(false)
    case Degrade => CacheMissed
  }

  predicate AtProgress(s: State, id: nat, p: Progress) { id in s.evictions && s.evictions[id].progress == p }

  function Advance(s: State, id: nat, p: Progress, redisOk: bool): State
    requires id in s.evictions
  {
    var e := s.evictions[id];
    s.(evictions := s.evictions[id := Eviction(p, e.clean && redisOk, e.afterCommit)])
  }

  ghost predicate Enabled(s: State, step: Step, t: Timing) {
    match step
    case Tick(d) => true
    case Revoke => s.revokedAt.None?
    case Begin(id) => id !in s.lookups
    case ReadCanonical(id, _, _) => id in s.lookups && s.lookups[id].phase.Started?
    case ReadCache(id, _, _) => id in s.lookups && s.lookups[id].phase.CanonicalMissed?
    case ReadPostgres(id, _) => id in s.lookups && s.lookups[id].phase.CacheMissed?
    case StoreCache(id, _) =>
      id in s.lookups && s.lookups[id].phase.ReadActive? && s.now - s.lookups[id].phase.readAt < t.maxGap
    case BeginEvict(id) => id !in s.evictions
    case SetTombstone(id, _) => AtProgress(s, id, ToSet)
    case DeleteCanonical(id, _) => AtProgress(s, id, ToDeleteCanonical)
    case DeleteCache(id, _) => AtProgress(s, id, ToDeleteCache)
  }

  ghost function Apply(s: State, step: Step, t: Timing): State
    requires Enabled(s, step, t)
  {
    match step
    case Tick(d) => s.(now := s.now + d)
    case Revoke => s.(revokedAt := Some(s.now))
    case Begin(id) => s.(lookups := s.lookups[id := Lookup(Started, Evicted(s))])
    case ReadCanonical(id, redisOk, hit) =>
      if redisOk && s.canonical.Some? then
        SetPhase(s, id, if s.canonical.value.revoked then Answered(false) else AfterHit(hit))
      else SetPhase(s, id, CanonicalMissed)
    case ReadCache(id, redisOk, hit) =>
      SetPhase(s, id, if redisOk && RowLive(s) then AfterHit(hit) else CacheMissed)
    case ReadPostgres(id, otherwiseOk) =>
      SetPhase(s, id, if s.revokedAt.None? && otherwiseOk then ReadActive(s.now) else Answered(false))
    case StoreCache(id, redisOk) =>
      var row := Row(s.lookups[id].phase.readAt, s.now + t.cacheTTL);
      SetPhase(if redisOk && !TombstoneLive(s) then s.(cache := Some(row)) else s, id, Answered(true))
    case BeginEvict(id) => s.(evictions := s.evictions[id := Eviction(ToSet, true, s.revokedAt.Some?)])
    case SetTombstone(id, redisOk) =>
      Advance(if redisOk then s.(tombstone := Some(s.now + TOMBSTONE_TTL)) else s, id, ToDeleteCanonical, redisOk)
    case DeleteCanonical(id, redisOk) =>
      Advance(if redisOk then s.(canonical := None) else s, id, ToDeleteCache, redisOk)
    case DeleteCache(id, redisOk) =>
      Advance(if redisOk then s.(cache := None) else s, id, Finished, redisOk)
  }

  /** Whatever Redis holds at first, with no lookup or eviction in flight and the key not revoked. */
  predicate Init(s: State) {
    && s.revokedAt.None? && s.lookups == map[] && s.evictions == map[]
    && (s.cache.Some? ==> s.cache.value.readAt <= s.now)
  }

  /** `s` is reached from `s0` by the steps, every one of them enabled in turn. */
  ghost predicate Runs(s0: State, steps: seq<Step>, s: State, t: Timing)
    decreases |steps|
  {
    if steps == [] then s == s0
    else Enabled(s0, steps[0], t) && Runs(Apply(s0, steps[0], t), steps[1..], s, t)
  }

  // What every step keeps.

  /** Nothing cached or about to be cached was read after the revocation committed. */
  ghost predicate ReadsPrecedeCommit(s: State) {
    && (s.revokedAt.Some? ==> s.revokedAt.value <= s.now)
    && (s.cache.Some? ==> Precedes(s, s.cache.value.readAt))
    && (forall id :: id in s.lookups && s.lookups[id].phase.ReadActive? ==> Precedes(s, s.lookups[id].phase.readAt))
  }

  predicate Precedes(s: State, readAt: int) {
    readAt <= s.now && (s.revokedAt.Some? ==> readAt <= s.revokedAt.value)
  }

  /** What an error-free eviction begun after the commit has achieved by now. */
  ghost predicate Achieved(s: State, e: Eviction) {
    e.afterCommit ==>
      && s.revokedAt.Some?
      && (e.clean && e.progress != ToSet ==> s.tombstone.Some? && s.revokedAt.value + TOMBSTONE_TTL <= s.tombstone.value)
      && (e.clean && e.progress in {ToDeleteCache, Finished} ==> s.canonical.None?)
      && (e.clean && e.progress == Finished ==> s.cache.None?)
  }

  ghost predicate LateRejected(s: State, l: Lookup) {
    l.late ==> Evicted(s) && !l.phase.ReadActive? && l.phase != Answered(true)
  }

  ghost predicate Inv(s: State) {
    && ReadsPrecedeCommit(s)
    && (forall id :: id in s.evictions ==> Achieved(s, s.evictions[id]))
    && (forall id :: id in s.lookups ==> LateRejected(s, s.lookups[id]))
  }

  /** Once evicted, the key is in neither place a lookup is served from. */
  lemma EvictedIsGone(s: State)
    requires Inv(s) && Evicted(s)
    ensures s.revokedAt.Some? && s.cache.None? && s.canonical.None?
    ensures s.tombstone.Some? && s.revokedAt.value + TOMBSTONE_TTL <= s.tombstone.value
  {
    var id :| id in s.evictions && CompletedAfterCommit(s.evictions[id]);
    assert Achieved(s, s.evictions[id]);
  }

  lemma InvInit(s: State)
    requires Init(s)
    ensures Inv(s)
  {
  }

  lemma EvictedStays(s: State, step: Step, t: Timing)
    requires Enabled(s, step, t) && Evicted(s)
    ensures Evicted(Apply(s, step, t))
  {
    var id :| id in s.evictions && CompletedAfterCommit(s.evictions[id]);
    var s' := Apply(s, step, t);
    assert id in s'.evictions && CompletedAfterCommit(s'.evictions[id]);
  }

  lemma StepKeepsReads(s: State, step: Step, t: Timing)
    requires ReadsPrecedeCommit(s) && Enabled(s, step, t)
    ensures ReadsPrecedeCommit(Apply(s, step, t))
  {
  }

  lemma StepKeepsLate(s: State, step: Step, t: Timing)
    requires Inv(s) && Enabled(s, step, t)
    ensures var s' := Apply(s, step, t); forall id :: id in s'.lookups ==> LateRejected(s', s'.lookups[id])
  {
    var s' := Apply(s, step, t);
    if Evicted(s) {
      EvictedIsGone(s);
      EvictedStays(s, step, t);
    }
    forall id | id in s'.lookups ensures LateRejected(s', s'.lookups[id]) {
      assert id in s.lookups ==> LateRejected(s, s.lookups[id]);
    }
  }

  /** A write-back that comes after the tombstone was set still finds it alive. */
  lemma TombstoneOutlivesWriteBack(s: State, id: nat, t: Timing)
    requires Inv(s) && t.maxGap <= TOMBSTONE_TTL && Enabled(s, StoreCache(id, true), t)
    requires s.revokedAt.Some? && s.tombstone.Some? && s.revokedAt.value + TOMBSTONE_TTL <= s.tombstone.value
    ensures TombstoneLive(s)
  {
    assert Precedes(s, s.lookups[id].phase.readAt);
  }

  lemma StepKeepsAchieved(s: State, step: Step, t: Timing)
    requires Inv(s) && Enabled(s, step, t) && t.maxGap <= TOMBSTONE_TTL
    ensures var s' := Apply(s, step, t); forall id :: id in s'.evictions ==> Achieved(s', s'.evictions[id])
  {
    var s' := Apply(s, step, t);
    forall id | id in s'.evictions ensures Achieved(s', s'.evictions[id]) {
      assert id in s.evictions ==> Achieved(s, s.evictions[id]);
      if step.StoreCache? && id in s.evictions && CompletedAfterCommit(s.evictions[id]) {
        TombstoneOutlivesWriteBack(s, step.id, t);
      }
    }
  }

  lemma StepKeepsInv(s: State, step: Step, t: Timing)
    requires Inv(s) && Enabled(s, step, t) && t.maxGap <= TOMBSTONE_TTL
    ensures Inv(Apply(s, step, t))
  {
    StepKeepsReads(s, step, t);
    StepKeepsAchieved(s, step, t);
    StepKeepsLate(s, step, t);
  }

  lemma {:induction false} RunsKeepInv(s0: State, steps: seq<Step>, s: State, t: Timing)
    requires Inv(s0) && Runs(s0, steps, s, t) && t.maxGap <= TOMBSTONE_TTL
    ensures Inv(s)
    decreases |steps|
  {
    if steps != [] {
      StepKeepsInv(s0, steps[0], t);
      RunsKeepInv(Apply(s0, steps[0], t), steps[1..], s, t);
    }
  }

  /**
   In every run whose write-backs come less than the tombstone's 60 s after their Postgres read:
   once an eviction begun after the revocation has completed, no cached row of the key exists,
   and no lookup started from then on is ever accepted.
   */
  lemma RevokedStaysRevoked(s0: State, steps: seq<Step>, s: State, t: Timing)
    requires Init(s0) && Runs(s0, steps, s, t) && t.maxGap <= TOMBSTONE_TTL
    ensures Evicted(s) ==> s.cache.None? && s.canonical.None?
    ensures forall id :: id in s.lookups && s.lookups[id].late ==> s.lookups[id].phase != Answered(true)
  {
    InvInit(s0);
    RunsKeepInv(s0, steps, s, t);
    if Evicted(s) { EvictedIsGone(s); }
    forall id | id in s.lookups && s.lookups[id].late ensures s.lookups[id].phase != Answered(true) {
      assert LateRejected(s, s.lookups[id]);
    }
  }

  // Valid keys are accepted.

  /** Postgres found the key active for this lookup: it is accepted, or will be once it has written back. */
  predicate FoundActive(s: State, id: nat) {
    id in s.lookups && (s.lookups[id].phase.ReadActive? || s.lookups[id].phase == Answered(true))
  }

  lemma StepKeepsFoundActive(s: State, step: Step, id: nat, t: Timing)
    requires Enabled(s, step, t) && FoundActive(s, id)
    ensures FoundActive(Apply(s, step, t), id)
    ensures step.StoreCache? && step.id == id ==> Apply(s, step, t).lookups[id].phase == Answered(true)
  {
  }

  lemma {:induction false} RunsKeepFoundActive(s0: State, steps: seq<Step>, s: State, id: nat, t: Timing)
    requires Runs(s0, steps, s, t) && FoundActive(s0, id)
    ensures FoundActive(s, id) && (s0.lookups[id].phase == Answered(true) ==> s.lookups[id].phase == Answered(true))
    decreases |steps|
  {
    if steps != [] {
      StepKeepsFoundActive(s0, steps[0], id, t);
      RunsKeepFoundActive(Apply(s0, steps[0], t), steps[1..], s, id, t);
    }
  }

  /**
   In every run, whatever Redis, the tombstone and a later revocation do: a lookup whose Postgres read
   finds the key active is never rejected, and is accepted once it has taken its write-back step.
   */
  lemma ActiveReadAccepts(s: State, id: nat, steps: seq<Step>, s': State, t: Timing)
    requires Enabled(s, ReadPostgres(id, true), t) && s.revokedAt.None? && Runs(Apply(s, ReadPostgres(id, true), t), steps, s', t)
    ensures FoundActive(s', id)
    ensures (exists i :: 0 <= i < |steps| && steps[i].StoreCache? && steps[i].id == id) ==> s'.lookups[id].phase == Answered(true)
  {
    var found := Apply(s, ReadPostgres(id, true), t);
    RunsKeepFoundActive(found, steps, s', id, t);
    if i :| 0 <= i < |steps| && steps[i].StoreCache? && steps[i].id == id { WriteBackAccepts(found, steps, s', i, t); }
  }

  /** A lookup that has written back is accepted for good. */
  lemma {:induction false} WriteBackAccepts(s0: State, steps: seq<Step>, s: State, i: nat, t: Timing)
    requires Runs(s0, steps, s, t) && i < |steps| && steps[i].StoreCache?
    ensures steps[i].id in s.lookups && s.lookups[steps[i].id].phase == Answered(true)
    decreases |steps|
  {
    var next := Apply(s0, steps[0], t);
    if i == 0 {
      StepKeepsFoundActive(s0, steps[0], steps[0].id, t);
      RunsKeepFoundActive(next, steps[1..], s, steps[0].id, t);
    } else {
      WriteBackAccepts(next, steps[1..], s, i - 1, t);
    }
  }

  /** No revocation, nothing that a hit's later checks or the Postgres row hold against the key. */
  predicate Uneventful(step: Step) {
    match step
    case Revoke => false
    case ReadCanonical(_, _, hit) => hit == Accept
    case ReadCache(_, _, hit) => hit == Accept
    case ReadPostgres(_, otherwiseOk) => otherwiseOk
    case _ => true
  }

  ghost predicate NothingHeld(s: State) {
    && s.revokedAt.None? && (s.canonical.Some? ==> !s.canonical.value.revoked)
    && forall id :: id in s.lookups ==> s.lookups[id].phase != Answered(false)
  }

  lemma StepHoldsNothing(s: State, step: Step, t: Timing)
    requires NothingHeld(s) && Enabled(s, step, t) && Uneventful(step)
    ensures NothingHeld(Apply(s, step, t))
  {
  }

  /** In every uneventful run of a key without a revoked record no lookup is rejected: every answer is an acceptance. */
  lemma {:induction false} ValidKeyAccepted(s0: State, steps: seq<Step>, s: State, t: Timing)
    requires NothingHeld(s0) && Runs(s0, steps, s, t) && forall i :: 0 <= i < |steps| ==> Uneventful(steps[i])
    ensures NothingHeld(s)
    ensures forall id :: id in s.lookups && s.lookups[id].phase.Answered? ==> s.lookups[id].phase == Answered(true)
    decreases |steps|
  {
    if steps != [] {
      StepHoldsNothing(s0, steps[0], t);
      ValidKeyAccepted(Apply(s0, steps[0], t), steps[1..], s, t);
    }
  }

  /** In such a run a lookup that found nothing in Redis is accepted in its next two steps. */
  lemma MissThenAccepted(s: State, id: nat, redisOk: bool, t: Timing)
    requires NothingHeld(s) && t.maxGap > 0 && Enabled(s, ReadPostgres(id, true), t)
    ensures Enabled(Apply(s, ReadPostgres(id, true), t), StoreCache(id, redisOk), t)
    ensures var served := Apply(Apply(s, ReadPostgres(id, true), t), StoreCache(id, redisOk), t);
            && served.lookups[id].phase == Answered(true)
            && served.cache == if redisOk && !TombstoneLive(s) then Some(Row(s.now, s.now + t.cacheTTL)) else s.cache
  {
  }

  // Keys with something held against them are not.

  ghost predicate Rejected(s: State, id: nat) { id in s.lookups && s.lookups[id].phase == Answered(false) }

  lemma {:induction false} RejectedForGood(s0: State, steps: seq<Step>, s: State, id: nat, t: Timing)
    requires Runs(s0, steps, s, t) && Rejected(s0, id)
    ensures Rejected(s, id)
    decreases |steps|
  {
    if steps != [] { RejectedForGood(Apply(s0, steps[0], t), steps[1..], s, id, t); }
  }

  /**
   A lookup is turned away for good by a revoked canonical record it reads, by a hit whose later checks
   reject it, and by a Postgres read that finds the key revoked or otherwise unusable.
   */
  lemma HeldAgainstRejects(s: State, step: Step, id: nat, steps: seq<Step>, s': State, t: Timing)
    requires Enabled(s, step, t) && Runs(Apply(s, step, t), steps, s', t)
    requires || (step.ReadCanonical? && step.id == id && step.redisOk && s.canonical.Some? && (s.canonical.value.revoked || step.hit == Reject))
             || (step.ReadCache? && step.id == id && step.redisOk && RowLive(s) && step.hit == Reject)
             || (step.ReadPostgres? && step.id == id && (s.revokedAt.Some? || !step.otherwiseOk))
    ensures Rejected(s', id)
  {
    RejectedForGood(Apply(s, step, t), steps, s', id, t);
  }

  /** A lookup falls through to the next place exactly when this one is unreachable, empty or holds a record that does not decode. */
  lemma FallsThroughExactly(s: State, id: nat, redisOk: bool, hit: HitOutcome, t: Timing)
    ensures Enabled(s, ReadCanonical(id, redisOk, hit), t) ==>
              (!Apply(s, ReadCanonical(id, redisOk, hit), t).lookups[id].phase.Answered? <==>
                 !redisOk || s.canonical.None? || (!s.canonical.value.revoked && hit == Degrade))
    ensures Enabled(s, ReadCache(id, redisOk, hit), t) ==>
              (Apply(s, ReadCache(id, redisOk, hit), t).lookups[id].phase == CacheMissed <==>
                 !redisOk || s.cache.None? || s.cache.value.expires <= s.now || hit == Degrade)
  {
  }

  // How long a row can serve a revoked key when evictions fail.

  /** A row expires no later than its lifetime after the last moment it could have been written. */
  predicate ExpiresInTime(s: State, t: Timing) {
    s.cache.Some? ==> s.cache.value.expires <= s.cache.value.readAt + t.maxGap + t.cacheTTL
  }

  lemma {:induction false} RunsExpireInTime(s0: State, steps: seq<Step>, s: State, t: Timing)
    requires ExpiresInTime(s0, t) && Runs(s0, steps, s, t)
    ensures ExpiresInTime(s, t)
    decreases |steps|
  {
    if steps != [] { RunsExpireInTime(Apply(s0, steps[0], t), steps[1..], s, t); }
  }

  /**
   In every run, evictions that fail included: a lookup is answered from the cache row only within the write-back
   gap and the row's lifetime of a Postgres read that found the key active, so no longer than that after a revocation.
   */
  lemma StaleHitBound(s0: State, steps: seq<Step>, s: State, id: nat, hit: HitOutcome, t: Timing)
    requires Init(s0) && ExpiresInTime(s0, t) && Runs(s0, steps, s, t)
    requires Enabled(s, ReadCache(id, true, hit), t) && hit == Accept && Apply(s, ReadCache(id, true, hit), t).lookups[id].phase == Answered(true)
    ensures s.cache.Some? && s.now < s.cache.value.readAt + t.maxGap + t.cacheTTL
    ensures s.revokedAt.Some? ==> s.now < s.revokedAt.value + t.maxGap + t.cacheTTL
  {
    RunsExpireInTime(s0, steps, s, t);
    RunsKeepReads(s0, steps, s, t);
  }

  lemma {:induction false} RunsKeepReads(s0: State, steps: seq<Step>, s: State, t: Timing)
    requires ReadsPrecedeCommit(s0) && Runs(s0, steps, s, t)
    ensures ReadsPrecedeCommit(s)
    decreases |steps|
  {
    if steps != [] {
      StepKeepsReads(s0, steps[0], t);
      RunsKeepReads(Apply(s0, steps[0], t), steps[1..], s, t);
    }
  }

  // The bound is exact.

  /** The key is evicted at time 0 while lookup 0 still holds its earlier read. */
  ghost predicate StaleReadPending(s: State) {
    && s.now == 0 && s.revokedAt == Some(0) && s.tombstone == Some(TOMBSTONE_TTL) && s.canonical.None? && s.cache.None?
    && s.lookups == map[0 := Lookup(ReadActive(0), false)]
    && 0 in s.evictions && CompletedAfterCommit(s.evictions[0])
  }

  /** If a write-back may come 60 s after its read, a lookup started after the eviction can be accepted. */
  lemma LongerGapBreaksIt(t: Timing) returns (s0: State, steps: seq<Step>, s: State)
    requires t.maxGap > TOMBSTONE_TTL && t.cacheTTL > 0
    ensures Init(s0) && Runs(s0, steps, s, t)
    ensures Evicted(s) && s.cache.Some?
    ensures 1 in s.lookups && s.lookups[1].late && s.lookups[1].phase == Answered(true)
  {
    s0 := State(0, None, None, None, None, map[], map[]);
    var s1 := Apply(s0, Begin(0), t);
    var s2 := Apply(s1, ReadCanonical(0, true, Accept), t);
    var s3 := Apply(s2, ReadCache(0, true, Accept), t);
    var s4 := Apply(s3, ReadPostgres(0, true), t);
    steps, s := EvictThenServe(s4, t);
    steps := Prepend(s3, ReadPostgres(0, true), steps, s, t);
    steps := Prepend(s2, ReadCache(0, true, Accept), steps, s, t);
    steps := Prepend(s1, ReadCanonical(0, true, Accept), steps, s, t);
    steps := Prepend(s0, Begin(0), steps, s, t);
  }

  /** No run caches or accepts the key again once it has been evicted after its revocation. */
  ghost predicate NeverResurrects(t: Timing) {
    forall s0, steps, s :: Init(s0) && Runs(s0, steps, s, t) ==>
      && (Evicted(s) ==> s.cache.None? && s.canonical.None?)
      && forall id :: id in s.lookups && s.lookups[id].late ==> s.lookups[id].phase != Answered(true)
  }

  /** The protocol is safe exactly when every write-back comes less than the tombstone's 60 s after its read. */
  lemma GapBoundIsExact(t: Timing)
    requires t.cacheTTL > 0
    ensures NeverResurrects(t) <==> t.maxGap <= TOMBSTONE_TTL
  {
    if t.maxGap <= TOMBSTONE_TTL {
      forall s0, steps, s | Init(s0) && Runs(s0, steps, s, t)
        ensures Evicted(s) ==> s.cache.None? && s.canonical.None?
        ensures forall id :: id in s.lookups && s.lookups[id].late ==> s.lookups[id].phase != Answered(true)
      {
        RevokedStaysRevoked(s0, steps, s, t);
      }
    } else {
      var s0, steps, s := LongerGapBreaksIt(t);
    }
  }

  lemma EvictThenServe(s4: State, t: Timing) returns (steps: seq<Step>, s: State)
    requires t.maxGap > TOMBSTONE_TTL && t.cacheTTL > 0
    requires s4 == State(0, None, None, None, None, map[0 := Lookup(ReadActive(0), false)], map[])
    ensures Runs(s4, steps, s, t)
    ensures Evicted(s) && s.cache.Some?
    ensures 1 in s.lookups && s.lookups[1].late && s.lookups[1].phase == Answered(true)
  {
    var s5 := Apply(s4, Revoke, t);
    var s6 := Apply(s5, BeginEvict(0), t);
    var s7 := Apply(s6, SetTombstone(0, true), t);
    var s8 := Apply(s7, DeleteCanonical(0, true), t);
    var s9 := Apply(s8, DeleteCache(0, true), t);
    steps, s := LateWriteServes(s9, t);
    steps := Prepend(s8, DeleteCache(0, true), steps, s, t);
    steps := Prepend(s7, DeleteCanonical(0, true), steps, s, t);
    steps := Prepend(s6, SetTombstone(0, true), steps, s, t);
    steps := Prepend(s5, BeginEvict(0), steps, s, t);
    steps := Prepend(s4, Revoke, steps, s, t);
  }

  lemma LateWriteServes(s9: State, t: Timing) returns (steps: seq<Step>, s: State)
    requires t.maxGap > TOMBSTONE_TTL && t.cacheTTL > 0 && StaleReadPending(s9)
    ensures Runs(s9, steps, s, t)
    ensures Evicted(s) && s.cache.Some?
    ensures 1 in s.lookups && s.lookups[1].late && s.lookups[1].phase == Answered(true)
  {
    var s10 := Apply(s9, Tick(60000), t);
    var s11 := Apply(s10, StoreCache(0, true), t);
    assert Evicted(s11) by { assert CompletedAfterCommit(s11.evictions[0]); }
    var s12 := Apply(s11, Begin(1), t);
    var s13 := Apply(s12, ReadCanonical(1, true, Accept), t);
    s := Apply(s13, ReadCache(1, true, Accept), t);
    assert CompletedAfterCommit(s.evictions[0]);
    steps := Prepend(s13, ReadCache(1, true, Accept), [], s, t);
    steps := Prepend(s12, ReadCanonical(1, true, Accept), steps, s, t);
    steps := Prepend(s11, Begin(1), steps, s, t);
    steps := Prepend(s10, StoreCache(0, true), steps, s, t);
    steps := Prepend(s9, Tick(60000), steps, s, t);
  }

  lemma Prepend(s0: State, step: Step, rest: seq<Step>, s: State, t: Timing) returns (steps: seq<Step>)
    requires Enabled(s0, step, t) && Runs(Apply(s0, step, t), rest, s, t)
    ensures Runs(s0, steps, s, t)
  {
    steps := [step] + rest;
    assert steps[1..] == rest;
  }
}
