/** One check of the gate is an uninterrupted run of the kill switch's steps, so what holds of every run holds of the gate. */
module GateRuns {
  import opened Basics
  import opened StatusGate
  import K = KillSwitch

  /** What the steps see of the cache: one account's status and stamp. */
  function EntryOf(cache: Cache, slug: string): Option<K.Entry> {
    if slug in cache then Some(K.Entry(cache[slug].acct.status, cache[slug].at)) else None
  }

  /** The gate's clock, cache and store are those of the state. */
  ghost predicate SameView(s: K.State, cache: Cache, slug: string, now: int, store: StoreAnswer) {
    && s.clock == now && s.entry == EntryOf(cache, slug)
    && (store == Failed || (store.Found? && store.acct.status == K.CurrentStatus(s)))
  }

  function OutcomeFor(v: Verdict): Option<K.Outcome> {
    match v
    case Known(_, true) => Some(K.Accepted)
    case Known(_, false) => Some(K.Refused)
    case Unavailable => Some(K.StatusUnavailable)
    case _ => None
  }

  function FreshSteps(id: nat): seq<K.Step> { [K.CallCheck(id), K.ReadFresh(id)] }

  function StoreSteps(id: nat): seq<K.Step> { [K.CallCheck(id), K.ReadFresh(id), K.ReadStore(id, true), K.StoreStatus(id)] }

  function StaleSteps(id: nat): seq<K.Step> { [K.CallCheck(id), K.ReadFresh(id), K.ReadStore(id, false), K.ReadStale(id)] }

  /** The steps of one check that nothing interrupts. */
  function CheckSteps(id: nat, hit: bool, answers: bool): seq<K.Step> {
    if hit then FreshSteps(id) else if answers then StoreSteps(id) else StaleSteps(id)
  }

  lemma RunTwo(s: K.State, a: K.Step, b: K.Step, ttl: int) returns (t: K.State)
    requires K.Enabled(s, a) && K.Enabled(K.Apply(s, a, ttl), b)
    ensures K.Runs(s, [a, b], t, ttl) && t == K.Apply(K.Apply(s, a, ttl), b, ttl)
  {
    t := K.Apply(K.Apply(s, a, ttl), b, ttl);
    var tail := K.Prepend(K.Apply(s, a, ttl), b, [], t, ttl);
    var all := K.Prepend(s, a, tail, t, ttl);
    assert all == [a, b];
  }

  lemma {:induction false} RunsAppend(s: K.State, a: seq<K.Step>, m: K.State, b: seq<K.Step>, t: K.State, ttl: int)
    requires K.Runs(s, a, m, ttl) && K.Runs(m, b, t, ttl)
    ensures K.Runs(s, a + b, t, ttl)
    decreases |a|
  {
    if a == [] {
      assert a + b == b;
    } else {
      RunsAppend(K.Apply(s, a[0], ttl), a[1..], m, b, t, ttl);
      assert (a + b)[1..] == a[1..] + b;
    }
  }

  lemma ReadsCache(s: K.State, id: nat, cache: Cache, slug: string, now: int, store: StoreAnswer, ttl: int) returns (m: K.State)
    requires SameView(s, cache, slug, now, store) && id !in s.checks
    ensures K.Runs(s, FreshSteps(id), m, ttl) && SameView(m, cache, slug, now, store) && m.suspendedAt == s.suspendedAt
    ensures id in m.checks && m.checks[id].now == now
    ensures m.checks[id].phase == if Usable(cache, slug, now, ttl) then K.Answered(K.OutcomeOf(cache[slug].acct.status), K.FreshCache) else K.CacheMissed
  {
    m := RunTwo(s, K.CallCheck(id), K.ReadFresh(id), ttl);
  }

  lemma ReadsStore(m: K.State, id: nat, cache: Cache, slug: string, now: int, store: StoreAnswer, ttl: int) returns (t: K.State)
    requires SameView(m, cache, slug, now, store) && K.At(m, id, K.CacheMissed) && m.checks[id].now == now && ttl >= 0
    ensures K.Runs(m, CheckSteps(id, false, store.Found?)[2..], t, ttl) && t.suspendedAt == m.suspendedAt
    ensures id in t.checks && t.checks[id].now == now
    ensures t.entry == if store.Found? then Some(K.Entry(store.acct.status, now)) else m.entry
    ensures t.checks[id].phase ==
            if store.Found? then K.Answered(K.OutcomeOf(store.acct.status), K.Store)
            else K.Answered(if Usable(cache, slug, now, 10 * ttl) then K.OutcomeOf(cache[slug].acct.status) else K.StatusUnavailable, K.RideOut)
  {
    if store.Found? {
      t := RunTwo(m, K.ReadStore(id, true), K.StoreStatus(id), ttl);
      assert StoreSteps(id)[2..] == [K.ReadStore(id, true), K.StoreStatus(id)];
    } else {
      t := RunTwo(m, K.ReadStore(id, false), K.ReadStale(id), ttl);
      assert StaleSteps(id)[2..] == [K.ReadStore(id, false), K.ReadStale(id)];
    }
  }

  /** A check the gate makes in one go ends as its steps do, with the same answer and the same entry left behind. */
  lemma CheckIsRun(s: K.State, id: nat, cache: Cache, slug: string, now: int, store: StoreAnswer, ttl: int) returns (t: K.State)
    requires SameView(s, cache, slug, now, store) && id !in s.checks && slug != "" && ttl >= 0
    ensures K.Runs(s, CheckSteps(id, Usable(cache, slug, now, ttl), store.Found?), t, ttl) && t.suspendedAt == s.suspendedAt
    ensures id in t.checks && t.checks[id].now == now && t.checks[id].phase.Answered?
    ensures OutcomeFor(Answer(cache, ttl, "acct:" + slug, now, store)) == Some(t.checks[id].phase.outcome)
    ensures t.checks[id].phase.via == K.RideOut <==> !Usable(cache, slug, now, ttl) && store == Failed
    ensures t.entry == EntryOf(Swept(cache, ttl, "acct:" + slug, now, store), slug)
  {
    SlugExactly("acct:" + slug, slug);
    var m := ReadsCache(s, id, cache, slug, now, store, ttl);
    if Usable(cache, slug, now, ttl) {
      t := m;
    } else {
      t := ReadsStore(m, id, cache, slug, now, store, ttl);
      var steps := CheckSteps(id, false, store.Found?);
      RunsAppend(s, FreshSteps(id), m, steps[2..], t, ttl);
      assert steps == FreshSteps(id) + steps[2..];
    }
  }

  /**
   After any interleaving of checks, a suspension and sweeps: a check the gate makes of the suspended
   account lets it through no later than ttl after the suspension, or 10 ttl when its store read failed.
   */
  lemma GateBites(s0: K.State, steps: seq<K.Step>, s: K.State, cache: Cache, slug: string, now: int, store: StoreAnswer, ttl: int)
    requires ttl >= 0 && K.Init(s0) && K.Runs(s0, steps, s, ttl) && s.suspendedAt.Some?
    requires SameView(s, cache, slug, now, store) && slug != ""
    requires OutcomeFor(Answer(cache, ttl, "acct:" + slug, now, store)) == Some(K.Accepted)
    ensures now <= s.suspendedAt.value + 10 * ttl
    ensures store != Failed ==> now <= s.suspendedAt.value + ttl
  {
    var id := FreeId(s);
    var t := CheckIsRun(s, id, cache, slug, now, store, ttl);
    var more := CheckSteps(id, Usable(cache, slug, now, ttl), store.Found?);
    RunsAppend(s0, steps, s, more, t, ttl);
    K.SuspensionBites(s0, steps + more, t, ttl, id);
  }

  lemma FreeId(s: K.State) returns (id: nat)
    ensures id !in s.checks
  {
    id := Beyond(s.checks.Keys);
    assert id !in s.checks.Keys;
  }

  lemma {:induction false} Beyond(ids: set<nat>) returns (id: nat)
    ensures forall i :: i in ids ==> i < id
  {
    id := 0;
    if ids != {} {
      var x :| x in ids;
      var rest := Beyond(ids - {x});
      id := if x < rest then rest else x + 1;
      forall i | i in ids ensures i < id { assert i == x || i in ids - {x}; }
    }
  }

  /** An eviction is a sweep of every account's entry. */
  lemma EvictionIsSweep(cache: Cache, slug: string, at: int, ttl: int)
    ensures EntryOf(Fresh(cache, at, 10 * ttl), slug) == K.Sweep(EntryOf(cache, slug), at, ttl)
  {
  }
}
