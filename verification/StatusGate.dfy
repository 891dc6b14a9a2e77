/** The account kill switch: a status cache with a freshness bound and a ride-out bound. */
module StatusGate {
  import opened Basics

  const ACCOUNT_PREFIX: string := "acct:"

  datatype Status = Active | Inactive

  /** What the gate and the budget cascade read of an account: its status and its two overrides. */
  datatype Account = Account(status: Status, rateLimitOverride: int, monthlyQuotaOverride: int)

  /** One memoised account read, stamped with the reader's clock before the read. */
  datatype Cached = Cached(acct: Account, at: int)

  /** What the account store answers. */
  datatype StoreAnswer = Found(acct: Account) | NotFound | Failed

  /** `Known` carries the account read, and whether its status lets the request through. */
  datatype Verdict = NotAnAccount | Known(acct: Account, allowed: bool) | Unauthorized | Unavailable

  type Cache = map<string, Cached>

  function SlugOf(identifier: string): Option<string> {
    if ACCOUNT_PREFIX <= identifier && |identifier| > |ACCOUNT_PREFIX|
    then Some(identifier[|ACCOUNT_PREFIX|..]) else None
  }

  function AccountVerdict(acct: Account): Verdict { Known(acct, acct.status == Active) }

  predicate Usable(cache: Cache, slug: string, now: int, window: int) {
    slug in cache && now - cache[slug].at <= window
  }

  /** The answer of one check against the cache, and what it leaves in the cache before eviction. */
  function Answer(cache: Cache, ttl: int, identifier: string, now: int, store: StoreAnswer): Verdict {
    match SlugOf(identifier)
    case None => NotAnAccount
    case Some(slug) =>
      if Usable(cache, slug, now, ttl) then AccountVerdict(cache[slug].acct)
      else
        match store
        case Found(acct) => AccountVerdict(acct)
        case NotFound => Unauthorized
        case Failed => if Usable(cache, slug, now, 10 * ttl) then AccountVerdict(cache[slug].acct) else Unavailable
  }

  /** An identifier names an account exactly when it is "acct:" and a non-empty slug. */
  lemma SlugExactly(identifier: string, slug: string)
    ensures SlugOf(identifier) == Some(slug) <==> slug != "" && identifier == "acct:" + slug
  {
    if SlugOf(identifier) == Some(slug) {
      assert identifier == identifier[..5] + identifier[5..];
    }
    if identifier == "acct:" + slug {
      assert identifier[..5] == "acct:" && identifier[5..] == slug;
    }
  }

  /** The account status a check goes by: a fresh cached one, else the store's, else a cached one within ten ttl. */
  ghost predicate GoesBy(cache: Cache, ttl: int, slug: string, now: int, store: StoreAnswer, acct: Account) {
    var recent := slug in cache && now <= cache[slug].at + ttl;
    || (recent && acct == cache[slug].acct)
    || (!recent && store == Found(acct))
    || (!recent && store == Failed && slug in cache && now <= cache[slug].at + 10 * ttl && acct == cache[slug].acct)
  }

  /** A check lets a request through exactly when the account it goes by is active, and turns it away exactly when that is not. */
  lemma AllowedExactly(cache: Cache, ttl: int, slug: string, now: int, store: StoreAnswer)
    requires slug != ""
    ensures var v := Answer(cache, ttl, "acct:" + slug, now, store);
            && (forall acct :: v == Known(acct, true) <==> acct.status == Active && GoesBy(cache, ttl, slug, now, store, acct))
            && (forall acct :: v == Known(acct, false) <==> acct.status == Inactive && GoesBy(cache, ttl, slug, now, store, acct))
            && (v == Unauthorized || v == Unavailable <==> forall acct :: !GoesBy(cache, ttl, slug, now, store, acct))
            && (v == Unauthorized ==> store == NotFound) && (v == Unavailable ==> store == Failed) && v != NotAnAccount
  {
    SlugExactly("acct:" + slug, slug);
    var v := Answer(cache, ttl, "acct:" + slug, now, store);
    if v.Known? { assert GoesBy(cache, ttl, slug, now, store, v.acct); }
  }

  predicate Stores(cache: Cache, ttl: int, identifier: string, now: int, store: StoreAnswer) {
    var slug := SlugOf(identifier);
    slug.Some? && !Usable(cache, slug.value, now, ttl) && store.Found?
  }

  function Stored(cache: Cache, ttl: int, identifier: string, now: int, store: StoreAnswer): Cache {
    if Stores(cache, ttl, identifier, now, store) then cache[SlugOf(identifier).value := Cached(store.acct, now)]
    else cache
  }

  /** The entries still within the ride-out bound. */
  function Fresh(cache: Cache, now: int, maxStale: int): Cache {
    map slug | slug in cache && now - cache[slug].at <= maxStale :: cache[slug]
  }

  function Swept(cache: Cache, ttl: int, identifier: string, now: int, store: StoreAnswer): Cache {
    if Stores(cache, ttl, identifier, now, store) then Fresh(Stored(cache, ttl, identifier, now, store), now, 10 * ttl)
    else cache
  }

  /** The gate's fields; `store` below stands for the GetBySlug call. Without an account reader the gate is off. */
  class Gate {
    const hasReader: bool
    const ttl: int
    const maxStale: int
    var cache: Cache

    constructor (hasReader: bool, ttl: int)
      ensures this.hasReader == hasReader && this.ttl == ttl && maxStale == 10 * ttl && cache == map[]
    {
      this.hasReader, this.ttl, this.maxStale, cache := hasReader, ttl, 10 * ttl, map[];
    }

    method Check(identifier: string, now: int, store: string -> StoreAnswer) returns (v: Verdict)
      requires maxStale == 10 * ttl
      modifies this
      ensures !hasReader ==> v == NotAnAccount && cache == old(cache)
      ensures hasReader ==>
                var answer := if SlugOf(identifier).Some? then store(SlugOf(identifier).value) else Failed;
                && v == Answer(old(cache), ttl, identifier, now, answer)
                && (v.Known? ==> (v.allowed <==> v.acct.status == Active))
                && cache == Swept(old(cache), ttl, identifier, now, answer)
    {
      if !hasReader {
        return NotAnAccount;
      }
      var slug := SlugOf(identifier);
      if slug.None? {
        return NotAnAccount;
      }
      if Usable(cache, slug.value, now, ttl) {
        return AccountVerdict(cache[slug.value].acct);
      }
      match store(slug.value) {
        case NotFound =>
          return Unauthorized;
        case Failed =>
          if Usable(cache, slug.value, now, maxStale) {
            return AccountVerdict(cache[slug.value].acct);
          }
          return Unavailable;
        case Found(acct) =>
          StoreStatus(slug.value, acct, now);
          return AccountVerdict(acct);
      }
    }

    method StoreStatus(slug: string, acct: Account, at: int)
      modifies this
      ensures cache == Fresh(old(cache)[slug := Cached(acct, at)], at, maxStale)
    {
      cache := cache[slug := Cached(acct, at)];
      EvictStaleStatus(at);
    }

    method EvictStaleStatus(now: int)
      modifies this
      ensures cache == Fresh(old(cache), now, maxStale)
    {
      var pending := cache.Keys;
      while pending != {}
        invariant pending <= cache.Keys <= old(cache).Keys
        invariant forall s :: s in cache ==> cache[s] == old(cache)[s]
        invariant forall s :: s in old(cache) && s !in pending ==> (s in cache <==> now - old(cache)[s].at <= maxStale)
        decreases pending
      {
        var s :| s in pending;
        if now - cache[s].at > maxStale {
          cache := cache - {s};
        }
        pending := pending - {s};
      }
    }
  }

  // Eviction is invisible to checks made one after another.

  datatype Call = Call(identifier: string, now: int, store: StoreAnswer)

  /** The answers to a sequence of checks, with or without the eviction. */
  function Answers(cache: Cache, ttl: int, calls: seq<Call>, evicting: bool): seq<Verdict>
    decreases |calls|
  {
    if calls == [] then []
    else
      var c := calls[0];
      var cache' := if evicting then Swept(cache, ttl, c.identifier, c.now, c.store)
                    else Stored(cache, ttl, c.identifier, c.now, c.store);
      [Answer(cache, ttl, c.identifier, c.now, c.store)] + Answers(cache', ttl, calls[1..], evicting)
  }

  /** The evicting cache lost only entries too old for any check from time `since` on. */
  ghost predicate LostOnlyStale(small: Cache, full: Cache, ttl: int, since: int) {
    && (forall s :: s in small ==> s in full && small[s] == full[s])
    && (forall s :: s in full && s !in small ==> since - full[s].at > 10 * ttl)
  }

  lemma SameAnswer(small: Cache, full: Cache, ttl: int, since: int, c: Call)
    requires ttl >= 0 && LostOnlyStale(small, full, ttl, since) && since <= c.now
    ensures Answer(small, ttl, c.identifier, c.now, c.store) == Answer(full, ttl, c.identifier, c.now, c.store)
    ensures LostOnlyStale(Swept(small, ttl, c.identifier, c.now, c.store), Stored(full, ttl, c.identifier, c.now, c.store), ttl, c.now)
  {
  }

  lemma {:induction false} EvictionInvisibleFrom(small: Cache, full: Cache, ttl: int, since: int, calls: seq<Call>)
    requires ttl >= 0 && LostOnlyStale(small, full, ttl, since)
    requires forall i :: 0 <= i < |calls| ==> since <= calls[i].now
    requires forall i, j :: 0 <= i < j < |calls| ==> calls[i].now <= calls[j].now
    ensures Answers(small, ttl, calls, true) == Answers(full, ttl, calls, false)
    decreases |calls|
  {
    if calls != [] {
      var c := calls[0];
      SameAnswer(small, full, ttl, since, c);
      EvictionInvisibleFrom(Swept(small, ttl, c.identifier, c.now, c.store),
                            Stored(full, ttl, c.identifier, c.now, c.store), ttl, c.now, calls[1..]);
    }
  }

  /** Checks one after another under a monotone clock get the same answers as from a cache that never evicts. */
  lemma EvictionInvisible(cache: Cache, ttl: int, calls: seq<Call>)
    requires ttl >= 0
    requires forall i, j :: 0 <= i < j < |calls| ==> calls[i].now <= calls[j].now
    ensures Answers(cache, ttl, calls, true) == Answers(cache, ttl, calls, false)
  {
    if calls != [] {
      EvictionInvisibleFrom(cache, cache, ttl, calls[0].now, calls);
    }
  }
}
