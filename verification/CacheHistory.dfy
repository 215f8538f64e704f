/** What the cache of cache/dns.go answers after any history of Set, Get and losses of its store. */
module CacheHistory {
  import opened Options
  import opened Messages
  import opened Cache
  import opened Shuffle
  import CacheKey

  /** What NewDNSCache fixes. */
  datatype Settings = Settings(maxSize: int, minTTL: nat, maxTTL: nat)

  predicate Sane(c: Settings) {
    0 < c.minTTL <= c.maxTTL && c.minTTL < TWO_32
  }

  /** One call, with the clock it reads, or a loss inside the store. `admitted`: whether the store takes a new entry. */
  datatype Event =
    | Set(req: CacheKey.Request, resp: Option<seq<RRVal>>, now: int, admitted: bool)
    | Get(req: CacheKey.Request, now: int)
    | Lose(keys: set<string>)

  type Store = map<string, Entry>

  /** A Set that gets as far as the store: the cache is on and the response has answers. */
  predicate Stores(c: Settings, e: Event) {
    e.Set? && c.maxSize > 0 && e.resp.Some? && e.resp.value != []
  }

  function EntryFor(c: Settings, e: Event): Entry
    requires Stores(c, e)
  {
    StoredEntry(e.resp.value, c.minTTL, c.maxTTL, e.now)
  }

  function Step(c: Settings, store: Store, e: Event): Store {
    match e
    case Set(req, _, _, admitted) =>
      if !Stores(c, e) then store
      else if admitted then store[KeyOf(req) := EntryFor(c, e)]
      else store - {KeyOf(req)}
    case Get(req, now) =>
      if c.maxSize <= 0 || (KeyOf(req) in store && Hit(store[KeyOf(req)], now)) then store else store - {KeyOf(req)}
    case Lose(keys) => store - keys
  }

  function After(c: Settings, hist: seq<Event>): Store {
    if hist == [] then map[] else Step(c, After(c, hist[..|hist| - 1]), hist[|hist| - 1])
  }

  /** The entry a Get for q at time t is answered from. */
  function Found(c: Settings, hist: seq<Event>, q: CacheKey.Request, t: int): Option<Entry> {
    var store := After(c, hist);
    if c.maxSize > 0 && KeyOf(q) in store && Hit(store[KeyOf(q)], t) then Some(store[KeyOf(q)]) else None
  }

  // ------------------------------------------------------------------------------------------------
  // The class runs these histories

  /** All records of a store. */
  ghost function Held(store: map<string, Item>): (r: set<RR>)
    ensures forall k, x | k in store && x in store[k].resp :: x in r
  {
    set k, x | k in store && x in store[k].resp :: x
  }

  ghost predicate Represents(cache: DNSCache, c: Settings, store: Store)
    reads cache, Held(cache.store)
  {
    && cache.maxSize == c.maxSize && cache.minTTL == c.minTTL && cache.maxTTL == c.maxTTL
    && cache.store.Keys == store.Keys
    && forall k | k in store :: EntryOf(cache.store[k]) == store[k]
  }

  /** NewDNSCache: an empty history. */
  method NewDNSCache(conf: Config) returns (r: Option<DNSCache>, c: Settings)
    ensures r.Some? <==> Bounds(conf).Some?
    ensures r.Some? ==>
              && c == Settings(conf.size, Bounds(conf).value.0, Bounds(conf).value.1)
              && fresh(r.value) && Represents(r.value, c, After(c, []))
  {
    var bounds := Bounds(conf);
    c := Settings(conf.size, 0, 0);
    if bounds.None? {
      return None, c;
    }
    c := Settings(conf.size, bounds.value.0, bounds.value.1);
    var cache := new DNSCache(conf.size, bounds.value);
    return Some(cache), c;
  }

  method ReplaySet(cache: DNSCache, c: Settings, ghost hist: seq<Event>, req: CacheKey.Request, resp: Option<seq<RR>>,
                   now: int, admitted: bool)
    requires Represents(cache, c, After(c, hist))
    modifies cache`store
    ensures var vals := if resp.Some? then Some(old(Vals(resp.value))) else None;
            Represents(cache, c, After(c, hist + [Set(req, vals, now, admitted)]))
  {
    ghost var e := Set(req, if resp.Some? then Some(Vals(resp.value)) else None, now, admitted);
    AfterThen(c, hist, e);
    cache.Set(req, resp, now, admitted);
  }

  method ReplayGet(cache: DNSCache, c: Settings, ghost hist: seq<Event>, q: CacheKey.Request, now: int,
                   draws: nat -> seq<nat>) returns (r: Option<array<RR>>)
    requires Represents(cache, c, After(c, hist)) && Drawing(draws)
    modifies cache`store
    ensures r.Some? <==> Found(c, hist, q, now).Some?
    ensures r.Some? ==> IsAnswer(Vals(r.value[..]), Found(c, hist, q, now).value, now, draws)
    ensures Represents(cache, c, After(c, hist + [Get(q, now)]))
  {
    AfterThen(c, hist, Get(q, now));
    r := cache.Get(q, now, draws);
  }

  method ReplayLoss(cache: DNSCache, c: Settings, ghost hist: seq<Event>, keys: set<string>)
    requires Represents(cache, c, After(c, hist))
    modifies cache`store
    ensures Represents(cache, c, After(c, hist + [Lose(keys)]))
  {
    AfterThen(c, hist, Lose(keys));
    cache.Forget(keys);
  }

  lemma AfterThen(c: Settings, hist: seq<Event>, e: Event)
    ensures After(c, hist + [e]) == Step(c, After(c, hist), e)
  {
    assert (hist + [e])[..|hist|] == hist;
  }

  // ------------------------------------------------------------------------------------------------
  // Which entry answers

  /** Requests with qualified names and well-formed subnets, and TTLs of 32 bits. */
  ghost predicate LegalHistory(hist: seq<Event>) {
    forall i | 0 <= i < |hist| ::
      && (hist[i].Set? || hist[i].Get? ==> LegalRequest(hist[i].req))
      && (hist[i].Set? && hist[i].resp.Some? ==> Bounded(hist[i].resp.value))
  }

  /** No clock reading is later than t. */
  ghost predicate Until(hist: seq<Event>, t: int) {
    forall i | 0 <= i < |hist| && !hist[i].Lose? :: hist[i].now <= t
  }

  /** Event k stored a response to the question of q, and since then none was stored for it and the store kept it. */
  ghost predicate LastStored(c: Settings, hist: seq<Event>, k: nat, q: CacheKey.Request) {
    && k < |hist| && Stores(c, hist[k]) && hist[k].admitted && SameQuestion(hist[k].req, q)
    && forall j | k < j < |hist| :: Spares(c, hist[j], q)
  }

  /** The event neither stores for the question of q nor loses what is stored for it. */
  predicate Spares(c: Settings, e: Event, q: CacheKey.Request) {
    (Stores(c, e) ==> !SameQuestion(e.req, q)) && (e.Lose? ==> KeyOf(q) !in e.keys)
  }

  lemma LastStoredBefore(c: Settings, front: seq<Event>, e: Event, k: nat, q: CacheKey.Request)
    ensures LastStored(c, front + [e], k, q) && k < |front| ==> LastStored(c, front, k, q)
    ensures LastStored(c, front, k, q) && Spares(c, e, q) ==> LastStored(c, front + [e], k, q)
  {
    assert forall j | 0 <= j < |front| :: (front + [e])[j] == front[j];
  }

  /** Whatever the store holds under a question's key was stored for that question, and last. */
  lemma {:induction false} HeldIsLast(c: Settings, hist: seq<Event>, q: CacheKey.Request) returns (k: nat)
    requires LegalHistory(hist) && LegalRequest(q) && KeyOf(q) in After(c, hist)
    ensures LastStored(c, hist, k, q) && After(c, hist)[KeyOf(q)] == EntryFor(c, hist[k])
  {
    var front, e := hist[..|hist| - 1], hist[|hist| - 1];
    assert hist == front + [e];
    if !e.Lose? {
      SameKeyIff(e.req, q);
    }
    if Stores(c, e) && SameQuestion(e.req, q) {
      k := |front|;
    } else {
      k := HeldIsLast(c, front, q);
      LastStoredBefore(c, front, e, k, q);
    }
  }

  /** Until it expires, the last stored entry is still there. */
  lemma {:induction false} LastIsHeld(c: Settings, hist: seq<Event>, k: nat, q: CacheKey.Request, t: int)
    requires Sane(c) && LegalHistory(hist) && LegalRequest(q) && Until(hist, t) && LastStored(c, hist, k, q)
    requires t < EntryFor(c, hist[k]).expiredAt
    ensures KeyOf(q) in After(c, hist) && After(c, hist)[KeyOf(q)] == EntryFor(c, hist[k])
  {
    var front, e := hist[..|hist| - 1], hist[|hist| - 1];
    assert hist == front + [e];
    if !e.Lose? {
      SameKeyIff(e.req, q);
    }
    if k < |front| {
      LastStoredBefore(c, front, e, k, q);
      LastIsHeld(c, front, k, q, t);
      EntryIsSound(c, hist[k]);
    }
  }

  lemma EntryIsSound(c: Settings, e: Event)
    requires Sane(c) && Stores(c, e) && Bounded(e.resp.value)
    ensures SoundEntry(EntryFor(c, e))
  {
    StoredIsSound(e.resp.value, c.minTTL, c.maxTTL, e.now);
  }

  /**
   Over every history, a question is answered from an entry if and only if it is the entry of the last response stored
   for that question, the store has not refused or lost it since, and it has not expired.
   */
  lemma FoundIffLastStored(c: Settings, hist: seq<Event>, q: CacheKey.Request, t: int, e: Entry)
    requires Sane(c) && LegalHistory(hist) && LegalRequest(q) && Until(hist, t)
    ensures Found(c, hist, q, t) == Some(e) <==>
              exists k: nat :: LastStored(c, hist, k, q) && e == EntryFor(c, hist[k]) && t < e.expiredAt
  {
    if Found(c, hist, q, t) == Some(e) {
      var k := HeldIsLast(c, hist, q);
    }
    forall k: nat | LastStored(c, hist, k, q) && e == EntryFor(c, hist[k]) && t < e.expiredAt
      ensures Found(c, hist, q, t) == Some(e)
    {
      LastIsHeld(c, hist, k, q, t);
      EntryIsSound(c, hist[k]);
    }
  }

  /** Every entry a question is answered from outlives none of its records. */
  lemma FoundIsSound(c: Settings, hist: seq<Event>, q: CacheKey.Request, t: int)
    requires Sane(c) && LegalHistory(hist) && LegalRequest(q) && Found(c, hist, q, t).Some?
    ensures SoundEntry(Found(c, hist, q, t).value)
  {
    var k := HeldIsLast(c, hist, q);
    EntryIsSound(c, hist[k]);
  }

  /** So two answers to one question with nothing stored between run out, record by record, at the same moments. */
  lemma AnswersAgree(c: Settings, hist: seq<Event>, q: CacheKey.Request, t: nat, got: seq<RRVal>,
                     draws: nat -> seq<nat>, more: seq<Event>, later: nat, again: seq<RRVal>, draws': nat -> seq<nat>)
    requires Sane(c) && LegalHistory(hist + more) && LegalRequest(q) && t <= later && Until(hist, t)
    requires forall i | 0 <= i < |more| && Stores(c, more[i]) :: !SameQuestion(more[i].req, q)
    requires var e := Found(c, hist, q, t); e.Some? && 0 <= e.value.cachedAt && IsAnswer(got, e.value, t, draws)
    requires var e := Found(c, hist + more, q, later); e.Some? && IsAnswer(again, e.value, later, draws')
    ensures multiset(Absolute(again, later)) == multiset(Absolute(got, t))
  {
    var all := hist + more;
    assert LegalHistory(hist) by {
      assert forall i | 0 <= i < |hist| :: all[i] == hist[i];
    }
    var k := HeldIsLast(c, hist, q);
    var m := HeldIsLast(c, all, q);
    SameLast(c, hist, more, k, m, q);
    AbsoluteExpiryIsFixed(EntryFor(c, hist[k]), got, t, draws);
    AbsoluteExpiryIsFixed(EntryFor(c, hist[k]), again, later, draws');
  }

  lemma SameLast(c: Settings, hist: seq<Event>, more: seq<Event>, k: nat, m: nat, q: CacheKey.Request)
    requires LastStored(c, hist, k, q) && LastStored(c, hist + more, m, q)
    requires forall i | 0 <= i < |more| && Stores(c, more[i]) :: !SameQuestion(more[i].req, q)
    ensures m == k && (hist + more)[m] == hist[k]
  {
    var all := hist + more;
    assert forall j | |hist| <= j < |all| :: all[j] == more[j - |hist|];
    assert forall j | 0 <= j < |hist| :: all[j] == hist[j];
  }

  /** A response is stored if the cache is on and it has answers; any other leaves the cache as it was. */
  lemma StoresIff(c: Settings, e: Event)
    ensures Stores(c, e) <==> c.maxSize > 0 && e.Set? && e.resp.Some? && |e.resp.value| > 0
    ensures e.Set? && !Stores(c, e) ==> forall hist :: After(c, hist + [e]) == After(c, hist)
  {
    forall hist | e.Set? && !Stores(c, e) ensures After(c, hist + [e]) == After(c, hist) {
      AfterThen(c, hist, e);
    }
  }

  /** A cache that is off answers nothing. */
  lemma OffAnswersNothing(c: Settings, hist: seq<Event>, q: CacheKey.Request, t: int)
    requires c.maxSize <= 0
    ensures Found(c, hist, q, t) == None
  {
  }
}
