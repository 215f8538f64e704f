/** The DNS cache of cache/dns.go. Times are Unix seconds; all TTLs and their bounds are whole seconds. */
module Cache {
  import opened Options
  import opened Messages
  import opened Permutations
  import opened Shuffle
  import CacheKey
  import Texts

  const TWO_32 := 0x1_0000_0000
  const DEFAULT_MIN_TTL := 60
  const DEFAULT_MAX_TTL := 86400

  /**
   The conversion of a TTL to 32 bits. Where it does not fit Go leaves the result open; of the value chosen here only
   that it fits is used.
   */
  function Uint32(x: nat): nat {
    x % TWO_32
  }

  function Clamp(ttl: nat, minTTL: nat, maxTTL: nat): nat {
    var t := if ttl < minTTL then minTTL else ttl;
    if t > maxTTL then maxTTL else t
  }

  /** The TTL a stored record carries. */
  function StoredTTL(ttl: nat, minTTL: nat, maxTTL: nat): nat {
    Uint32(Clamp(ttl, minTTL, maxTTL))
  }

  /** The least clamped TTL, at most the maximum: how long the entry lives. */
  function Expire(vals: seq<RRVal>, minTTL: nat, maxTTL: nat): nat {
    if vals == [] then maxTTL
    else
      var e := Expire(vals[..|vals| - 1], minTTL, maxTTL);
      var t := Clamp(vals[|vals| - 1].ttl, minTTL, maxTTL);
      if t < e then t else e
  }

  function StoredVals(vals: seq<RRVal>, minTTL: nat, maxTTL: nat): (r: seq<RRVal>)
    ensures |r| == |vals|
    ensures forall i | 0 <= i < |vals| :: r[i] == vals[i].(ttl := StoredTTL(vals[i].ttl, minTTL, maxTTL))
  {
    seq(|vals|, i requires 0 <= i < |vals| => vals[i].(ttl := StoredTTL(vals[i].ttl, minTTL, maxTTL)))
  }

  /** The entry Set makes of a response. */
  function StoredEntry(vals: seq<RRVal>, minTTL: nat, maxTTL: nat, now: int): Entry {
    Entry(StoredVals(vals, minTTL, maxTTL), now, now + Expire(vals, minTTL, maxTTL))
  }

  /** Records whose TTL ran down by `elapsed`. */
  function CountedDown(vals: seq<RRVal>, elapsed: nat): (r: seq<RRVal>)
    requires forall i | 0 <= i < |vals| :: vals[i].ttl > elapsed
    ensures |r| == |vals|
    ensures forall i | 0 <= i < |vals| :: r[i] == vals[i].(ttl := vals[i].ttl - elapsed)
  {
    seq(|vals|, i requires 0 <= i < |vals| => vals[i].(ttl := vals[i].ttl - elapsed))
  }

  /** The positions of address records, in order. */
  function AddressPositions(vals: seq<RRVal>): seq<nat> {
    if vals == [] then []
    else
      AddressPositions(vals[..|vals| - 1]) + (if IsAddress(vals[|vals| - 1].rrtype) then [|vals| - 1] else [])
  }

  lemma {:induction false} AddressPositionsAre(vals: seq<RRVal>)
    ensures Positions(AddressPositions(vals), |vals|)
    ensures forall p: nat | p < |vals| :: p in AddressPositions(vals) <==> IsAddress(vals[p].rrtype)
  {
    if vals != [] {
      AddressPositionsAre(vals[..|vals| - 1]);
    }
  }

  lemma RearrangedVals(rrs: seq<RR>, r: seq<RR>, v: seq<RRVal>, w: seq<RRVal>, order: seq<nat>)
    requires v == Vals(rrs) && Rearranges(rrs, r, order) && Rearranges(v, w, order)
    ensures Vals(r) == w
  {
    forall i | 0 <= i < |r| ensures r[i].Val() == w[i] {
      assert w[i] == v[order[i]];
    }
  }

  lemma ShuffledVals(rrs: seq<RR>, draws: seq<nat>)
    requires Draws(draws, |rrs|)
    ensures Vals(Shuffled(rrs, draws)) == Shuffled(Vals(rrs), draws)
  {
    ghost var v := Vals(rrs);
    var order := ShuffledAlike(rrs, v, draws);
    RearrangedVals(rrs, Shuffled(rrs, draws), v, Shuffled(v, draws), order);
  }

  /** An entry's records, and the seconds it was stored at and expires at. */
  datatype Item = Item(resp: seq<RR>, cachedAt: int, expiredAt: int)

  /** An entry by value. */
  datatype Entry = Entry(vals: seq<RRVal>, cachedAt: int, expiredAt: int)

  function Elapsed(cachedAt: int, now: int): nat {
    if now < cachedAt then 0 else now - cachedAt
  }

  /** Get's two tests: the whole entry, then every record. */
  predicate Hit(e: Entry, now: int) {
    now < e.expiredAt && forall i | 0 <= i < |e.vals| :: e.vals[i].ttl > Elapsed(e.cachedAt, now)
  }

  /** Address records in a drawn order among their own positions, everything else where it was. */
  ghost predicate AddressesShuffled(was: seq<RRVal>, now: seq<RRVal>, draws: seq<nat>) {
    var idx := AddressPositions(was);
    && |now| == |was| && Positions(idx, |was|) && Draws(draws, |idx|)
    && multiset(now) == multiset(was)
    && Project(now, idx) == Shuffled(Project(was, idx), draws)
    && forall p: nat | p < |was| && !IsAddress(was[p].rrtype) :: now[p] == was[p]
  }

  /** What a hit returns: every record counted down, then the address records shuffled. */
  ghost predicate IsAnswer(got: seq<RRVal>, e: Entry, now: int, draws: nat -> seq<nat>) {
    && Hit(e, now)
    && AddressesShuffled(CountedDown(e.vals, Elapsed(e.cachedAt, now)), got, draws(|AddressPositions(e.vals)|))
  }

  /** Every record of e outlives the entry, and the entry its storing moment. */
  predicate SoundEntry(e: Entry) {
    e.expiredAt > e.cachedAt && forall i | 0 <= i < |e.vals| :: e.expiredAt - e.cachedAt <= e.vals[i].ttl
  }

  function KeyOf(req: CacheKey.Request): string {
    CacheKey.KeyOf(req.name, req.qtype, CacheKey.FindECS(req.extra))
  }

  method CountDown(answer: array<RR>, elapsed: nat) returns (ok: bool)
    requires NoAliases(answer[..])
    modifies set x | x in answer[..]
    ensures ok <==> forall i | 0 <= i < answer.Length :: old(answer[i].ttl) > elapsed
    ensures ok ==> Vals(answer[..]) == CountedDown(old(Vals(answer[..])), elapsed)
  {
    var i := 0;
    while i < answer.Length
      invariant 0 <= i <= answer.Length
      invariant forall k | 0 <= k < i ::
                  && old(answer[k].ttl) > elapsed
                  && answer[k].Val() == old(answer[k].Val()).(ttl := old(answer[k].ttl) - elapsed)
      invariant forall k | i <= k < answer.Length :: answer[k].Val() == old(answer[k].Val())
    {
      assert answer[..][i] == answer[i];
      if answer[i].ttl <= elapsed {
        return false;
      }
      var rr := answer[i];
      rr.ttl := rr.ttl - elapsed;
      forall k | 0 <= k < answer.Length && k != i ensures answer[k] != rr {
        assert answer[..][k] != answer[..][i];
      }
      i := i + 1;
    }
    return true;
  }

  method AddressIndexes(answer: array<RR>) returns (ipIdx: seq<nat>)
    ensures ipIdx == AddressPositions(Vals(answer[..]))
  {
    ghost var was := Vals(answer[..]);
    ipIdx := [];
    var i := 0;
    while i < answer.Length
      invariant 0 <= i <= answer.Length
      invariant ipIdx == AddressPositions(was[..i])
    {
      assert was[..i + 1][..i] == was[..i];
      if IsAddress(answer[i].rrtype) {
        ipIdx := ipIdx + [i];
      }
      i := i + 1;
    }
    assert was[..answer.Length] == was;
  }

  method ShuffleAddresses(answer: array<RR>, draws: nat -> seq<nat>)
    requires Drawing(draws)
    modifies answer
    ensures forall x | x in answer[..] :: x in old(answer[..])
    ensures AddressesShuffled(old(Vals(answer[..])), Vals(answer[..]), draws(|AddressPositions(old(Vals(answer[..])))|))
  {
    ghost var rrs, was := answer[..], Vals(answer[..]);
    AddressPositionsAre(was);
    var ipIdx := AddressIndexes(answer);
    ShuffleAt(answer, ipIdx, draws(|ipIdx|));
    SameMembers(rrs, answer[..]);
    assert Vals(rrs) == was;
    ValsShuffled(rrs, answer[..], ipIdx, draws(|ipIdx|));
  }

  lemma ValsShuffled(was: seq<RR>, now: seq<RR>, idx: seq<nat>, draws: seq<nat>)
    requires |was| == |now| && idx == AddressPositions(Vals(was)) && Positions(idx, |was|) && Draws(draws, |idx|)
    requires Project(now, idx) == Shuffled(Project(was, idx), draws) && multiset(now) == multiset(was)
    requires forall p: nat | p < |was| && p !in idx :: now[p] == was[p]
    ensures AddressesShuffled(Vals(was), Vals(now), draws)
  {
    AddressPositionsAre(Vals(was));
    AlikePermute(now, Vals(now), was, Vals(was));
    ProjectVals(was, idx);
    ProjectVals(now, idx);
    ShuffledVals(Project(was, idx), draws);
  }

  lemma ProjectVals(rrs: seq<RR>, idx: seq<nat>)
    requires Positions(idx, |rrs|)
    ensures Vals(Project(rrs, idx)) == Project(Vals(rrs), idx)
  {
  }

  ghost function EntryOf(item: Item): Entry
    reads item.resp
  {
    Entry(Vals(item.resp), item.cachedAt, item.expiredAt)
  }

  /** The reply built from an entry that has not expired: a copy, counted down and shuffled. */
  method Reply(item: Item, now: int, draws: nat -> seq<nat>) returns (r: Option<array<RR>>)
    requires now < item.expiredAt && Drawing(draws)
    ensures r.Some? <==> Hit(EntryOf(item), now)
    ensures r.Some? ==> fresh(r.value) && fresh(set x | x in r.value[..])
    ensures r.Some? ==> IsAnswer(Vals(r.value[..]), EntryOf(item), now, draws)
  {
    var answer, ok := CopyAndCount(item, now);
    if !ok {
      return None;
    }
    ghost var rrs, counted, e := answer[..], Vals(answer[..]), EntryOf(item);
    ShuffleAddresses(answer, draws);
    AnswerIs(e, now, counted, Vals(answer[..]), draws);
    assert forall x | x in answer[..] :: x in rrs;
    return Some(answer);
  }

  lemma AnswerIs(e: Entry, now: int, counted: seq<RRVal>, got: seq<RRVal>, draws: nat -> seq<nat>)
    requires Hit(e, now) && counted == CountedDown(e.vals, Elapsed(e.cachedAt, now))
    requires AddressesShuffled(counted, got, draws(|AddressPositions(counted)|))
    ensures IsAnswer(got, e, now, draws)
  {
    SamePositions(e.vals, counted);
  }

  method CopyAndCount(item: Item, now: int) returns (answer: array<RR>, ok: bool)
    requires now < item.expiredAt
    ensures fresh(answer) && fresh(set x | x in answer[..])
    ensures ok <==> Hit(EntryOf(item), now)
    ensures ok ==> Vals(answer[..]) == CountedDown(Vals(item.resp), Elapsed(item.cachedAt, now))
  {
    answer := Copy(item.resp);
    ghost var vals := Vals(answer[..]);
    assert forall i | 0 <= i < answer.Length :: answer[i].ttl == vals[i].ttl;
    ok := CountDown(answer, Elapsed(item.cachedAt, now));
  }

  datatype Config = Config(minTTL: int, maxTTL: int, size: int)

  /** The TTL bounds of NewDNSCache; None when the least exceeds the greatest. */
  function Bounds(conf: Config): (r: Option<(nat, nat)>)
    ensures r.Some? ==> 0 < r.value.0 <= r.value.1
    ensures r.Some? && conf.minTTL > 0 ==> r.value.0 == conf.minTTL
    ensures r.Some? && conf.minTTL <= 0 ==> r.value.0 == DEFAULT_MIN_TTL
    ensures r.Some? && conf.maxTTL > 0 ==> r.value.1 == conf.maxTTL
    ensures r.Some? && conf.maxTTL <= 0 ==> r.value.1 == DEFAULT_MAX_TTL
    ensures r.None? <==> || (conf.maxTTL > 0 && conf.minTTL > conf.maxTTL)
                         || (conf.maxTTL > 0 && conf.minTTL <= 0 && DEFAULT_MIN_TTL > conf.maxTTL)
                         || (conf.maxTTL <= 0 && conf.minTTL > DEFAULT_MAX_TTL)
  {
    var lo := if conf.minTTL > 0 then conf.minTTL else DEFAULT_MIN_TTL;
    var hi := if conf.maxTTL > 0 then conf.maxTTL else DEFAULT_MAX_TTL;
    if lo > hi then None else Some((lo, hi))
  }

  class DNSCache {
    const maxSize: int
    const minTTL: nat
    const maxTTL: nat
    var store: map<string, Item>

    constructor (size: int, bounds: (nat, nat))
      requires 0 < bounds.0 <= bounds.1
      ensures maxSize == size && minTTL == bounds.0 && maxTTL == bounds.1 && store == map[]
    {
      maxSize := size;
      minTTL, maxTTL := bounds.0, bounds.1;
      store := map[];
    }

    ghost function Lookup(key: string): Option<Entry>
      reads this, if key in store then store[key].resp else []
    {
      if key in store then Some(EntryOf(store[key])) else None
    }

    /**
     Whatever Get returns is made of fresh records: it writes to nothing the
     store holds, and takes out at most the entry it found expired.
     */
    method Get(req: CacheKey.Request, now: int, draws: nat -> seq<nat>) returns (r: Option<array<RR>>)
      requires Drawing(draws)
      modifies `store
      ensures var e := old(Lookup(KeyOf(req)));
              && (r.Some? <==> maxSize > 0 && e.Some? && Hit(e.value, now))
              && (r.Some? ==> fresh(r.value) && fresh(set x | x in r.value[..])
                              && IsAnswer(Vals(r.value[..]), e.value, now, draws))
      ensures store == if r.Some? || maxSize <= 0 then old(store) else old(store) - {KeyOf(req)}
    {
      if maxSize <= 0 {
        return None;
      }
      var key := CacheKey.Key(req);
      if key !in store {
        assert store - {key} == store;
        return None;
      }
      var item := store[key];
      var ttl := item.expiredAt - now;
      if ttl <= 0 {
        store := store - {key};
        return None;
      }
      r := Reply(item, now, draws);
      if r == None {
        store := store - {key};
      }
    }

    /** SetWithTTL: the store may decline a new entry, which also drops an old one under the key. */
    method Put(key: string, item: Item, admitted: bool)
      modifies `store
      ensures store == if admitted then old(store)[key := item] else old(store) - {key}
    {
      if admitted {
        store := store[key := item];
      } else {
        store := store - {key};
      }
    }

    method Set(req: CacheKey.Request, resp: Option<seq<RR>>, now: int, admitted: bool)
      modifies `store
      ensures maxSize <= 0 || resp.None? || resp.value == [] ==> store == old(store)
      ensures maxSize > 0 && resp.Some? && resp.value != [] ==>
                if admitted then
                  && KeyOf(req) in store && store == old(store)[KeyOf(req) := store[KeyOf(req)]]
                  && fresh(set x | x in store[KeyOf(req)].resp) && IsItem(store[KeyOf(req)], resp.value, now)
                else store == old(store) - {KeyOf(req)}
    {
      if maxSize <= 0 || resp.None? || |resp.value| == 0 {
        return;
      }
      var item := NewItem(resp.value, minTTL, maxTTL, now);
      var key := CacheKey.Key(req);
      Put(key, item, admitted);
    }

    ghost predicate IsItem(item: Item, resp: seq<RR>, now: int)
      reads item.resp, resp
    {
      EntryOf(item) == StoredEntry(Vals(resp), minTTL, maxTTL, now)
    }

    /** The store may lose entries at any time. */
    method Forget(keys: set<string>)
      modifies `store
      ensures store == old(store) - keys
    {
      store := store - keys;
    }
  }

  lemma {:induction false} SamePositions(a: seq<RRVal>, b: seq<RRVal>)
    requires |a| == |b| && forall i | 0 <= i < |a| :: a[i].rrtype == b[i].rrtype
    ensures AddressPositions(a) == AddressPositions(b)
  {
    if a != [] {
      SamePositions(a[..|a| - 1], b[..|b| - 1]);
    }
  }

  method ClampOne(rr: RR, minTTL: nat, maxTTL: nat) returns (ttl: nat)
    modifies rr
    ensures ttl == Clamp(old(rr.ttl), minTTL, maxTTL)
    ensures rr.Val() == old(rr.Val()).(ttl := StoredTTL(old(rr.ttl), minTTL, maxTTL))
  {
    ttl := rr.ttl;
    if ttl < minTTL {
      ttl := minTTL;
    }
    if ttl > maxTTL {
      ttl := maxTTL;
    }
    rr.ttl := Uint32(ttl);
  }

  method ClampAll(copy: array<RR>, minTTL: nat, maxTTL: nat) returns (expire: nat)
    requires NoAliases(copy[..])
    modifies set x | x in copy[..]
    ensures Vals(copy[..]) == StoredVals(old(Vals(copy[..])), minTTL, maxTTL)
    ensures expire == Expire(old(Vals(copy[..])), minTTL, maxTTL)
  {
    ghost var was := Vals(copy[..]);
    expire := maxTTL;
    var i := 0;
    while i < copy.Length
      invariant 0 <= i <= copy.Length
      invariant forall k | 0 <= k < i :: copy[k].Val() == was[k].(ttl := StoredTTL(was[k].ttl, minTTL, maxTTL))
      invariant forall k | i <= k < copy.Length :: copy[k].Val() == was[k]
      invariant expire == Expire(was[..i], minTTL, maxTTL)
    {
      forall k | 0 <= k < copy.Length && k != i ensures copy[k] != copy[i] {
        assert copy[..][k] != copy[..][i];
      }
      var ttl := ClampOne(copy[i], minTTL, maxTTL);
      if ttl < expire {
        expire := ttl;
      }
      assert was[..i + 1][..i] == was[..i];
      i := i + 1;
    }
    assert was[..copy.Length] == was;
  }

  /** The entry made of a copy of the records. */
  method NewItem(resp: seq<RR>, minTTL: nat, maxTTL: nat, now: int) returns (item: Item)
    ensures fresh(set x | x in item.resp)
    ensures EntryOf(item) == StoredEntry(Vals(resp), minTTL, maxTTL, now)
  {
    var copy := Copy(resp);
    var expire := ClampAll(copy, minTTL, maxTTL);
    item := Item(copy[..], now, now + expire);
  }

  // ------------------------------------------------------------------------------------------------
  // TTLs over the life of an entry

  lemma {:induction false} ExpireIsLeast(vals: seq<RRVal>, minTTL: nat, maxTTL: nat)
    requires minTTL <= maxTTL
    ensures minTTL <= Expire(vals, minTTL, maxTTL) <= maxTTL
    ensures forall i | 0 <= i < |vals| :: Expire(vals, minTTL, maxTTL) <= Clamp(vals[i].ttl, minTTL, maxTTL)
  {
    if vals != [] {
      ExpireIsLeast(vals[..|vals| - 1], minTTL, maxTTL);
    }
  }

  /** No clamped TTL is cut to 32 bits exactly when the configured least TTL fits them. */
  lemma StoredIsClampedIff(minTTL: nat, maxTTL: nat)
    requires minTTL <= maxTTL
    ensures (forall ttl: nat | ttl < TWO_32 :: StoredTTL(ttl, minTTL, maxTTL) == Clamp(ttl, minTTL, maxTTL))
            <==> minTTL < TWO_32
  {
    if minTTL >= TWO_32 {
      assert StoredTTL(0, minTTL, maxTTL) < TWO_32 <= Clamp(0, minTTL, maxTTL);
    }
  }

  /** What Set stores is sound, so Get's test of single records never fails after its test of the entry. */
  lemma StoredIsSound(vals: seq<RRVal>, minTTL: nat, maxTTL: nat, now: int)
    requires 0 < minTTL <= maxTTL && minTTL < TWO_32 && forall i | 0 <= i < |vals| :: vals[i].ttl < TWO_32
    ensures SoundEntry(StoredEntry(vals, minTTL, maxTTL, now))
  {
    ExpireIsLeast(vals, minTTL, maxTTL);
    StoredIsClampedIff(minTTL, maxTTL);
    forall i | 0 <= i < |vals| ensures Expire(vals, minTTL, maxTTL) <= StoredVals(vals, minTTL, maxTTL)[i].ttl {
      assert StoredTTL(vals[i].ttl, minTTL, maxTTL) == Clamp(vals[i].ttl, minTTL, maxTTL);
    }
  }

  lemma HitIffUnexpired(e: Entry, now: int)
    requires SoundEntry(e)
    ensures Hit(e, now) <==> now < e.expiredAt
  {
  }

  /** With a longer least TTL every entry has a moment when it has not expired and yet is not answered. */
  lemma WrappedTTLMisses(v: RRVal, minTTL: nat, maxTTL: nat, now: int)
    requires TWO_32 <= minTTL <= maxTTL && v.ttl < TWO_32
    ensures var e := StoredEntry([v], minTTL, maxTTL, now); now + TWO_32 - 1 < e.expiredAt && !Hit(e, now + TWO_32 - 1)
  {
    ExpireIsLeast([v], minTTL, maxTTL);
    assert StoredVals([v], minTTL, maxTTL)[0].ttl < TWO_32;
  }

  predicate Bounded(vals: seq<RRVal>) {
    forall i | 0 <= i < |vals| :: vals[i].ttl < TWO_32
  }

  /** Entries are answered exactly until they expire, for all responses, if and only if the least TTL fits 32 bits. */
  lemma AnsweredUntilExpiryIff(minTTL: nat, maxTTL: nat)
    requires 0 < minTTL <= maxTTL
    ensures (forall vals, now, later | Bounded(vals) ::
               Hit(StoredEntry(vals, minTTL, maxTTL, now), later)
               <==> later < StoredEntry(vals, minTTL, maxTTL, now).expiredAt)
       <==> minTTL < TWO_32
  {
    if minTTL < TWO_32 {
      forall vals, now, later | Bounded(vals)
        ensures Hit(StoredEntry(vals, minTTL, maxTTL, now), later)
           <==> later < StoredEntry(vals, minTTL, maxTTL, now).expiredAt
      {
        StoredIsSound(vals, minTTL, maxTTL, now);
        HitIffUnexpired(StoredEntry(vals, minTTL, maxTTL, now), later);
      }
    } else {
      var v := RRVal("", A, 0, "");
      WrappedTTLMisses(v, minTTL, maxTTL, 0);
      assert Bounded([v]);
    }
  }

  /** Records with the moment they run out in place of the TTL. */
  function Absolute(vals: seq<RRVal>, at: nat): (r: seq<RRVal>)
    ensures |r| == |vals| && forall i | 0 <= i < |vals| :: r[i] == vals[i].(ttl := vals[i].ttl + at)
  {
    seq(|vals|, i requires 0 <= i < |vals| => vals[i].(ttl := vals[i].ttl + at))
  }

  /** Every hit hands out the same records with the same moments of expiry as were stored, in some order. */
  lemma AbsoluteExpiryIsFixed(e: Entry, got: seq<RRVal>, now: nat, draws: nat -> seq<nat>)
    requires IsAnswer(got, e, now, draws) && 0 <= e.cachedAt <= now
    ensures multiset(Absolute(got, now)) == multiset(Absolute(e.vals, e.cachedAt))
  {
    var counted := CountedDown(e.vals, Elapsed(e.cachedAt, now));
    AbsolutePermutes(got, counted, now);
    CountedKeepsExpiry(e.vals, e.cachedAt, now);
  }

  lemma AbsolutePermutes(a: seq<RRVal>, b: seq<RRVal>, at: nat)
    requires multiset(a) == multiset(b)
    ensures multiset(Absolute(a, at)) == multiset(Absolute(b, at))
  {
    AlikePermute(a, Absolute(a, at), b, Absolute(b, at));
  }

  lemma CountedKeepsExpiry(vals: seq<RRVal>, cachedAt: nat, now: nat)
    requires cachedAt <= now && forall i | 0 <= i < |vals| :: vals[i].ttl > now - cachedAt
    ensures Absolute(CountedDown(vals, now - cachedAt), now) == Absolute(vals, cachedAt)
  {
  }

  /** The same question: name up to case, type, and subnet as it prints. */
  predicate SameQuestion(r: CacheKey.Request, q: CacheKey.Request) {
    && Texts.EqualFold(r.name, q.name) && r.qtype == q.qtype
    && CacheKey.SameSubnet(CacheKey.FindECS(r.extra), CacheKey.FindECS(q.extra))
  }

  predicate LegalRequest(r: CacheKey.Request) {
    CacheKey.Legal(r.name, CacheKey.FindECS(r.extra))
  }

  lemma SameKeyIff(r: CacheKey.Request, q: CacheKey.Request)
    requires LegalRequest(r) && LegalRequest(q)
    ensures KeyOf(r) == KeyOf(q) <==> SameQuestion(r, q)
  {
    CacheKey.KeyIffSameQuestion(r, q);
  }

  /**
   A response stored, then a question: the same question is answered from it until the least of its clamped TTLs has
   passed and not after; any other question is answered as if nothing had been stored.
   */
  method StoreThenAsk(c: DNSCache, r: CacheKey.Request, resp: seq<RR>, now: int, q: CacheKey.Request, later: int,
                      draws: nat -> seq<nat>) returns (got: Option<array<RR>>)
    requires c.maxSize > 0 && 0 < c.minTTL <= c.maxTTL && c.minTTL < TWO_32
    requires resp != [] && Drawing(draws) && (forall rr | rr in resp :: rr.ttl < TWO_32)
    requires LegalRequest(r) && LegalRequest(q)
    modifies c`store
    ensures SameQuestion(r, q) ==>
              var e := StoredEntry(old(Vals(resp)), c.minTTL, c.maxTTL, now);
              && (got.Some? <==> later < e.expiredAt)
              && (got.Some? ==> IsAnswer(Vals(got.value[..]), e, later, draws))
    ensures !SameQuestion(r, q) ==>
              var e := old(c.Lookup(KeyOf(q)));
              && (got.Some? <==> e.Some? && Hit(e.value, later))
              && (got.Some? ==> IsAnswer(Vals(got.value[..]), e.value, later, draws))
  {
    SameKeyIff(r, q);
    ghost var vals := Vals(resp);
    StoredIsSound(vals, c.minTTL, c.maxTTL, now);
    ghost var was := c.Lookup(KeyOf(q));
    c.Set(r, Some(resp), now, true);
    ghost var found := c.Lookup(KeyOf(q));
    assert !SameQuestion(r, q) ==> found == was;
    got := c.Get(q, later, draws);
    assert got.Some? <==> found.Some? && Hit(found.value, later);
  }

  // ------------------------------------------------------------------------------------------------
  // In the client's terms

  /** A TTL within the bounds is kept, and any other becomes the bound it passes. */
  lemma ClampIs(ttl: nat, minTTL: nat, maxTTL: nat)
    requires minTTL <= maxTTL
    ensures minTTL <= Clamp(ttl, minTTL, maxTTL) <= maxTTL
    ensures minTTL <= ttl <= maxTTL ==> Clamp(ttl, minTTL, maxTTL) == ttl
    ensures ttl < minTTL ==> Clamp(ttl, minTTL, maxTTL) == minTTL
    ensures maxTTL < ttl ==> Clamp(ttl, minTTL, maxTTL) == maxTTL
  {
  }

  /** An entry lives as long as one of its records, and by ExpireIsLeast that is the one with the least TTL. */
  lemma {:induction false} ExpireIsAttained(vals: seq<RRVal>, minTTL: nat, maxTTL: nat) returns (i: nat)
    requires minTTL <= maxTTL && vals != []
    ensures i < |vals| && Expire(vals, minTTL, maxTTL) == Clamp(vals[i].ttl, minTTL, maxTTL)
  {
    var n := |vals| - 1;
    if Expire(vals, minTTL, maxTTL) == Clamp(vals[n].ttl, minTTL, maxTTL) || n == 0 {
      i := n;
    } else {
      i := ExpireIsAttained(vals[..n], minTTL, maxTTL);
    }
  }

  /** What is left of a response some seconds after it was stored: TTLs put within the bounds, less those seconds. */
  function LeftOf(vals: seq<RRVal>, minTTL: nat, maxTTL: nat, seconds: nat): (r: seq<RRVal>)
    requires forall i | 0 <= i < |vals| :: Clamp(vals[i].ttl, minTTL, maxTTL) > seconds
    ensures |r| == |vals|
  {
    seq(|vals|, i requires 0 <= i < |vals| => vals[i].(ttl := Clamp(vals[i].ttl, minTTL, maxTTL) - seconds))
  }

  /**
   What a hit hands out: exactly the records that were stored, each with what is left of its TTL; none but address
   records move. A clock that has gone back counts as one that stands still.
   */
  lemma HitIs(vals: seq<RRVal>, minTTL: nat, maxTTL: nat, stored: int, now: int, got: seq<RRVal>,
              draws: nat -> seq<nat>)
    requires 0 < minTTL <= maxTTL && minTTL < TWO_32 && Bounded(vals)
    requires IsAnswer(got, StoredEntry(vals, minTTL, maxTTL, stored), now, draws)
    ensures var seconds := if now < stored then 0 else now - stored;
            && (forall i | 0 <= i < |vals| :: Clamp(vals[i].ttl, minTTL, maxTTL) > seconds)
            && multiset(got) == multiset(LeftOf(vals, minTTL, maxTTL, seconds)) && |got| == |vals|
            && forall p | 0 <= p < |vals| && vals[p].rrtype != A && vals[p].rrtype != AAAA ::
                 got[p] == LeftOf(vals, minTTL, maxTTL, seconds)[p]
  {
    CountedIs(vals, minTTL, maxTTL, stored, now);
  }

  lemma CountedIs(vals: seq<RRVal>, minTTL: nat, maxTTL: nat, stored: int, now: int)
    requires 0 < minTTL <= maxTTL && minTTL < TWO_32 && Bounded(vals)
    requires Hit(StoredEntry(vals, minTTL, maxTTL, stored), now)
    ensures var seconds := if now < stored then 0 else now - stored;
            && (forall i | 0 <= i < |vals| :: Clamp(vals[i].ttl, minTTL, maxTTL) > seconds)
            && CountedDown(StoredEntry(vals, minTTL, maxTTL, stored).vals, Elapsed(stored, now))
               == LeftOf(vals, minTTL, maxTTL, seconds)
  {
    StoredIsClampedIff(minTTL, maxTTL);
    var e := StoredEntry(vals, minTTL, maxTTL, stored);
    forall i | 0 <= i < |vals| ensures e.vals[i] == vals[i].(ttl := Clamp(vals[i].ttl, minTTL, maxTTL)) {
      assert StoredTTL(vals[i].ttl, minTTL, maxTTL) == Clamp(vals[i].ttl, minTTL, maxTTL);
    }
  }

  /** Without a configuration entries live between one minute and one day. */
  lemma DefaultBounds(size: int)
    ensures Bounds(Config(0, 0, size)) == Some((60, 86400))
  {
  }
}
