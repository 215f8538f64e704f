/**
 Which upstream callers a group asks for a host: the per-host statistics of outbound/groups.go, their one-hour
 reselect window, and the eviction of idle hosts. Times are nanoseconds; 0 is Go's zero time.
 */
module HostSelection {
  import opened Options

  type Time = nat

  const SECOND: Time := 1_000_000_000
  const HOUR: Time := 3_600_000_000_000
  const RESELECT_INTERVAL: Time := 3600 * SECOND
  const STATS_TTL: Time := 24 * 3600 * SECOND
  const CLEANUP_INTERVAL: Time := 300 * SECOND

  datatype CallerState = Idle | Active

  datatype Stats = Stats(activeIndex: int, state: CallerState, seen: bool, lastUsed: Time, reselectAfter: Time)

  type Table = map<string, Stats>

  const UNSEEN := Stats(-1, Idle, false, 0, 0)

  function Indices(n: nat): (r: seq<nat>)
    ensures |r| == n && forall i | 0 <= i < n :: r[i] == i
  {
    seq(n, i => i)
  }

  // ------------------------------------------------------------------------------------------------
  // What each operation computes

  predicate Stale(e: Stats, now: Time) {
    e.lastUsed != 0 && now - e.lastUsed > STATS_TTL
  }

  predicate CleanupDue(lastCleanup: Time, now: Time) {
    lastCleanup == 0 || now - lastCleanup >= CLEANUP_INTERVAL
  }

  function Cleaned(table: Table, now: Time): Table {
    map h | h in table && !Stale(table[h], now) :: table[h]
  }

  function Touched(table: Table, host: string, now: Time): Table {
    if host in table then table[host := table[host].(lastUsed := now)] else table
  }

  /** The callers asked for a host with entry e, out of n. */
  function Candidates(e: Option<Stats>, now: Time, n: nat): seq<nat> {
    if e.None? || !e.value.seen then Indices(n)
    else if e.value.state.Active? && now >= e.value.reselectAfter then Indices(n)
    else if e.value.state.Active? && 0 <= e.value.activeIndex < n then [e.value.activeIndex]
    else Indices(n)
  }

  function Entry(table: Table, host: string): Option<Stats> {
    if host in table then Some(table[host]) else None
  }

  function Ensured(table: Table, host: string, used: Time): Stats {
    (if host in table then table[host] else UNSEEN).(lastUsed := used)
  }

  function Won(e: Stats, w: int, now: Time): Stats {
    var reset := !e.seen || e.state != Active || e.activeIndex != w || now >= e.reselectAfter;
    var after := if reset then now + RESELECT_INTERVAL else e.reselectAfter;
    e.(activeIndex := w, state := Active, seen := true, reselectAfter := after)
  }

  function Failed(e: Stats, w: int): Stats {
    if !e.seen || e.activeIndex == w then e.(activeIndex := -1, state := Idle, seen := true) else e
  }

  // ------------------------------------------------------------------------------------------------
  // The group's state, updated in place

  class HostTable {
    const callers: nat
    var hostStats: Table
    var lastCleanup: Time

    constructor (n: nat)
      ensures callers == n && hostStats == map[] && lastCleanup == 0
    {
      callers := n;
      hostStats := map[];
      lastCleanup := 0;
    }

    method Cleanup(now: Time)
      modifies this
      ensures hostStats == if CleanupDue(old(lastCleanup), now) then Cleaned(old(hostStats), now) else old(hostStats)
      ensures lastCleanup == if CleanupDue(old(lastCleanup), now) then now else old(lastCleanup)
    {
      if lastCleanup != 0 && now - lastCleanup < CLEANUP_INTERVAL {
        return;
      }
      lastCleanup := now;
      ghost var before := hostStats;
      var todo := hostStats.Keys;
      while todo != {}
        invariant todo <= hostStats.Keys <= before.Keys
        invariant lastCleanup == now
        invariant forall h | h in hostStats :: hostStats[h] == before[h]
        invariant forall h | h in before && h !in todo :: h in hostStats <==> !Stale(before[h], now)
        decreases todo
      {
        var host :| host in todo;
        var entry := hostStats[host];
        if entry.lastUsed != 0 && now - entry.lastUsed > STATS_TTL {
          hostStats := hostStats - {host};
        }
        todo := todo - {host};
      }
    }

    method CandidatesForHost(host: string, now: Time) returns (r: seq<nat>)
      modifies this
      ensures var cleaned := if CleanupDue(old(lastCleanup), now) then Cleaned(old(hostStats), now) else old(hostStats);
              && hostStats == Touched(cleaned, host, now)
              && r == Candidates(Entry(hostStats, host), now, callers)
      ensures lastCleanup == if CleanupDue(old(lastCleanup), now) then now else old(lastCleanup)
    {
      Cleanup(now);
      if host !in hostStats {
        return Indices(callers);
      }
      hostStats := hostStats[host := hostStats[host].(lastUsed := now)];
      var entry := hostStats[host];
      if !entry.seen {
        return Indices(callers);
      }
      if entry.state == Active && now >= entry.reselectAfter {
        return Indices(callers);
      }
      if entry.state == Active && entry.activeIndex >= 0 && entry.activeIndex < callers {
        return [entry.activeIndex];
      }
      return Indices(callers);
    }

    method EnsureHostStats(host: string, used: Time)
      modifies `hostStats
      ensures hostStats == old(hostStats)[host := Ensured(old(hostStats), host, used)]
    {
      if host !in hostStats {
        hostStats := hostStats[host := UNSEEN];
      }
      hostStats := hostStats[host := hostStats[host].(lastUsed := used)];
    }

    /** `used` is the second clock reading, inside ensureHostStatsLocked. */
    method RecordCallerSuccess(host: string, w: int, now: Time, used: Time)
      modifies `hostStats
      ensures hostStats ==
        if 0 <= w < callers then old(hostStats)[host := Won(Ensured(old(hostStats), host, used), w, now)]
        else old(hostStats)
    {
      if w < 0 || w >= callers {
        return;
      }
      EnsureHostStats(host, used);
      var entry := hostStats[host];
      var shouldReset := !entry.seen || entry.state != Active || entry.activeIndex != w || now >= entry.reselectAfter;
      entry := entry.(activeIndex := w);
      entry := entry.(state := Active);
      entry := entry.(seen := true);
      if shouldReset {
        entry := entry.(reselectAfter := now + RESELECT_INTERVAL);
      }
      hostStats := hostStats[host := entry];
    }

    method RecordCallerFailure(host: string, w: int, used: Time)
      modifies `hostStats
      ensures hostStats ==
        if 0 <= w < callers then old(hostStats)[host := Failed(Ensured(old(hostStats), host, used), w)]
        else old(hostStats)
    {
      if w < 0 || w >= callers {
        return;
      }
      EnsureHostStats(host, used);
      var entry := hostStats[host];
      if !entry.seen || entry.activeIndex == w {
        hostStats := hostStats[host := entry.(activeIndex := -1, state := Idle, seen := true)];
      }
    }
  }

  // ------------------------------------------------------------------------------------------------
  // Histories

  /** One critical section under stateMu, with the clock readings inside it. */
  datatype Event =
    | Query(host: string, now: Time)
    | Success(host: string, w: int, now: Time, used: Time)
    | Failure(host: string, w: int, used: Time)

  function First(e: Event): Time {
    if e.Failure? then e.used else e.now
  }

  function Last(e: Event): Time {
    if e.Query? then e.now else e.used
  }

  /** A clock that has started and never runs backwards, within a critical section or between two. */
  ghost predicate Monotone(hist: seq<Event>) {
    && (forall i | 0 <= i < |hist| :: 0 < First(hist[i]) <= Last(hist[i]))
    && (forall i, j | 0 <= i < j < |hist| :: Last(hist[i]) <= First(hist[j]))
  }

  function Clock(hist: seq<Event>): Time {
    if hist == [] then 0 else Last(hist[|hist| - 1])
  }

  datatype Model = Model(table: Table, lastCleanup: Time)

  /** One event; with `evict` off, idle entries are never deleted. */
  function Step(n: nat, evict: bool, m: Model, e: Event): Model {
    match e
    case Query(host, now) =>
      if evict && CleanupDue(m.lastCleanup, now) then Model(Touched(Cleaned(m.table, now), host, now), now)
      else Model(Touched(m.table, host, now), m.lastCleanup)
    case Success(host, w, now, used) =>
      if 0 <= w < n then m.(table := m.table[host := Won(Ensured(m.table, host, used), w, now)]) else m
    case Failure(host, w, used) =>
      if 0 <= w < n then m.(table := m.table[host := Failed(Ensured(m.table, host, used), w)]) else m
  }

  function After(n: nat, evict: bool, hist: seq<Event>): Model {
    if hist == [] then Model(map[], 0) else Step(n, evict, After(n, evict, hist[..|hist| - 1]), hist[|hist| - 1])
  }

  /** What candidatesForHost returns for host at time now after hist. */
  function Answer(n: nat, evict: bool, hist: seq<Event>, host: string, now: Time): seq<nat> {
    Candidates(Entry(Step(n, evict, After(n, evict, hist), Query(host, now)).table, host), now, n)
  }

  /** The methods of HostTable run the evicting history: this is one of their three steps, from any reached state. */
  method Replay(t: HostTable, ghost hist: seq<Event>, e: Event) returns (r: seq<nat>)
    requires t.hostStats == After(t.callers, true, hist).table
    requires t.lastCleanup == After(t.callers, true, hist).lastCleanup
    modifies t
    ensures t.hostStats == After(t.callers, true, hist + [e]).table
    ensures t.lastCleanup == After(t.callers, true, hist + [e]).lastCleanup
    ensures e.Query? ==> r == Answer(t.callers, true, hist, e.host, e.now)
  {
    assert (hist + [e])[..|hist + [e]| - 1] == hist;
    r := [];
    match e {
      case Query(host, now) => r := t.CandidatesForHost(host, now);
      case Success(host, w, now, used) => t.RecordCallerSuccess(host, w, now, used);
      case Failure(host, w, used) => t.RecordCallerFailure(host, w, used);
    }
  }

  // ------------------------------------------------------------------------------------------------
  // Eviction cannot be observed

  /** Nothing to stick to: the next query asks everyone and the next success opens a window. */
  predicate Open(e: Option<Stats>, now: Time) {
    e.None? || !e.value.seen || e.value.state.Idle? || now >= e.value.reselectAfter
  }

  predicate Alike(a: Option<Stats>, b: Option<Stats>, now: Time) {
    || (Open(a, now) && Open(b, now))
    || (a.Some? && b.Some? && a.value.seen && b.value.seen && a.value.(lastUsed := 0) == b.value.(lastUsed := 0))
  }

  /** A window never outlives the entry's last use by more than the interval. */
  predicate WellTimed(e: Stats, now: Time) {
    0 < e.lastUsed <= now && (e.state.Active? ==> e.reselectAfter <= e.lastUsed + RESELECT_INTERVAL)
  }

  ghost predicate Bisimilar(a: Model, b: Model, now: Time) {
    && (forall h | h in a.table :: WellTimed(a.table[h], now))
    && (forall h: string :: Alike(Entry(a.table, h), Entry(b.table, h), now))
  }

  lemma QueryBisimilar(n: nat, a: Model, b: Model, clock: Time, host: string, now: Time)
    requires Bisimilar(a, b, clock) && clock <= now && 0 < now
    ensures Bisimilar(Step(n, true, a, Query(host, now)), Step(n, false, b, Query(host, now)), now)
  {
    var a', b' := Step(n, true, a, Query(host, now)), Step(n, false, b, Query(host, now));
    forall h: string ensures Alike(Entry(a'.table, h), Entry(b'.table, h), now) {
      assert Alike(Entry(a.table, h), Entry(b.table, h), clock);
    }
  }

  /** One entry recorded in both tables. */
  lemma RecordBisimilar(a: Model, b: Model, clock: Time, host: string, x: Stats, y: Stats, later: Time)
    requires Bisimilar(a, b, clock) && clock <= later
    requires WellTimed(x, later) && Alike(Some(x), Some(y), later)
    ensures Bisimilar(a.(table := a.table[host := x]), b.(table := b.table[host := y]), later)
  {
    var a', b' := a.table[host := x], b.table[host := y];
    forall h: string ensures Alike(Entry(a', h), Entry(b', h), later) {
      assert Alike(Entry(a.table, h), Entry(b.table, h), clock);
    }
  }

  lemma StepBisimilar(n: nat, a: Model, b: Model, clock: Time, e: Event)
    requires Bisimilar(a, b, clock) && clock <= First(e) && 0 < First(e) <= Last(e)
    ensures Bisimilar(Step(n, true, a, e), Step(n, false, b, e), Last(e))
  {
    assert Alike(Entry(a.table, e.host), Entry(b.table, e.host), clock);
    match e
    case Query(host, now) => QueryBisimilar(n, a, b, clock, host, now);
    case Success(host, w, now, used) =>
      if 0 <= w < n {
        var x, y := Won(Ensured(a.table, host, used), w, now), Won(Ensured(b.table, host, used), w, now);
        RecordBisimilar(a, b, clock, host, x, y, used);
      }
    case Failure(host, w, used) =>
      if 0 <= w < n {
        var x, y := Failed(Ensured(a.table, host, used), w), Failed(Ensured(b.table, host, used), w);
        RecordBisimilar(a, b, clock, host, x, y, used);
      }
  }

  lemma {:induction false} AfterBisimilar(n: nat, hist: seq<Event>)
    requires Monotone(hist)
    ensures Bisimilar(After(n, true, hist), After(n, false, hist), Clock(hist))
  {
    if hist != [] {
      var front := hist[..|hist| - 1];
      AfterBisimilar(n, front);
      StepBisimilar(n, After(n, true, front), After(n, false, front), Clock(front), hist[|hist| - 1]);
    }
  }

  /** Over every history, a query is answered as if no entry were ever evicted. */
  lemma EvictionUnobservable(n: nat, hist: seq<Event>, host: string, now: Time)
    requires Monotone(hist) && 0 < now && Clock(hist) <= now
    ensures Answer(n, true, hist, host, now) == Answer(n, false, hist, host, now)
  {
    AfterBisimilar(n, hist);
    var a, b := After(n, true, hist), After(n, false, hist);
    StepBisimilar(n, a, b, Clock(hist), Query(host, now));
    var a', b' := Step(n, true, a, Query(host, now)), Step(n, false, b, Query(host, now));
    assert Alike(Entry(a'.table, host), Entry(b'.table, host), now);
  }

  /** What eviction is for: right after a query, no entry was idle for the TTL plus one cleanup interval. */
  ghost predicate Tidy(m: Model, now: Time) {
    && m.lastCleanup <= now
    && forall h | h in m.table :: 0 < m.table[h].lastUsed <= now && m.lastCleanup <= m.table[h].lastUsed + STATS_TTL
  }

  lemma {:induction false} AfterTidy(n: nat, hist: seq<Event>)
    requires Monotone(hist)
    ensures Tidy(After(n, true, hist), Clock(hist))
  {
    if hist != [] {
      AfterTidy(n, hist[..|hist| - 1]);
    }
  }

  lemma IdleEntriesAreEvicted(n: nat, hist: seq<Event>, host: string, now: Time, h: string)
    requires Monotone(hist) && 0 < now && Clock(hist) <= now
    requires h in Step(n, true, After(n, true, hist), Query(host, now)).table
    ensures now - Step(n, true, After(n, true, hist), Query(host, now)).table[h].lastUsed < 24 * HOUR + 300 * SECOND
  {
    AfterTidy(n, hist);
  }

  /** Whether an event counts as a use of its host. */
  predicate Uses(n: nat, e: Event, h: string) {
    e.host == h && (e.Query? || 0 <= e.w < n)
  }

  /** And what it is not for: an entry used in the last 24 hours stays. */
  lemma {:induction false} UsedEntriesStay(n: nat, hist: seq<Event>, more: seq<Event>, h: string)
    requires Monotone(hist + more) && hist != [] && Uses(n, hist[|hist| - 1], h)
    requires h in After(n, true, hist).table && Clock(hist + more) <= Clock(hist) + 24 * HOUR
    ensures h in After(n, true, hist + more).table
    ensures After(n, true, hist + more).table[h].lastUsed >= Clock(hist)
    decreases |more|
  {
    if more == [] {
      assert hist + more == hist;
      AfterThen(n, true, hist[..|hist| - 1], hist[|hist| - 1]);
      assert hist == hist[..|hist| - 1] + [hist[|hist| - 1]];
    } else {
      var front, e := more[..|more| - 1], more[|more| - 1];
      assert hist + more == (hist + front) + [e];
      MonotoneFront(hist + front, e);
      assert Clock(hist) <= Clock(hist + front) by {
        assert (hist + more)[|hist| - 1] == hist[|hist| - 1];
      }
      assert (hist + more)[|hist + more| - 1] == e && First(e) <= Last(e);
      UsedEntriesStay(n, hist, front, h);
      AfterThen(n, true, hist + front, e);
      EntryStays(n, After(n, true, hist + front), e, h, Clock(hist));
    }
  }

  lemma EntryStays(n: nat, m: Model, e: Event, h: string, used: Time)
    requires h in m.table && used <= m.table[h].lastUsed && used <= First(e) <= Last(e) <= used + 24 * HOUR
    ensures h in Step(n, true, m, e).table && used <= Step(n, true, m, e).table[h].lastUsed
  {
  }

  // ------------------------------------------------------------------------------------------------
  // When a single caller is asked

  /** Event k is a success of w for host while no window of w was running: it opens one. */
  ghost predicate Opens(n: nat, hist: seq<Event>, k: nat, host: string, w: nat)
    decreases k
  {
    && Succeeds(n, hist, k, host, w)
    && !exists j: nat | j < k && Succeeds(n, hist, j, host, w) ::
          Opens(n, hist[..k], j, host, w) && Undisturbed(n, hist[..k], j, host, w) && hist[k].now < hist[j].now + HOUR
  }

  ghost predicate Succeeds(n: nat, hist: seq<Event>, k: nat, host: string, w: nat) {
    k < |hist| && hist[k].Success? && hist[k].host == host && hist[k].w == w < n
  }

  /** Since event k, w has neither failed nor been displaced for host. */
  ghost predicate Undisturbed(n: nat, hist: seq<Event>, k: nat, host: string, w: nat) {
    forall j | k < j < |hist| && hist[j].host == host ::
      && (hist[j].Failure? ==> hist[j].w != w)
      && (hist[j].Success? ==> hist[j].w == w || !(0 <= hist[j].w < n))
  }

  ghost predicate HeldFrom(n: nat, hist: seq<Event>, k: nat, host: string, w: nat) {
    Opens(n, hist, k, host, w) && Undisturbed(n, hist, k, host, w)
  }

  /** The window event k opened for w is still running at time now. */
  ghost predicate Running(n: nat, hist: seq<Event>, k: nat, host: string, w: nat, now: Time) {
    HeldFrom(n, hist, k, host, w) && now < hist[k].now + HOUR
  }

  /** The entry is active exactly with a window that some undisturbed success opened. */
  ghost predicate Explained(n: nat, hist: seq<Event>, host: string) {
    var e := Entry(After(n, false, hist).table, host);
    e.Some? && e.value.seen && e.value.state.Active? ==>
      && 0 <= e.value.activeIndex < n
      && exists k: nat :: HeldFrom(n, hist, k, host, e.value.activeIndex)
                  && e.value.reselectAfter == hist[k].now + RESELECT_INTERVAL
  }

  predicate Sticks(e: Option<Stats>, w: nat, until: Time) {
    e.Some? && e.value.seen && e.value.state.Active? && e.value.activeIndex == w && e.value.reselectAfter == until
  }

  lemma HeldFurther(n: nat, front: seq<Event>, e: Event, k: nat, host: string, w: nat)
    requires k < |front|
    requires e.host == host ==>
      (e.Failure? ==> e.w != w) && (e.Success? ==> e.w == w || !(0 <= e.w < n))
    ensures HeldFrom(n, front, k, host, w) ==> HeldFrom(n, front + [e], k, host, w)
  {
    assert (front + [e])[..k] == front[..k];
  }

  /** Whether this success starts a new window. */
  predicate Resets(n: nat, m: Model, e: Event) {
    && e.Success? && 0 <= e.w < n
    && var was := Ensured(m.table, e.host, e.used);
       !was.seen || was.state != Active || was.activeIndex != e.w || e.now >= was.reselectAfter
  }

  lemma AfterThen(n: nat, evict: bool, front: seq<Event>, e: Event)
    ensures After(n, evict, front + [e]) == Step(n, evict, After(n, evict, front), e)
  {
    assert (front + [e])[..|front + [e]| - 1] == front;
  }

  lemma MonotoneFront(front: seq<Event>, e: Event)
    requires Monotone(front + [e])
    ensures Monotone(front) && Clock(front) <= First(e)
  {
    var all := front + [e];
    assert forall i | 0 <= i < |front| :: all[i] == front[i];
    assert all[|front|] == e;
  }

  /** A success that resets the entry opens a window: a running one would have kept the entry. */
  lemma {:induction false} ResetOpens(n: nat, front: seq<Event>, e: Event)
    requires Monotone(front + [e]) && Resets(n, After(n, false, front), e)
    ensures HeldFrom(n, front + [e], |front|, e.host, e.w)
    decreases |front|, 2
  {
    var hist := front + [e];
    assert hist[..|front|] == front;
    MonotoneFront(front, e);
    forall j: nat | j < |front| && Succeeds(n, hist, j, e.host, e.w)
      ensures !(Opens(n, hist[..|front|], j, e.host, e.w) && Undisturbed(n, hist[..|front|], j, e.host, e.w)
                && e.now < hist[j].now + HOUR)
    {
      if Opens(n, front, j, e.host, e.w) && Undisturbed(n, front, j, e.host, e.w) && e.now < hist[j].now + HOUR {
        HeldSticks(n, front, j, e.host, e.w);
      }
    }
  }

  /** An event either opens a window for the entry it leaves active, or leaves index and window of the entry alone. */
  lemma StepKeepsOrResets(n: nat, m: Model, e: Event, host: string)
    ensures var was, now := Entry(m.table, host), Entry(Step(n, false, m, e).table, host);
            now.Some? && now.value.seen && now.value.state.Active? && !(e.host == host && Resets(n, m, e)) ==>
              && was.Some? && was.value.(lastUsed := 0) == now.value.(lastUsed := 0)
              && (e.host == host && e.Failure? ==> e.w != now.value.activeIndex || !(0 <= e.w < n))
              && (e.host == host && e.Success? ==> e.w == now.value.activeIndex || !(0 <= e.w < n))
  {
  }

  lemma {:induction false} AfterExplained(n: nat, hist: seq<Event>, host: string)
    requires Monotone(hist)
    ensures Explained(n, hist, host)
    decreases |hist|, 0
  {
    if hist != [] {
      var front, e := hist[..|hist| - 1], hist[|hist| - 1];
      assert hist == front + [e];
      MonotoneFront(front, e);
      AfterExplained(n, front, host);
      AfterThen(n, false, front, e);
      var m := After(n, false, front);
      var now := Entry(Step(n, false, m, e).table, host);
      if now.Some? && now.value.seen && now.value.state.Active? {
        if e.host == host && Resets(n, m, e) {
          ResetOpens(n, front, e);
        } else {
          StepKeepsOrResets(n, m, e, host);
          var w := now.value.activeIndex;
          var k: nat :| HeldFrom(n, front, k, host, w) && now.value.reselectAfter == front[k].now + RESELECT_INTERVAL;
          HeldFurther(n, front, e, k, host, w);
        }
      }
    }
  }

  lemma HeldBefore(n: nat, front: seq<Event>, e: Event, k: nat, host: string, w: nat)
    requires k < |front| && HeldFrom(n, front + [e], k, host, w)
    ensures HeldFrom(n, front, k, host, w)
    ensures e.host == host ==> (e.Failure? ==> e.w != w) && (e.Success? ==> e.w == w || !(0 <= e.w < n))
  {
    assert (front + [e])[..k] == front[..k];
    assert forall j | 0 <= j < |front| :: (front + [e])[j] == front[j];
    assert (front + [e])[|front|] == e;
  }

  /** While its window lasts, an undisturbed opening success determines the entry. */
  lemma {:induction false} HeldSticks(n: nat, hist: seq<Event>, k: nat, host: string, w: nat)
    requires Monotone(hist) && HeldFrom(n, hist, k, host, w)
    requires Clock(hist) < hist[k].now + RESELECT_INTERVAL
    ensures Sticks(Entry(After(n, false, hist).table, host), w, hist[k].now + RESELECT_INTERVAL)
    decreases |hist|, 1
  {
    var front, e := hist[..|hist| - 1], hist[|hist| - 1];
    assert hist == front + [e];
    MonotoneFront(front, e);
    AfterThen(n, false, front, e);
    if k == |front| {
      OpenedFresh(n, front, e, host, w);
      NotRunningResets(n, front, e);
      ResetSticks(n, After(n, false, front), e);
    } else {
      HeldBefore(n, front, e, k, host, w);
      HeldSticks(n, front, k, host, w);
      SticksFurther(n, After(n, false, front), e, host, w, hist[k].now + RESELECT_INTERVAL);
    }
  }

  lemma OpenedFresh(n: nat, front: seq<Event>, e: Event, host: string, w: nat)
    requires Opens(n, front + [e], |front|, host, w)
    ensures e.Success? && e.host == host && e.w == w < n
    ensures !exists j: nat | j < |front| :: Running(n, front, j, e.host, e.w, e.now)
  {
    var hist := front + [e];
    assert hist[..|front|] == front && hist[|front|] == e;
    forall j: nat | j < |front| ensures !Running(n, front, j, host, w, e.now) {
      assert hist[j] == front[j];
    }
  }

  lemma ResetSticks(n: nat, m: Model, e: Event)
    requires Resets(n, m, e)
    ensures Sticks(Entry(Step(n, false, m, e).table, e.host), e.w, e.now + RESELECT_INTERVAL)
  {
  }

  lemma SticksFurther(n: nat, m: Model, e: Event, host: string, w: nat, until: Time)
    requires Sticks(Entry(m.table, host), w, until) && First(e) <= Last(e) < until
    requires e.host == host ==> (e.Failure? ==> e.w != w) && (e.Success? ==> e.w == w || !(0 <= e.w < n))
    ensures Sticks(Entry(Step(n, false, m, e).table, host), w, until)
  {
  }

  /** A success with no window of its caller running resets the entry. */
  lemma {:induction false} NotRunningResets(n: nat, front: seq<Event>, e: Event)
    requires Monotone(front) && e.Success? && 0 <= e.w < n
    requires !exists j: nat | j < |front| :: Running(n, front, j, e.host, e.w, e.now)
    ensures Resets(n, After(n, false, front), e)
    decreases |front|, 1
  {
    if !Resets(n, After(n, false, front), e) {
      AfterExplained(n, front, e.host);
      var x := Entry(After(n, false, front).table, e.host);
      var k: nat :| HeldFrom(n, front, k, e.host, e.w) && x.value.reselectAfter == front[k].now + RESELECT_INTERVAL;
      assert Running(n, front, k, e.host, e.w, e.now);
    }
  }

  /**
   What a query is answered, for any number of callers: while a window is running, opened by a success under an hour
   ago with neither a failure of its caller nor a success of another since, that caller alone; else all, in order.
   Later successes of the caller do not extend its window.
   */
  lemma AnswerIs(n: nat, hist: seq<Event>, host: string, now: Time)
    requires Monotone(hist) && 0 < now && Clock(hist) <= now
    ensures forall k: nat, w: nat | Running(n, hist, k, host, w, now) :: Answer(n, true, hist, host, now) == [w]
    ensures (!exists k: nat, w: nat :: Running(n, hist, k, host, w, now)) ==>
              Answer(n, true, hist, host, now) == seq(n, i => i)
  {
    EvictionUnobservable(n, hist, host, now);
    AfterExplained(n, hist, host);
    forall k: nat, w: nat | Running(n, hist, k, host, w, now) ensures Answer(n, false, hist, host, now) == [w] {
      HeldSticks(n, hist, k, host, w);
    }
    var e := Entry(After(n, false, hist).table, host);
    if e.Some? && e.value.seen && e.value.state.Active? && now < e.value.reselectAfter {
      var k: nat :| HeldFrom(n, hist, k, host, e.value.activeIndex)
                    && e.value.reselectAfter == hist[k].now + RESELECT_INTERVAL;
      assert Running(n, hist, k, host, e.value.activeIndex, now);
    } else {
      assert Answer(n, false, hist, host, now) == Indices(n);
      assert Indices(n) == seq(n, i => i);
    }
  }

  /** So a group with callers always asks some of them, each once, and one with a single caller asks that. */
  lemma SomeoneIsAsked(n: nat, hist: seq<Event>, host: string, now: Time)
    requires Monotone(hist) && 0 < now && Clock(hist) <= now && n > 0
    ensures var r := Answer(n, true, hist, host, now);
            r != [] && (forall i | 0 <= i < |r| :: r[i] < n) && forall i, j | 0 <= i < j < |r| :: r[i] < r[j]
    ensures n == 1 ==> Answer(n, true, hist, host, now) == [0]
  {
    AnswerIs(n, hist, host, now);
    if k: nat, w: nat :| Running(n, hist, k, host, w, now) {
      assert w < n;
    }
  }

  /** With two or more callers, exactly w is asked if and only if a window of w is running. */
  lemma SingleCallerIffWindow(n: nat, hist: seq<Event>, host: string, now: Time, w: nat)
    requires n >= 2 && Monotone(hist) && 0 < now && Clock(hist) <= now
    ensures Answer(n, true, hist, host, now) == [w] <==> exists k: nat :: Running(n, hist, k, host, w, now)
  {
    AnswerIs(n, hist, host, now);
    assert |seq(n, i => i)| == n;
    if Answer(n, true, hist, host, now) == [w] {
      var k: nat, v: nat :| Running(n, hist, k, host, v, now);
      assert [v] == [w] && [v][0] == v;
    }
  }

  // ------------------------------------------------------------------------------------------------
  // One query racing several callers

  /** What a race on host with winner w may record: failures of others at any time, and other hosts' events. */
  ghost predicate RaceNoise(n: nat, events: seq<Event>, host: string, w: nat) {
    forall i | 0 <= i < |events| && events[i].host == host :: events[i].Failure? && events[i].w != w
  }

  /** Failures keep an open entry open. */
  lemma {:induction false} NoiseKeepsOpen(n: nat, hist: seq<Event>, noise: seq<Event>, host: string, w: nat, now: Time)
    requires RaceNoise(n, noise, host, w)
    requires Open(Entry(After(n, false, hist).table, host), now)
    ensures Open(Entry(After(n, false, hist + noise).table, host), now)
  {
    if noise == [] {
      assert hist + noise == hist;
    } else {
      var front, e := noise[..|noise| - 1], noise[|noise| - 1];
      assert hist + noise == (hist + front) + [e];
      NoiseKeepsOpen(n, hist, front, host, w, now);
      AfterThen(n, false, hist + front, e);
    }
  }

  /**
   A query that asked every caller, then failures and the win of w in any order: until one hour after the win, and
   not from then on, w alone is asked next.
   */
  lemma RaceOutcome(n: nat, hist: seq<Event>, before: seq<Event>, win: Event, after: seq<Event>, now: Time, later: Time)
    requires win.Success? && 0 <= win.w < n
    requires Answer(n, true, hist, win.host, now) == Indices(n)
    requires RaceNoise(n, before, win.host, win.w) && RaceNoise(n, after, win.host, win.w)
    requires var all := hist + [Query(win.host, now)] + before + [win] + after;
             Monotone(all) && Clock(all) <= later
    ensures var all := hist + [Query(win.host, now)] + before + [win] + after;
            Answer(n, true, all, win.host, later) == if later < win.now + HOUR then [win.w] else Indices(n)
  {
    var q := Query(win.host, now);
    var upto := hist + [q] + before;
    var all := upto + [win] + after;
    if n == 1 {
      SomeoneIsAsked(n, all, win.host, later);
    } else {
      RaceOpens(n, hist, before, win, after, now);
      NoiseKeepsHeld(n, upto + [win], after, |upto|, win.host, win.w);
      assert all[|upto|] == win;
      AnswerIs(n, all, win.host, later);
      if later < win.now + HOUR {
        assert Running(n, all, |upto|, win.host, win.w, later);
      } else {
        NoiseKeepsWindow(n, upto + [win], after, win.host, win.w);
        AfterThen(n, false, upto, win);
        EvictionUnobservable(n, all, win.host, later);
      }
    }
  }

  lemma RaceOpens(n: nat, hist: seq<Event>, before: seq<Event>, win: Event, after: seq<Event>, now: Time)
    requires n >= 2 && win.Success? && 0 <= win.w < n
    requires Answer(n, true, hist, win.host, now) == Indices(n)
    requires RaceNoise(n, before, win.host, win.w)
    requires Monotone(hist + [Query(win.host, now)] + before + [win] + after)
    ensures var upto := hist + [Query(win.host, now)] + before;
            && HeldFrom(n, upto + [win], |upto|, win.host, win.w)
            && Resets(n, After(n, false, upto), win)
  {
    var q := Query(win.host, now);
    var upto := hist + [q] + before;
    var all := upto + [win] + after;
    assert all[|hist|] == q && all[|upto|] == win;
    MonotonePart(all, hist);
    MonotonePart(all, upto + [win]);
    assert Clock(hist) <= now;
    EvictionUnobservable(n, hist, win.host, now);
    AfterThen(n, false, hist, q);
    OpenAfterAll(n, hist, win.host, now);
    NoiseKeepsOpen(n, hist + [q], before, win.host, win.w, win.now);
    ResetOpens(n, upto, win);
  }

  lemma MonotonePart(all: seq<Event>, front: seq<Event>)
    requires Monotone(all) && front <= all
    ensures Monotone(front)
  {
    assert forall i | 0 <= i < |front| :: all[i] == front[i];
  }

  lemma OpenAfterAll(n: nat, hist: seq<Event>, host: string, now: Time)
    requires n >= 2 && Monotone(hist) && Answer(n, false, hist, host, now) == Indices(n)
    ensures Open(Entry(Step(n, false, After(n, false, hist), Query(host, now)).table, host), now)
  {
    AfterExplained(n, hist, host);
    var e := Entry(After(n, false, hist).table, host);
    if e.Some? && e.value.state.Active? && e.value.seen {
      assert |Indices(n)| == n && |[e.value.activeIndex]| == 1;
    }
  }

  lemma {:induction false} NoiseKeepsHeld(n: nat, hist: seq<Event>, noise: seq<Event>, k: nat, host: string, w: nat)
    requires RaceNoise(n, noise, host, w) && HeldFrom(n, hist, k, host, w)
    ensures HeldFrom(n, hist + noise, k, host, w)
  {
    if noise == [] {
      assert hist + noise == hist;
    } else {
      var front, e := noise[..|noise| - 1], noise[|noise| - 1];
      assert hist + noise == (hist + front) + [e];
      NoiseKeepsHeld(n, hist, front, k, host, w);
      HeldFurther(n, hist + front, e, k, host, w);
    }
  }

  lemma {:induction false} NoiseKeepsWindow(n: nat, hist: seq<Event>, noise: seq<Event>, host: string, w: nat)
    requires RaceNoise(n, noise, host, w)
    requires var e := Entry(After(n, false, hist).table, host);
             e.Some? && e.value.seen && e.value.state.Active? && e.value.activeIndex == w
    ensures var e, e' := Entry(After(n, false, hist).table, host), Entry(After(n, false, hist + noise).table, host);
            e'.Some? && e'.value.(lastUsed := 0) == e.value.(lastUsed := 0)
  {
    if noise == [] {
      assert hist + noise == hist;
    } else {
      var front, e := noise[..|noise| - 1], noise[|noise| - 1];
      assert hist + noise == (hist + front) + [e];
      NoiseKeepsWindow(n, hist, front, host, w);
      AfterThen(n, false, hist + front, e);
    }
  }
}
