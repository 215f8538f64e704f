/**
 One query racing n upstream callers, in every interleaving: runCallerAttempts, runCallerAttempt and firstResponse of
 outbound/groups.go, and what the race records in the host's statistics.
 */
module Race {
  import opened Options
  import opened HostSelection
  import opened Permutations

  /** An attempt: calling, holding a result (the caller itself on success), having sent it, or having dropped it. */
  datatype Attempt =
    | Calling
    | Holding(ok: bool)
    | Sent(ok: bool)
    | Dropped(ok: bool)

  datatype Outcome = Receiving | Returned(winner: Option<nat>)

  /** `buffer` is the response channel, as the callers whose results are in it; `received` those taken out. */
  datatype State = State(
    attempts: seq<Attempt>, buffer: seq<nat>, received: seq<nat>, cancelled: bool, aborted: bool, outcome: Outcome,
    log: seq<Event>)

  datatype Action =
    | Succeed(i: nat)
    | Cancelled(i: nat)
    | Fail(i: nat, used: Time)
    | Send(i: nat)
    | Drop(i: nat)
    | Receive(now: Time, used: Time)
    | Abort
    | CancelParent

  function Start(n: nat): State {
    State(seq(n, i => Calling), [], [], false, false, Receiving, [])
  }

  predicate Is(s: State, i: nat, a: Attempt) {
    i < |s.attempts| && s.attempts[i] == a
  }

  predicate Holds(s: State, i: nat) {
    i < |s.attempts| && s.attempts[i].Holding?
  }

  /** The channel has room for every caller. */
  predicate Enabled(s: State, a: Action) {
    match a
    case Succeed(i) => Is(s, i, Calling)
    case Cancelled(i) => Is(s, i, Calling)
    case Fail(i, _) => Is(s, i, Calling)
    case Send(i) => Holds(s, i) && |s.buffer| < |s.attempts|
    case Drop(i) => Holds(s, i) && s.cancelled
    case Receive(_, _) => s.outcome == Receiving && s.buffer != []
    case Abort => s.outcome == Receiving && s.cancelled
    case CancelParent => true
  }

  function Step(s: State, a: Action, host: string): State
    requires Enabled(s, a)
  {
    match a
    case Succeed(i) => s.(attempts := s.attempts[i := Holding(true)])
    case Cancelled(i) => s.(attempts := s.attempts[i := Holding(false)])
    case Fail(i, used) => s.(attempts := s.attempts[i := Holding(false)], log := s.log + [Failure(host, i, used)])
    case Send(i) => s.(attempts := s.attempts[i := Sent(s.attempts[i].ok)], buffer := s.buffer + [i])
    case Drop(i) => s.(attempts := s.attempts[i := Dropped(s.attempts[i].ok)])
    case Receive(now, used) =>
      var w := s.buffer[0];
      var t := s.(buffer := s.buffer[1..], received := s.received + [w]);
      if w < |s.attempts| && s.attempts[w] == Sent(true) then
        t.(outcome := Returned(Some(w)), cancelled := true, log := s.log + [Success(host, w, now, used)])
      else if |t.received| == |s.attempts| then t.(outcome := Returned(None), cancelled := true)
      else t
    case Abort => s.(outcome := Returned(None), aborted := true)
    case CancelParent => s.(cancelled := true)
  }

  /** Each action of the list is possible after those before it. */
  ghost predicate IsRun(n: nat, host: string, actions: seq<Action>)
    decreases |actions|, 0
  {
    actions == []
    || (IsRun(n, host, actions[..|actions| - 1])
        && Enabled(After(n, host, actions[..|actions| - 1]), actions[|actions| - 1]))
  }

  ghost function After(n: nat, host: string, actions: seq<Action>): State
    requires IsRun(n, host, actions)
    decreases |actions|, 1
  {
    if actions == [] then Start(n)
    else Step(After(n, host, actions[..|actions| - 1]), actions[|actions| - 1], host)
  }

  ghost predicate Reaches(n: nat, host: string, actions: seq<Action>, s: State) {
    IsRun(n, host, actions) && s == After(n, host, actions)
  }

  // ------------------------------------------------------------------------------------------------
  // What every step keeps

  /** The results in the channel and those taken out are those sent, each once. */
  ghost predicate Counted(s: State) {
    && Distinct(s.received + s.buffer)
    && forall i: nat :: i in s.received + s.buffer <==> i < |s.attempts| && s.attempts[i].Sent?
  }

  /** Until a result is taken as the winner, only losing results are taken. */
  ghost predicate Decided(s: State) {
    match s.outcome
    case Receiving =>
      |s.received| < |s.attempts| && forall i | i in s.received :: Is(s, i, Sent(false))
    case Returned(Some(w)) =>
      && s.received != [] && w == s.received[|s.received| - 1] && Is(s, w, Sent(true))
      && forall k | 0 <= k < |s.received| - 1 :: Is(s, s.received[k], Sent(false))
    case Returned(None) =>
      s.aborted || (|s.received| == |s.attempts| && forall i | i in s.received :: Is(s, i, Sent(false)))
  }

  /** The log has a failure only of an attempt that did not succeed, and one success exactly when there is a winner. */
  ghost predicate Logged(s: State, host: string) {
    && (forall k | 0 <= k < |s.log| :: s.log[k].host == host && !s.log[k].Query?)
    && (forall k | 0 <= k < |s.log| && s.log[k].Failure? ::
          0 <= s.log[k].w < |s.attempts| && s.attempts[s.log[k].w] != Calling && !s.attempts[s.log[k].w].ok)
    && (forall k | 0 <= k < |s.log| && s.log[k].Success? ::
          s.outcome.Returned? && s.outcome.winner.Some? && s.outcome.winner.value == s.log[k].w)
    && (forall j, k | 0 <= j < k < |s.log| && s.log[j].Success? :: !s.log[k].Success?)
    && (s.outcome.Returned? && s.outcome.winner.Some? ==> exists k | 0 <= k < |s.log| :: s.log[k].Success?)
  }

  ghost predicate Inv(s: State, n: nat, host: string) {
    && |s.attempts| == n && Counted(s) && Decided(s) && Logged(s, host)
    && (!s.cancelled ==> forall i | 0 <= i < n :: !s.attempts[i].Dropped?)
  }

  lemma StartInv(n: nat, host: string)
    requires n > 0
    ensures Inv(Start(n), n, host)
  {
  }

  /** A change of one attempt that was neither sent nor has a failure in the log, or that keeps its result. */
  lemma ChangeKeepsInv(s: State, n: nat, host: string, i: nat, a: Attempt)
    requires n > 0 && Inv(s, n, host) && i < n && !s.attempts[i].Sent? && !a.Sent? && !a.Calling?
    requires s.attempts[i].Calling? || s.attempts[i].ok == a.ok
    requires a.Dropped? ==> s.cancelled
    ensures Inv(s.(attempts := s.attempts[i := a]), n, host)
  {
    var t := s.(attempts := s.attempts[i := a]);
    assert forall k: nat :: k < n && t.attempts[k].Sent? <==> k < n && s.attempts[k].Sent?;
    assert forall k: nat, ok :: Is(t, k, Sent(ok)) <==> Is(s, k, Sent(ok));
  }

  lemma LogFailureKeepsInv(s: State, n: nat, host: string, i: nat, used: Time)
    requires n > 0 && Inv(s, n, host) && i < n && !s.attempts[i].Calling? && !s.attempts[i].ok
    ensures Inv(s.(log := s.log + [Failure(host, i, used)]), n, host)
  {
    var t := s.(log := s.log + [Failure(host, i, used)]);
    assert forall k | 0 <= k < |s.log| :: t.log[k] == s.log[k];
  }

  lemma FailKeepsInv(s: State, n: nat, host: string, i: nat, used: Time)
    requires n > 0 && Inv(s, n, host) && Enabled(s, Fail(i, used))
    ensures Inv(Step(s, Fail(i, used), host), n, host)
  {
    ChangeKeepsInv(s, n, host, i, Holding(false));
    LogFailureKeepsInv(s.(attempts := s.attempts[i := Holding(false)]), n, host, i, used);
  }

  lemma SendKeepsInv(s: State, n: nat, host: string, i: nat)
    requires n > 0 && Inv(s, n, host) && Enabled(s, Send(i))
    ensures Inv(Step(s, Send(i), host), n, host)
  {
    var t := Step(s, Send(i), host);
    assert t.received + t.buffer == (s.received + s.buffer) + [i];
  }

  /** A result is taken out of the channel: the account of those sent stays. */
  lemma TakeKeepsCount(s: State, t: State)
    requires Counted(s) && s.buffer != [] && t.attempts == s.attempts
    requires t.buffer == s.buffer[1..] && t.received == s.received + [s.buffer[0]]
    ensures Counted(t) && s.buffer[0] < |s.attempts| && s.attempts[s.buffer[0]].Sent?
  {
    assert t.received + t.buffer == s.received + s.buffer;
    assert s.buffer[0] in s.received + s.buffer;
  }

  lemma TakeDecides(s: State, n: nat, host: string, now: Time, used: Time)
    requires n > 0 && Inv(s, n, host) && Enabled(s, Receive(now, used))
    ensures Decided(Step(s, Receive(now, used), host))
  {
    var t := Step(s, Receive(now, used), host);
    assert s.buffer[0] in s.received + s.buffer;
    Fits(s, n, host);
    assert forall i | i in t.received :: i in s.received || i == s.buffer[0];
    assert forall k | 0 <= k < |s.received| :: t.received[k] in s.received;
  }

  lemma TakeLogs(s: State, n: nat, host: string, now: Time, used: Time)
    requires n > 0 && Inv(s, n, host) && Enabled(s, Receive(now, used))
    ensures Logged(Step(s, Receive(now, used), host), host)
  {
    var t := Step(s, Receive(now, used), host);
    if t.outcome.Returned? && t.outcome.winner.Some? {
      assert t.log[|s.log|].Success?;
    }
  }

  lemma ReceiveKeepsInv(s: State, n: nat, host: string, now: Time, used: Time)
    requires n > 0 && Inv(s, n, host) && Enabled(s, Receive(now, used))
    ensures Inv(Step(s, Receive(now, used), host), n, host)
  {
    TakeKeepsCount(s, Step(s, Receive(now, used), host));
    TakeDecides(s, n, host, now, used);
    TakeLogs(s, n, host, now, used);
  }

  lemma StepKeepsInv(s: State, n: nat, host: string, a: Action)
    requires n > 0 && Inv(s, n, host) && Enabled(s, a)
    ensures Inv(Step(s, a, host), n, host)
  {
    match a {
      case Send(i) => SendKeepsInv(s, n, host, i);
      case Receive(now, used) => ReceiveKeepsInv(s, n, host, now, used);
      case Succeed(i) => ChangeKeepsInv(s, n, host, i, Holding(true));
      case Cancelled(i) => ChangeKeepsInv(s, n, host, i, Holding(false));
      case Fail(i, used) => FailKeepsInv(s, n, host, i, used);
      case Drop(i) => ChangeKeepsInv(s, n, host, i, Dropped(s.attempts[i].ok));
      case Abort =>
      case CancelParent =>
    }
  }

  lemma {:induction false} ReachedInv(n: nat, host: string, actions: seq<Action>, s: State)
    requires n > 0 && Reaches(n, host, actions, s)
    ensures Inv(s, n, host)
    decreases |actions|
  {
    if actions == [] {
      StartInv(n, host);
    } else {
      var front, a := actions[..|actions| - 1], actions[|actions| - 1];
      var t := After(n, host, front);
      ReachedInv(n, host, front, t);
      StepKeepsInv(t, n, host, a);
    }
  }

  // ------------------------------------------------------------------------------------------------
  // Room in the channel

  function Members(s: seq<nat>): (r: set<nat>)
    ensures forall i :: i in r <==> i in s
  {
    set i | i in s
  }

  lemma {:induction false} DistinctSize(s: seq<nat>)
    requires Distinct(s)
    ensures |Members(s)| == |s|
  {
    if s != [] {
      var front, last := s[..|s| - 1], s[|s| - 1];
      DistinctSize(front);
      assert last !in front;
      assert Members(s) == Members(front) + {last};
    }
  }

  lemma SubsetSize(a: set<nat>, b: set<nat>)
    requires a <= b
    ensures |a| <= |b| && (|a| == |b| ==> a == b)
  {
    assert b == a + (b - a) && |b| == |a| + |b - a|;
  }

  /** No more results were sent than there are callers, and all of them only when every attempt was. */
  lemma Fits(s: State, n: nat, host: string)
    requires Inv(s, n, host)
    ensures |s.received| + |s.buffer| <= n
    ensures |s.received| + |s.buffer| == n ==> forall i | 0 <= i < n :: s.attempts[i].Sent?
  {
    var all := s.received + s.buffer;
    DistinctSize(all);
    SubsetSize(Members(all), Below(n));
    if |all| == n {
      forall i: nat | i < n ensures s.attempts[i].Sent? {
        assert i in Below(n);
      }
    }
  }

  /** A send never finds the channel full, whatever else happened before. */
  lemma SendsNeverBlock(n: nat, host: string, actions: seq<Action>, s: State, i: nat)
    requires n > 0 && Reaches(n, host, actions, s) && Holds(s, i)
    ensures Enabled(s, Send(i))
  {
    ReachedInv(n, host, actions, s);
    Fits(s, n, host);
  }

  /** While the query waits, a call is still running, or a result can be sent or received. */
  lemma NoDeadlock(n: nat, host: string, actions: seq<Action>, s: State)
    requires n > 0 && Reaches(n, host, actions, s) && s.outcome == Receiving
    ensures || (exists i: nat :: Is(s, i, Calling)) || (exists i: nat :: Holds(s, i) && Enabled(s, Send(i)))
            || Enabled(s, Receive(0, 0)) || Enabled(s, Abort)
  {
    ReachedInv(n, host, actions, s);
    Fits(s, n, host);
    if !s.cancelled && s.buffer == [] && forall i: nat :: !Is(s, i, Calling) && !Holds(s, i) {
      forall i | 0 <= i < n ensures s.attempts[i].Sent? {
        assert !Is(s, i, Calling) && !Holds(s, i);
      }
      AllSent(s, n, host);
    }
    forall i: nat | Holds(s, i) ensures Enabled(s, Send(i)) {
      SendsNeverBlock(n, host, actions, s, i);
    }
  }

  lemma AllSent(s: State, n: nat, host: string)
    requires Inv(s, n, host) && forall i | 0 <= i < n :: s.attempts[i].Sent?
    ensures |s.received| + |s.buffer| == n
  {
    var all := s.received + s.buffer;
    DistinctSize(all);
    assert Members(all) == Below(n);
  }

  /** Unless the query was cancelled from outside, it fails only when no attempt succeeded. */
  lemma FailsOnlyWithoutWinner(n: nat, host: string, actions: seq<Action>, s: State, i: nat)
    requires n > 0 && Reaches(n, host, actions, s) && s.outcome == Returned(None) && !s.aborted && i < n
    ensures Is(s, i, Sent(false))
  {
    ReachedInv(n, host, actions, s);
    Fits(s, n, host);
    assert i in s.received + s.buffer;
  }

  // ------------------------------------------------------------------------------------------------
  // What the race leaves in the host's statistics

  /** The log around its one success is noise for the winner. */
  lemma LogIsRace(n: nat, host: string, actions: seq<Action>, s: State, w: nat) returns (k: nat)
    requires n > 0 && Reaches(n, host, actions, s) && s.outcome == Returned(Some(w))
    ensures k < |s.log| && s.log[k].Success? && s.log[k].w == w < n && s.log[k].host == host
    ensures RaceNoise(n, s.log[..k], host, w) && RaceNoise(n, s.log[k + 1..], host, w)
  {
    ReachedInv(n, host, actions, s);
    k :| 0 <= k < |s.log| && s.log[k].Success?;
    forall j | 0 <= j < |s.log| && j != k ensures s.log[j].Failure? && s.log[j].w != w {
      assert j < k ==> !s.log[j].Success?;
      assert k < j ==> !s.log[j].Success?;
    }
  }

  /** The events of one host. */
  function OnHost(events: seq<Event>, host: string): seq<Event> {
    if events == [] then []
    else
      var front, e := OnHost(events[..|events| - 1], host), events[|events| - 1];
      front + (if e.host == host then [e] else [])
  }

  /** Where the k-th event of a host stands among all. */
  lemma {:induction false} PlaceOf(events: seq<Event>, host: string, k: nat) returns (p: nat)
    requires k < |OnHost(events, host)|
    ensures p < |events| && events[p] == OnHost(events, host)[k] && events[p].host == host
    ensures OnHost(events[..p], host) == OnHost(events, host)[..k]
    ensures forall j | p < j < |events| && events[j].host == host :: events[j] in OnHost(events, host)[k + 1..]
  {
    var front, e := events[..|events| - 1], events[|events| - 1];
    if k == |OnHost(front, host)| {
      p := |events| - 1;
    } else {
      p := PlaceOf(front, host, k);
      assert events[..p] == front[..p];
      assert OnHost(events, host)[k + 1..] == OnHost(front, host)[k + 1..] + (if e.host == host then [e] else []);
      forall j | p < j < |events| && events[j].host == host ensures events[j] in OnHost(events, host)[k + 1..] {
        if j < |front| {
          assert front[j] == events[j];
        }
      }
    }
  }

  lemma {:induction false} OnHostHas(events: seq<Event>, host: string, j: nat)
    requires j < |events| && events[j].host == host
    ensures events[j] in OnHost(events, host)
  {
    var front := events[..|events| - 1];
    if j < |front| {
      OnHostHas(front, host, j);
      assert front[j] == events[j];
    }
  }

  /**
   A query that asked all callers and got a response from w, with no other query for the host meanwhile:
   whatever the interleaving of its calls, and whatever happened for other hosts, w alone is asked for one hour after
   the success was recorded, and everyone from then on.
   */
  lemma WinnerIsAskedNext(n: nat, host: string, actions: seq<Action>, s: State, w: nat,
                          hist: seq<Event>, asked: Time, events: seq<Event>, later: Time) returns (win: Event)
    requires n > 0 && Reaches(n, host, actions, s) && s.outcome == Returned(Some(w))
    requires Answer(n, true, hist, host, asked) == Indices(n)
    requires OnHost(events, host) == s.log
    requires var all := hist + [Query(host, asked)] + events; Monotone(all) && Clock(all) <= later
    ensures win in s.log && win.Success? && win.w == w
    ensures Answer(n, true, hist + [Query(host, asked)] + events, host, later)
         == if later < win.now + HOUR then [w] else Indices(n)
  {
    var k := LogIsRace(n, host, actions, s, w);
    win := s.log[k];
    var p := PlaceOf(events, host, k);
    var before, after := events[..p], events[p + 1..];
    assert events == before + [win] + after;
    forall i | 0 <= i < |before| && before[i].host == host ensures before[i].Failure? && before[i].w != w {
      OnHostHas(before, host, i);
    }
    forall i | 0 <= i < |after| && after[i].host == host ensures after[i].Failure? && after[i].w != w {
      assert after[i] == events[p + 1 + i];
    }
    assert hist + [Query(host, asked)] + events == hist + [Query(host, asked)] + before + [win] + after;
    RaceOutcome(n, hist, before, win, after, asked, later);
  }
}
