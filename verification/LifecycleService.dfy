/**
 What the lifecycle does for its callers: who is served and who is refused, which handler a reload publishes, what a
 call that has returned has brought about, and that what a client posts reaches the queue.
 */
module LifecycleService {
  import opened Options
  import opened Permutations
  import opened Lifecycle
  import opened LifecycleInvariant
  import opened LifecycleSafety

  // ------------------------------------------------------------------------------------------------
  // Serving

  /** A call that found no handler still finds none: its read lock keeps the swap out. */
  ghost predicate NilInv(s: State) {
    forall t | t in s.threads && s.threads[t].ServeNil? :: s.ptr == None
  }

  lemma NilMove(s: State, t: Tid, s': State)
    requires NilInv(s) && t in s'.threads && s'.threads == s.threads[t := s'.threads[t]] && s'.ptr == s.ptr
    requires s'.threads[t].ServeNil? ==> s'.ptr == None
    ensures NilInv(s')
  {
  }

  lemma NilStep(s: State, a: Action)
    requires NilInv(s) && ReadersInv(s.readers, s.threads) && ExclusionInv(s) && Enabled(s, a)
    ensures NilInv(Apply(s, a))
  {
    match a
    case OnGroup(h, g, b) =>
    case Call(t, op) => NilMove(s, t, Apply(s, a));
    case Serving(t, b) => NilMove(s, t, Serve(s, t, s.threads[t], b));
    case Admitting(t, b) => NilMove(s, t, Admit(s, t, s.threads[t], b));
    case Retiring(t, b) => NilMove(s, t, Retire(s, t, s.threads[t], b));
    case Swapping(t, b) => SwapNil(s, t, b);
  }

  lemma SwapNil(s: State, t: Tid, b: SwapAct)
    requires NilInv(s) && ReadersInv(s.readers, s.threads) && ExclusionInv(s)
    requires t in s.threads && CanSwap(s, t, s.threads[t], b)
    ensures NilInv(SwapStep(s, t, s.threads[t], b))
  {
    if b.Swap? {
      assert s.readers == {};
      assert forall u | u in s.threads :: !s.threads[u].ServeNil?;
    } else {
      NilMove(s, t, SwapStep(s, t, s.threads[t], b));
    }
  }

  // ------------------------------------------------------------------------------------------------
  // Runs by their last action

  lemma {:induction false} RunFront(s: State, run: seq<Action>)
    requires IsRun(s, run) && run != []
    ensures var front, a := run[..|run| - 1], run[|run| - 1];
            IsRun(s, front) && Enabled(Exec(s, front), a) && Exec(s, run) == Apply(Exec(s, front), a)
    decreases |run|
  {
    if |run| == 1 {
      assert run[..0] == [] && run[1..] == [];
    } else {
      var rest := run[1..];
      RunFront(Apply(s, run[0]), rest);
      assert run[..|run| - 1][0] == run[0] && run[..|run| - 1][1..] == rest[..|rest| - 1];
    }
  }

  lemma {:induction false} RunKeepsNil(run: seq<Action>)
    requires IsRun(INIT, run)
    ensures NilInv(Exec(INIT, run))
    decreases |run|
  {
    if run != [] {
      RunFront(INIT, run);
      RunKeepsNil(run[..|run| - 1]);
      RunKeepsInv(INIT, run[..|run| - 1]);
      NilStep(Exec(INIT, run[..|run| - 1]), run[|run| - 1]);
    }
  }

  /** A client is refused by the wrapper if and only if no handler is published; else it is in the published one. */
  lemma ServedIffPublished(run: seq<Action>, t: Tid)
    requires IsRun(INIT, run) && t in Exec(INIT, run).threads
    requires Exec(INIT, run).threads[t].ServeIn? || Exec(INIT, run).threads[t].ServeNil?
    ensures var s := Exec(INIT, run);
            && (s.threads[t].ServeNil? <==> s.ptr == None)
            && (s.threads[t].ServeIn? <==> s.ptr.Some?)
            && (s.threads[t].ServeIn? ==> s.ptr == Some(s.threads[t].h))
  {
    RunKeepsInv(INIT, run);
    RunKeepsNil(run);
  }

  /** A request waits for nothing but a swap: with none announced it gets in, and then finds what is published. */
  lemma RequestGetsIn(s: State, t: Tid)
    requires t in s.threads && s.threads[t].ServeStart? && s.drainWriter == None
    ensures Enabled(s, Serving(t, RLock)) && Enabled(Apply(s, Serving(t, RLock)), Serving(t, Load))
    ensures Apply(Apply(s, Serving(t, RLock)), Serving(t, Load))
         == s.(readers := s.readers + {t},
               threads := s.threads[t := if s.ptr.Some? then ServeIn(s.ptr.value, 0, []) else ServeNil])
  {
  }

  // ------------------------------------------------------------------------------------------------
  // Calls and what they have done, read off the run

  /** What call t was made for. */
  function OpOf(run: seq<Action>, t: Tid): Option<Op> {
    if run == [] then None
    else
      var a := run[|run| - 1];
      if a.Call? && a.t == t then Some(a.op) else OpOf(run[..|run| - 1], t)
  }

  /** The handler reload t built. */
  function BuiltBy(run: seq<Action>, t: Tid): Option<Hid> {
    if run == [] then None
    else
      var a := run[|run| - 1];
      if a.Admitting? && a.t == t && a.admit.Build? then Some(a.admit.h) else BuiltBy(run[..|run| - 1], t)
  }

  /** The places of a call of each kind, and the handler a reload takes to its publication. */
  predicate Fits(pc: PC, op: Op, built: Option<Hid>) {
    match pc
    case ServeStart => op.ServeDNS?
    case ServeLocked => op.ServeDNS?
    case ServeIn(_, _, _) => op.ServeDNS?
    case ServeNil => op.ServeDNS?
    case ReloadStart => op.ReloadConfig? && built == None
    case ReloadBuilt(h) => op.ReloadConfig? && built == Some(h)
    case ReloadLocked(h) => op.ReloadConfig? && built == Some(h)
    case Rejecting(h) => op.ReloadConfig? && built == Some(h)
    case Starting(h, _) => op.ReloadConfig? && built == Some(h)
    case StopStart => op.Stop?
    case StopLocked => op.Stop?
    case StopReturning => op.Stop?
    case SwapWanted(next) => Carries(op, built, next)
    case SwapAnnounced(next) => Carries(op, built, next)
    case SwapWriting(next) => Carries(op, built, next)
    case Swapped(_) => !op.ServeDNS?
    case Unlocking(_) => !op.ServeDNS?
    case Stopping(_, _) => !op.ServeDNS?
    case Awaiting(_, _, _) => !op.ServeDNS?
    case Done => true
  }

  predicate Carries(op: Op, built: Option<Hid>, next: Option<Hid>) {
    match op
    case ServeDNS => false
    case ReloadConfig => next.Some? && built == next
    case Stop => next == None
  }

  ghost predicate Placed(s: State, run: seq<Action>) {
    forall t: Tid ::
      if t in s.threads then OpOf(run, t).Some? && Fits(s.threads[t], OpOf(run, t).value, BuiltBy(run, t))
      else OpOf(run, t) == None && BuiltBy(run, t) == None
  }

  lemma OneMoreAct(run: seq<Action>, a: Action, t: Tid)
    ensures OpOf(run + [a], t) == if a.Call? && a.t == t then Some(a.op) else OpOf(run, t)
    ensures BuiltBy(run + [a], t)
         == if a.Admitting? && a.t == t && a.admit.Build? then Some(a.admit.h) else BuiltBy(run, t)
  {
    assert (run + [a])[..|run|] == run;
  }

  lemma PlacedMove(s: State, run: seq<Action>, a: Action, t: Tid, s': State)
    requires Placed(s, run) && t in s.threads && t in s'.threads && s'.threads == s.threads[t := s'.threads[t]]
    requires !a.Call? && (a.Admitting? && a.admit.Build? ==> a.t == t)
    requires OpOf(run, t).Some? ==> Fits(s'.threads[t], OpOf(run, t).value, BuiltBy(run + [a], t))
    ensures Placed(s', run + [a])
  {
    forall u: Tid
      ensures OpOf(run + [a], u) == OpOf(run, u) && (u != t ==> BuiltBy(run + [a], u) == BuiltBy(run, u))
    {
      OneMoreAct(run, a, u);
    }
    forall u: Tid
      ensures if u in s'.threads then
                OpOf(run + [a], u).Some? && Fits(s'.threads[u], OpOf(run + [a], u).value, BuiltBy(run + [a], u))
              else OpOf(run + [a], u) == None && BuiltBy(run + [a], u) == None
    {
      assert u != t ==> (u in s'.threads <==> u in s.threads);
    }
  }

  lemma AdmitFits(s: State, t: Tid, a: AdmitAct, op: Op, built: Option<Hid>)
    requires t in s.threads && CanAdmit(s, t, s.threads[t], a) && Fits(s.threads[t], op, built)
    ensures Fits(Admit(s, t, s.threads[t], a).threads[t], op, if a.Build? then Some(a.h) else built)
  {
  }

  lemma SwapFits(s: State, t: Tid, a: SwapAct, op: Op, built: Option<Hid>)
    requires t in s.threads && CanSwap(s, t, s.threads[t], a) && Fits(s.threads[t], op, built)
    ensures Fits(SwapStep(s, t, s.threads[t], a).threads[t], op, built)
  {
  }

  lemma AdmitPlaced(s: State, run: seq<Action>, t: Tid, b: AdmitAct)
    requires Placed(s, run) && Enabled(s, Admitting(t, b))
    ensures Placed(Apply(s, Admitting(t, b)), run + [Admitting(t, b)])
  {
    AdmitFits(s, t, b, OpOf(run, t).value, BuiltBy(run, t));
    OneMoreAct(run, Admitting(t, b), t);
    PlacedMove(s, run, Admitting(t, b), t, Admit(s, t, s.threads[t], b));
  }

  lemma SwapPlaced(s: State, run: seq<Action>, t: Tid, b: SwapAct)
    requires Placed(s, run) && Enabled(s, Swapping(t, b))
    ensures Placed(Apply(s, Swapping(t, b)), run + [Swapping(t, b)])
  {
    SwapFits(s, t, b, OpOf(run, t).value, BuiltBy(run, t));
    OneMoreAct(run, Swapping(t, b), t);
    PlacedMove(s, run, Swapping(t, b), t, SwapStep(s, t, s.threads[t], b));
  }

  lemma ServePlaced(s: State, run: seq<Action>, t: Tid, b: ServeAct)
    requires Placed(s, run) && Enabled(s, Serving(t, b))
    ensures Placed(Apply(s, Serving(t, b)), run + [Serving(t, b)])
  {
    OneMoreAct(run, Serving(t, b), t);
    PlacedMove(s, run, Serving(t, b), t, Serve(s, t, s.threads[t], b));
  }

  lemma RetirePlaced(s: State, run: seq<Action>, t: Tid, b: StopAct)
    requires Placed(s, run) && Enabled(s, Retiring(t, b))
    ensures Placed(Apply(s, Retiring(t, b)), run + [Retiring(t, b)])
  {
    OneMoreAct(run, Retiring(t, b), t);
    PlacedMove(s, run, Retiring(t, b), t, Retire(s, t, s.threads[t], b));
  }

  lemma CallPlaced(s: State, run: seq<Action>, a: Action)
    requires Placed(s, run) && Enabled(s, a) && (a.Call? || a.OnGroup?)
    ensures Placed(Apply(s, a), run + [a])
  {
    forall u: Tid ensures BuiltBy(run + [a], u) == BuiltBy(run, u)
      ensures OpOf(run + [a], u) == if a.Call? && a.t == u then Some(a.op) else OpOf(run, u)
    {
      OneMoreAct(run, a, u);
    }
  }

  lemma PlacedStep(s: State, run: seq<Action>, a: Action)
    requires Placed(s, run) && Enabled(s, a)
    ensures Placed(Apply(s, a), run + [a])
  {
    match a
    case Serving(t, b) => ServePlaced(s, run, t, b);
    case Admitting(t, b) => AdmitPlaced(s, run, t, b);
    case Swapping(t, b) => SwapPlaced(s, run, t, b);
    case Retiring(t, b) => RetirePlaced(s, run, t, b);
    case _ => CallPlaced(s, run, a);
  }

  lemma {:induction false} RunPlaced(run: seq<Action>)
    requires IsRun(INIT, run)
    ensures Placed(Exec(INIT, run), run)
    decreases |run|
  {
    if run != [] {
      var front := run[..|run| - 1];
      RunFront(INIT, run);
      RunPlaced(front);
      PlacedStep(Exec(INIT, front), front, run[|run| - 1]);
      assert run == front + [run[|run| - 1]];
    }
  }

  /** A swap publishes the handler its reload built, and a stop's swap publishes none. */
  lemma SwapPublishes(run: seq<Action>, t: Tid)
    requires IsRun(INIT, run) && Enabled(Exec(INIT, run), Swapping(t, Swap))
    ensures var s' := Apply(Exec(INIT, run), Swapping(t, Swap));
            match OpOf(run, t)
            case Some(ReloadConfig) => BuiltBy(run, t).Some? && s'.ptr == BuiltBy(run, t)
            case Some(Stop) => s'.ptr == None
            case _ => false
  {
    RunPlaced(run);
  }

  // ------------------------------------------------------------------------------------------------
  // What a call that has returned has brought about

  /** The later places of a stop, where its work at the pointer is done. */
  predicate Late(pc: PC) {
    pc.Swapped? || pc.Unlocking? || pc.Stopping? || pc.Awaiting? || pc.Done?
  }

  ghost predicate StopsDone(s: State, run: seq<Action>) {
    forall t | t in s.threads && OpOf(run, t) == Some(Stop) && Late(s.threads[t]) :: s.stopped && s.ptr == None
  }

  lemma StopsDoneStep(s: State, run: seq<Action>, a: Action)
    requires Inv(s) && Placed(s, run) && StopsDone(s, run) && Enabled(s, a)
    ensures StopsDone(Apply(s, a), run + [a])
  {
    var s' := Apply(s, a);
    forall t | t in s'.threads && OpOf(run + [a], t) == Some(Stop) && Late(s'.threads[t])
      ensures s'.stopped && s'.ptr == None
    {
      OneMoreAct(run, a, t);
      if t in s.threads && Late(s.threads[t]) {
        StepStaysNil(s, a);
      } else {
        BecomesLate(s, run, a, t);
      }
    }
  }

  lemma BecomesLate(s: State, run: seq<Action>, a: Action, t: Tid)
    requires Inv(s) && Placed(s, run) && Enabled(s, a) && OpOf(run + [a], t) == Some(Stop)
    requires t in Apply(s, a).threads && Late(Apply(s, a).threads[t]) && !(t in s.threads && Late(s.threads[t]))
    ensures Apply(s, a).stopped && Apply(s, a).ptr == None
  {
    OneMoreAct(run, a, t);
    var built := BuiltBy(run, t);
    assert Fits(s.threads[t], Stop, built);
    match a
    case Serving(u, b) => ServeNotLate(s, u, b, t, built);
    case Retiring(u, b) => RetireNotLate(s, u, b, t);
    case Admitting(u, b) => AdmitLate(s, u, b, t, built);
    case Swapping(u, b) => SwapLate(s, u, b, t, built);
    case _ =>
  }

  lemma ServeNotLate(s: State, u: Tid, b: ServeAct, t: Tid, built: Option<Hid>)
    requires u in s.threads && CanServe(s, u, s.threads[u], b) && t in s.threads && Fits(s.threads[t], Stop, built)
    ensures t in Serve(s, u, s.threads[u], b).threads && Serve(s, u, s.threads[u], b).threads[t] == s.threads[t]
  {
  }

  lemma RetireNotLate(s: State, u: Tid, b: StopAct, t: Tid)
    requires u in s.threads && CanRetire(s, u, s.threads[u], b) && t in s.threads && !Late(s.threads[t])
    ensures t in Retire(s, u, s.threads[u], b).threads && Retire(s, u, s.threads[u], b).threads[t] == s.threads[t]
  {
  }

  /** A stop that finds the wrapper stopped returns at once; it finds the pointer empty too. */
  lemma AdmitLate(s: State, u: Tid, b: AdmitAct, t: Tid, built: Option<Hid>)
    requires LockInv(s) && FlagInv(s) && u in s.threads && CanAdmit(s, u, s.threads[u], b)
    requires t in s.threads && Fits(s.threads[t], Stop, built) && !Late(s.threads[t])
    requires t in Admit(s, u, s.threads[u], b).threads && Late(Admit(s, u, s.threads[u], b).threads[t])
    ensures Admit(s, u, s.threads[u], b).stopped && Admit(s, u, s.threads[u], b).ptr == None
  {
    assert u == t && s.threads[t].StopReturning?;
    assert s.lifecycle == Some(t);
  }

  lemma SwapLate(s: State, u: Tid, b: SwapAct, t: Tid, built: Option<Hid>)
    requires LockInv(s) && FlagInv(s) && u in s.threads && CanSwap(s, u, s.threads[u], b)
    requires t in s.threads && Fits(s.threads[t], Stop, built) && !Late(s.threads[t])
    requires t in SwapStep(s, u, s.threads[u], b).threads && Late(SwapStep(s, u, s.threads[u], b).threads[t])
    ensures SwapStep(s, u, s.threads[u], b).stopped && SwapStep(s, u, s.threads[u], b).ptr == None
  {
    assert u == t && b.Swap? && s.threads[t].next == None;
    assert s.lifecycle == Some(t);
  }

  lemma {:induction false} RunStopsDone(run: seq<Action>)
    requires IsRun(INIT, run)
    ensures StopsDone(Exec(INIT, run), run)
    decreases |run|
  {
    if run != [] {
      var front := run[..|run| - 1];
      RunFront(INIT, run);
      RunStopsDone(front);
      RunPlaced(front);
      RunKeepsInv(INIT, front);
      StopsDoneStep(Exec(INIT, front), front, run[|run| - 1]);
      assert run == front + [run[|run| - 1]];
    }
  }

  /** When a Stop has returned, nothing is published and no request is in a handler, now or ever after. */
  lemma StopReturned(run: seq<Action>, t: Tid, more: seq<Action>)
    requires IsRun(INIT, run) && t in Exec(INIT, run).threads && Exec(INIT, run).threads[t].Done?
    requires OpOf(run, t) == Some(Stop) && IsRun(Exec(INIT, run), more)
    ensures var s := Exec(Exec(INIT, run), more);
            s.stopped && s.ptr == None && forall u | u in s.threads :: !s.threads[u].ServeIn?
  {
    RunStopsDone(run);
    RunKeepsInv(INIT, run);
    StoppedStaysNil(Exec(INIT, run), more);
    RunKeepsInv(Exec(INIT, run), more);
  }

  /** Handler h has been the published one. */
  ghost predicate WasPublished(run: seq<Action>, h: Hid) {
    exists k: nat :: PublishedAt(run, h, k)
  }

  ghost predicate PublishedAt(run: seq<Action>, h: Hid, k: nat) {
    k <= |run| && IsRun(INIT, run[..k]) && Exec(INIT, run[..k]).ptr == Some(h)
  }

  lemma StillPublished(run: seq<Action>, a: Action, h: Hid)
    requires WasPublished(run, h)
    ensures WasPublished(run + [a], h)
  {
    var k: nat :| PublishedAt(run, h, k);
    assert (run + [a])[..k] == run[..k];
    assert PublishedAt(run + [a], h, k);
  }

  lemma NowPublished(run: seq<Action>, h: Hid)
    requires IsRun(INIT, run) && Exec(INIT, run).ptr == Some(h)
    ensures WasPublished(run, h)
  {
    assert run[..|run|] == run;
    assert PublishedAt(run, h, |run|);
  }

  /** Handler h was turned away: its stop has begun though it was never started, for the wrapper was stopped. */
  predicate TurnedAway(s: State, h: Hid) {
    s.stopped && h in s.handlers && s.handlers[h].starts == 0 && s.handlers[h].stops > 0
  }

  ghost predicate ReloadsDone(s: State, run: seq<Action>) {
    forall t | t in s.threads && OpOf(run, t) == Some(ReloadConfig) && Late(s.threads[t]) && BuiltBy(run, t).Some? ::
      WasPublished(run, BuiltBy(run, t).value) || TurnedAway(s, BuiltBy(run, t).value)
  }

  lemma StaysTurnedAway(s: State, a: Action, h: Hid)
    requires Inv(s) && Enabled(s, a) && TurnedAway(s, h)
    ensures TurnedAway(Apply(s, a), h)
  {
    StepNeverRestarts(s, a, h);
    StaysStopped(s, a);
  }

  lemma StaysStopped(s: State, a: Action)
    requires Enabled(s, a) && s.stopped
    ensures Apply(s, a).stopped
  {
  }

  lemma ReloadsDoneStep(s: State, run: seq<Action>, a: Action)
    requires IsRun(INIT, run) && s == Exec(INIT, run) && Inv(s) && Enabled(s, a)
    requires Placed(s, run) && ReloadsDone(s, run)
    ensures ReloadsDone(Apply(s, a), run + [a])
  {
    var s' := Apply(s, a);
    ExecThen(INIT, run, a);
    forall t | t in s'.threads && OpOf(run + [a], t) == Some(ReloadConfig) && Late(s'.threads[t])
               && BuiltBy(run + [a], t).Some?
      ensures var h := BuiltBy(run + [a], t).value; WasPublished(run + [a], h) || TurnedAway(s', h)
    {
      OneMoreAct(run, a, t);
      if t in s.threads && Late(s.threads[t]) {
        var h := BuiltBy(run, t).value;
        if WasPublished(run, h) {
          StillPublished(run, a, h);
        } else {
          StaysTurnedAway(s, a, h);
        }
      } else {
        ReloadBecomesLate(s, run, a, t);
        if s'.ptr == BuiltBy(run, t) {
          NowPublished(run + [a], BuiltBy(run, t).value);
        }
      }
    }
  }

  lemma LateBuildIsEarlier(s: State, run: seq<Action>, a: Action, t: Tid)
    requires Enabled(s, a) && t in Apply(s, a).threads && Late(Apply(s, a).threads[t])
    ensures BuiltBy(run + [a], t) == BuiltBy(run, t)
    ensures a.Call? ==> OpOf(run + [a], t) == OpOf(run, t)
  {
    OneMoreAct(run, a, t);
  }

  lemma ReloadBecomesLate(s: State, run: seq<Action>, a: Action, t: Tid)
    requires Inv(s) && Placed(s, run) && Enabled(s, a) && OpOf(run + [a], t) == Some(ReloadConfig)
    requires t in Apply(s, a).threads && Late(Apply(s, a).threads[t]) && !(t in s.threads && Late(s.threads[t]))
    requires BuiltBy(run + [a], t).Some?
    ensures BuiltBy(run, t) == BuiltBy(run + [a], t)
    ensures Apply(s, a).ptr == BuiltBy(run, t) || TurnedAway(Apply(s, a), BuiltBy(run, t).value)
  {
    OneMoreAct(run, a, t);
    LateBuildIsEarlier(s, run, a, t);
    var built := BuiltBy(run, t);
    assert Fits(s.threads[t], ReloadConfig, built);
    match a
    case Serving(u, b) => ServeKeepsReload(s, u, b, t, built);
    case Retiring(u, b) => RetireNotLate(s, u, b, t);
    case Admitting(u, b) => AdmitReloadLate(s, u, b, t, built);
    case Swapping(u, b) => SwapReloadLate(s, u, b, t, built);
    case _ =>
  }

  lemma ServeKeepsReload(s: State, u: Tid, b: ServeAct, t: Tid, built: Option<Hid>)
    requires u in s.threads && CanServe(s, u, s.threads[u], b) && t in s.threads
    requires Fits(s.threads[t], ReloadConfig, built) && !Late(s.threads[t])
    ensures t in Serve(s, u, s.threads[u], b).threads && Serve(s, u, s.threads[u], b).threads[t] == s.threads[t]
  {
  }

  /** A reload that finds the wrapper stopped begins the stop of its handler, which was never started. */
  lemma AdmitReloadLate(s: State, u: Tid, b: AdmitAct, t: Tid, built: Option<Hid>)
    requires Inv(s) && u in s.threads && CanAdmit(s, u, s.threads[u], b)
    requires t in s.threads && Fits(s.threads[t], ReloadConfig, built) && !Late(s.threads[t]) && built.Some?
    requires t in Admit(s, u, s.threads[u], b).threads && Late(Admit(s, u, s.threads[u], b).threads[t])
    ensures TurnedAway(Admit(s, u, s.threads[u], b), built.value)
  {
    assert u == t && s.threads[t] == Rejecting(built.value);
    OwnerSees(s, t);
    RejectTurnsAway(s, t, built.value);
  }

  lemma RejectTurnsAway(s: State, t: Tid, h: Hid)
    requires LifecycleInv(s.lifecycle, s.threads) && FlagInv(s) && t in s.threads && s.threads[t] == Rejecting(h)
    requires h in s.handlers && Fresh(s.handlers[h])
    ensures TurnedAway(Admit(s, t, s.threads[t], UnlockReject), h)
  {
    assert s.lifecycle == Some(t);
  }

  lemma SwapReloadLate(s: State, u: Tid, b: SwapAct, t: Tid, built: Option<Hid>)
    requires u in s.threads && CanSwap(s, u, s.threads[u], b)
    requires t in s.threads && Fits(s.threads[t], ReloadConfig, built) && !Late(s.threads[t])
    requires t in SwapStep(s, u, s.threads[u], b).threads && Late(SwapStep(s, u, s.threads[u], b).threads[t])
    ensures SwapStep(s, u, s.threads[u], b).ptr == built
  {
    assert u == t && b.Swap?;
  }

  lemma {:induction false} RunReloadsDone(run: seq<Action>)
    requires IsRun(INIT, run)
    ensures ReloadsDone(Exec(INIT, run), run)
    decreases |run|
  {
    if run != [] {
      var front := run[..|run| - 1];
      RunFront(INIT, run);
      RunReloadsDone(front);
      RunPlaced(front);
      RunKeepsInv(INIT, front);
      ReloadsDoneStep(Exec(INIT, front), front, run[|run| - 1]);
      assert run == front + [run[|run| - 1]];
    }
  }

  /**
   When a reload has returned, either its configuration was refused, or the handler it built has been published, or the
   wrapper was stopped and that handler was stopped without ever being started.
   */
  lemma ReloadReturned(run: seq<Action>, t: Tid)
    requires IsRun(INIT, run) && t in Exec(INIT, run).threads && Exec(INIT, run).threads[t].Done?
    requires OpOf(run, t) == Some(ReloadConfig)
    ensures match BuiltBy(run, t)
            case None => true
            case Some(h) => WasPublished(run, h) || TurnedAway(Exec(INIT, run), h)
  {
    RunReloadsDone(run);
  }
}
