/**
 Calls return: a measure that every step under way lowers, so that once no new call comes and nothing more is posted,
 every way of going on comes to an end, and by freedom from deadlock to one with all calls returned.
 */
module LifecycleProgress {
  import opened Options
  import opened Permutations
  import opened Lifecycle
  import opened LifecycleInvariant
  import opened LifecycleSafety

  // ------------------------------------------------------------------------------------------------
  // Sums

  ghost function Sum<K>(m: map<K, nat>): nat {
    if m == map[] then 0
    else
      var k :| k in m;
      m[k] + Sum(m - {k})
  }

  lemma {:induction false} SumAt<K>(m: map<K, nat>, k: K)
    requires k in m
    ensures Sum(m) == m[k] + Sum(m - {k})
    decreases m
  {
    var j :| j in m && Sum(m) == m[j] + Sum(m - {j});
    if j != k {
      SumAt(m - {j}, k);
      SumAt(m - {k}, j);
      assert m - {j} - {k} == m - {k} - {j};
    }
  }

  lemma SumUpdate<K>(m: map<K, nat>, k: K, v: nat)
    ensures Sum(m[k := v]) + (if k in m then m[k] else 0) == Sum(m) + v
  {
    SumAt(m[k := v], k);
    if k in m {
      SumAt(m, k);
      assert m[k := v] - {k} == m - {k};
    } else {
      assert m[k := v] - {k} == m;
    }
  }

  // ------------------------------------------------------------------------------------------------
  // What is left to do

  /** A call's remaining steps, not counting those its handler still has coming. */
  function CallRank(pc: PC): nat {
    match pc
    case ServeStart => 3
    case ServeLocked => 2
    case ServeIn(_, _, tasks) => 1 + 4 * |tasks|
    case ServeNil => 1
    case ReloadStart => 21
    case ReloadBuilt(_) => 20
    case ReloadLocked(_) => 19
    case Rejecting(_) => 18
    case Starting(_, todo) => 10 + |todo|
    case StopStart => 13
    case StopLocked => 12
    case StopReturning => 1
    case SwapWanted(_) => 9
    case SwapAnnounced(_) => 8
    case SwapWriting(_) => 7
    case Swapped(_) => 6
    case Unlocking(_) => 5
    case Stopping(_, todo) => 1 + 2 * |todo|
    case Awaiting(_, _, todo) => 2 + 2 * |todo|
    case Done => 0
  }

  function WorkerRank(w: Worker): nat {
    match w
    case NotStarted => 9
    case Selecting => 5
    case Adding(_) => 7
    case Draining => 2
    case DrainAdding(_) => 4
    case Exited => 1
  }

  function GroupRank(gr: Group): nat {
    WorkerRank(gr.worker) + 3 * |gr.queue| + (if gr.refreshing then 1 else 0) + (if gr.stoppedCh then 0 else 1)
  }

  function GroupsRank(groups: seq<Group>): nat {
    if groups == [] then 0 else GroupRank(groups[0]) + GroupsRank(groups[1..])
  }

  lemma {:induction false} GroupsUpdate(groups: seq<Group>, g: nat, gr: Group)
    requires g < |groups|
    ensures GroupsRank(groups[g := gr]) + GroupRank(groups[g]) == GroupsRank(groups) + GroupRank(gr)
  {
    if g == 0 {
      assert groups[g := gr][1..] == groups[1..];
    } else {
      GroupsUpdate(groups[1..], g - 1, gr);
      assert groups[g := gr][1..] == groups[1..][g - 1 := gr];
    }
  }

  /** Its groups' steps, and those of the start and the stop it has not had. */
  function HandlerRank(hd: Handler): nat {
    GroupsRank(hd.groups) + (if hd.starts == 0 then |hd.groups| else 0) + (if hd.stops == 0 then 2 * |hd.groups| else 0)
  }

  function CallRanks(threads: map<Tid, PC>): map<Tid, nat> {
    map t | t in threads :: CallRank(threads[t])
  }

  function HandlerRanks(handlers: map<Hid, Handler>): map<Hid, nat> {
    map h | h in handlers :: HandlerRank(handlers[h])
  }

  /** Reloads that have yet to build a handler, of any size. */
  function BuildRanks(threads: map<Tid, PC>): map<Tid, nat> {
    map t | t in threads :: if threads[t].ReloadStart? then 1 else 0
  }

  ghost function Builds(s: State): nat {
    Sum(BuildRanks(s.threads))
  }

  ghost function Left(s: State): nat {
    Sum(CallRanks(s.threads)) + Sum(HandlerRanks(s.handlers))
  }

  /** Fewer builds to come, or as many and less left. */
  ghost predicate Lower(s: State, s': State) {
    Builds(s') < Builds(s) || (Builds(s') == Builds(s) && Left(s') < Left(s))
  }

  // ------------------------------------------------------------------------------------------------
  // Every step lowers it

  /** One call moves, one handler changes. */
  lemma Moved(s: State, s': State, t: Tid, h: Hid)
    requires t in s.threads && h in s.handlers && t in s'.threads && h in s'.handlers
    requires s'.threads == s.threads[t := s'.threads[t]] && s'.handlers == s.handlers[h := s'.handlers[h]]
    requires !s.threads[t].ReloadStart? && !s'.threads[t].ReloadStart?
    requires CallRank(s'.threads[t]) + HandlerRank(s'.handlers[h]) < CallRank(s.threads[t]) + HandlerRank(s.handlers[h])
    ensures Lower(s, s')
  {
    CallMoved(s, s', t);
    SumUpdate(HandlerRanks(s.handlers), h, HandlerRank(s'.handlers[h]));
    assert HandlerRanks(s'.handlers) == HandlerRanks(s.handlers)[h := HandlerRank(s'.handlers[h])];
  }

  lemma CallMoved(s: State, s': State, t: Tid)
    requires t in s.threads && t in s'.threads && s'.threads == s.threads[t := s'.threads[t]]
    ensures Sum(CallRanks(s'.threads)) + CallRank(s.threads[t]) == Sum(CallRanks(s.threads)) + CallRank(s'.threads[t])
    ensures !s'.threads[t].ReloadStart? ==> Builds(s') <= Builds(s)
    ensures !s'.threads[t].ReloadStart? && s.threads[t].ReloadStart? ==> Builds(s') < Builds(s)
    ensures !s'.threads[t].ReloadStart? && !s.threads[t].ReloadStart? ==> Builds(s') == Builds(s)
  {
    var pc := s'.threads[t];
    SumUpdate(CallRanks(s.threads), t, CallRank(pc));
    assert CallRanks(s'.threads) == CallRanks(s.threads)[t := CallRank(pc)];
    var one := if pc.ReloadStart? then 1 else 0;
    SumUpdate(BuildRanks(s.threads), t, one);
    assert BuildRanks(s'.threads) == BuildRanks(s.threads)[t := one];
  }

  /** One call moves and handlers stay. */
  lemma MovedAlone(s: State, s': State, t: Tid)
    requires t in s.threads && t in s'.threads
    requires s'.threads == s.threads[t := s'.threads[t]] && s'.handlers == s.handlers
    requires !s'.threads[t].ReloadStart? && CallRank(s'.threads[t]) < CallRank(s.threads[t])
    ensures Lower(s, s')
  {
    CallMoved(s, s', t);
  }

  lemma ServeLowers(s: State, t: Tid, a: ServeAct)
    requires t in s.threads && CanServe(s, t, s.threads[t], a) && !a.Post?
    ensures Lower(s, Serve(s, t, s.threads[t], a))
  {
    var pc, s' := s.threads[t], Serve(s, t, s.threads[t], a);
    if a.Enqueue? && |GroupAt(s, pc.h, pc.g).queue| < QUEUE_CAP {
      GroupsUpdate(s.handlers[pc.h].groups, pc.g, Put(GroupAt(s, pc.h, pc.g), pc.tasks[0]));
      Moved(s, s', t, pc.h);
    } else {
      MovedAlone(s, s', t);
    }
  }

  lemma GroupStepLowers(gr: Group, a: GroupAct)
    requires CanGroup(gr, a) && !a.InternalPost?
    ensures GroupRank(GroupStep(gr, a)) < GroupRank(gr)
  {
  }

  lemma OnGroupLowers(s: State, h: Hid, g: nat, a: GroupAct)
    requires HasGroup(s, h, g) && CanGroup(GroupAt(s, h, g), a) && !a.InternalPost?
    ensures Lower(s, SetGroup(s, h, g, GroupStep(GroupAt(s, h, g), a)))
  {
    var gr := GroupStep(GroupAt(s, h, g), a);
    var s' := SetGroup(s, h, g, gr);
    GroupStepLowers(GroupAt(s, h, g), a);
    GroupsUpdate(s.handlers[h].groups, g, gr);
    SumUpdate(HandlerRanks(s.handlers), h, HandlerRank(s'.handlers[h]));
    assert HandlerRanks(s'.handlers) == HandlerRanks(s.handlers)[h := HandlerRank(s'.handlers[h])];
  }

  /** stop() begins on a handler that has not had it. */
  lemma BeginStopLowers(s: State, t: Tid, h: Hid, s': State)
    requires t in s.threads && h in s.handlers && s.handlers[h].stops == 0
    requires s.threads[t].Rejecting? || s.threads[t].Unlocking?
    requires s'.threads == BeginStop(s, t, h).threads && s'.handlers == BeginStop(s, t, h).handlers
    ensures Lower(s, s')
  {
    var hd := s.handlers[h];
    StopRank(hd, h);
    assert s'.threads[t] == Stopping(h, All(hd)) && s'.handlers[h] == hd.(stops := 1);
    Moved(s, s', t, h);
  }

  lemma StopRank(hd: Handler, h: Hid)
    requires hd.stops == 0
    ensures CallRank(Stopping(h, All(hd))) + HandlerRank(hd.(stops := 1)) == 1 + HandlerRank(hd)
  {
  }

  lemma StartRank(hd: Handler, h: Hid)
    requires hd.starts == 0
    ensures CallRank(Starting(h, All(hd))) + HandlerRank(hd.(starts := 1)) == 10 + HandlerRank(hd)
  {
  }

  lemma OwnedHandler(s: State, t: Tid)
    requires OwnInv(s) && t in s.threads && Owned(s.threads[t]).Some?
    ensures Owned(s.threads[t]).value in s.handlers
    ensures OwnerView(s.threads[t], s.handlers[Owned(s.threads[t]).value])
  {
  }

  lemma BuildLowers(s: State, t: Tid, h: Hid, urls: seq<bool>)
    requires t in s.threads && CanAdmit(s, t, s.threads[t], Build(h, urls))
    ensures Lower(s, Admit(s, t, s.threads[t], Build(h, urls)))
  {
    CallMoved(s, Admit(s, t, s.threads[t], Build(h, urls)), t);
  }

  lemma StartLowers(s: State, t: Tid, g: nat)
    requires OwnInv(s) && GroupsInv(s) && t in s.threads && CanAdmit(s, t, s.threads[t], StartGroup(g))
    ensures Lower(s, Admit(s, t, s.threads[t], StartGroup(g)))
  {
    var h, gr := s.threads[t].h, GroupAt(s, s.threads[t].h, g);
    OwnedHandler(s, t);
    assert GroupInv(gr);
    GroupsUpdate(s.handlers[h].groups, g, StartOf(gr));
    Moved(s, Admit(s, t, s.threads[t], StartGroup(g)), t, h);
  }

  lemma CheckLowers(s: State, t: Tid)
    requires OwnInv(s) && t in s.threads && CanAdmit(s, t, s.threads[t], CheckStopped)
    ensures Lower(s, Admit(s, t, s.threads[t], CheckStopped))
  {
    var pc, s' := s.threads[t], Admit(s, t, s.threads[t], CheckStopped);
    if pc.ReloadLocked? && !s.stopped {
      OwnedHandler(s, t);
      StartRank(s.handlers[pc.h], pc.h);
      Moved(s, s', t, pc.h);
    } else {
      MovedAlone(s, s', t);
    }
  }

  lemma RejectLowers(s: State, t: Tid)
    requires OwnInv(s) && t in s.threads && CanAdmit(s, t, s.threads[t], UnlockReject)
    ensures Lower(s, Admit(s, t, s.threads[t], UnlockReject))
  {
    var pc, s' := s.threads[t], Admit(s, t, s.threads[t], UnlockReject);
    if pc.Rejecting? {
      OwnedHandler(s, t);
      BeginStopLowers(s, t, pc.h, s');
    } else {
      MovedAlone(s, s', t);
    }
  }

  lemma AdmitMovesLower(s: State, t: Tid, a: AdmitAct)
    requires t in s.threads && CanAdmit(s, t, s.threads[t], a) && (a.BuildFails? || a.LockLifecycle? || a.StartDone?)
    ensures Lower(s, Admit(s, t, s.threads[t], a))
  {
    AdmitFrame(s, t, a);
    MovedAlone(s, Admit(s, t, s.threads[t], a), t);
  }

  lemma AdmitLowers(s: State, t: Tid, a: AdmitAct)
    requires OwnInv(s) && GroupsInv(s) && t in s.threads && CanAdmit(s, t, s.threads[t], a)
    ensures Lower(s, Admit(s, t, s.threads[t], a))
  {
    match a
    case Build(h, urls) => BuildLowers(s, t, h, urls);
    case StartGroup(g) => StartLowers(s, t, g);
    case CheckStopped => CheckLowers(s, t);
    case UnlockReject => RejectLowers(s, t);
    case _ => AdmitMovesLower(s, t, a);
  }

  lemma UnlockLowers(s: State, t: Tid)
    requires OwnInv(s) && t in s.threads && CanSwap(s, t, s.threads[t], UnlockLifecycle) && s.threads[t].prev.Some?
    ensures Lower(s, SwapStep(s, t, s.threads[t], UnlockLifecycle))
  {
    OwnedHandler(s, t);
    BeginStopLowers(s, t, s.threads[t].prev.value, SwapStep(s, t, s.threads[t], UnlockLifecycle));
  }

  lemma SwapFrame(s: State, t: Tid, a: SwapAct)
    requires t in s.threads && CanSwap(s, t, s.threads[t], a)
    requires a.UnlockLifecycle? ==> s.threads[t].prev.None?
    ensures var s' := SwapStep(s, t, s.threads[t], a);
            && t in s'.threads && s'.threads == s.threads[t := s'.threads[t]] && s'.handlers == s.handlers
            && !s'.threads[t].ReloadStart? && CallRank(s'.threads[t]) < CallRank(s.threads[t])
  {
  }

  lemma SwapLowers(s: State, t: Tid, a: SwapAct)
    requires OwnInv(s) && t in s.threads && CanSwap(s, t, s.threads[t], a)
    ensures Lower(s, SwapStep(s, t, s.threads[t], a))
  {
    if a.UnlockLifecycle? && s.threads[t].prev.Some? {
      UnlockLowers(s, t);
    } else {
      SwapFrame(s, t, a);
      MovedAlone(s, SwapStep(s, t, s.threads[t], a), t);
    }
  }

  lemma StopGroupLowers(s: State, t: Tid, g: nat)
    requires t in s.threads && CanRetire(s, t, s.threads[t], StopGroup(g))
    ensures Lower(s, Retire(s, t, s.threads[t], StopGroup(g)))
  {
    var h, s' := s.threads[t].h, Retire(s, t, s.threads[t], StopGroup(g));
    var gr := GroupAt(s, h, g);
    if gr.started {
      GroupsUpdate(s.handlers[h].groups, g, gr.(stopCh := true));
      Moved(s, s', t, h);
    } else {
      MovedAlone(s, s', t);
    }
  }

  lemma RetireLowers(s: State, t: Tid, a: StopAct)
    requires t in s.threads && CanRetire(s, t, s.threads[t], a)
    ensures Lower(s, Retire(s, t, s.threads[t], a))
  {
    var pc, s' := s.threads[t], Retire(s, t, s.threads[t], a);
    match a
    case StopGroup(g) => StopGroupLowers(s, t, g);
    case AwaitStopped => MovedAlone(s, s', t);
    case StopDone => Moved(s, s', t, pc.h);
  }

  /** Every step of something under way lowers what is left. */
  lemma ProgressLowers(s: State, a: Action)
    requires Inv(s) && Enabled(s, a) && Progress(a)
    ensures Lower(s, Apply(s, a))
  {
    match a
    case Serving(t, b) => ServeLowers(s, t, b);
    case Admitting(t, b) => AdmitLowers(s, t, b);
    case Swapping(t, b) => SwapLowers(s, t, b);
    case Retiring(t, b) => RetireLowers(s, t, b);
    case OnGroup(h, g, b) => OnGroupLowers(s, h, g, b);
  }

  predicate AllProgress(more: seq<Action>) {
    forall i | 0 <= i < |more| :: Progress(more[i])
  }

  /** With no reload left to build, no way of going on is longer than what is left. */
  lemma {:induction false} BoundedSteps(s: State, more: seq<Action>)
    requires Inv(s) && IsRun(s, more) && AllProgress(more) && Builds(s) == 0
    ensures |more| + Left(Exec(s, more)) <= Left(s)
    decreases |more|
  {
    if more != [] {
      ProgressLowers(s, more[0]);
      StepKeepsInv(s, more[0]);
      BoundedSteps(Apply(s, more[0]), more[1..]);
    }
  }

  lemma NextStep(run: seq<Action>) returns (a: Action)
    requires IsRun(INIT, run) && !Quiet(Exec(INIT, run))
    ensures Progress(a) && Enabled(Exec(INIT, run), a) && IsRun(INIT, run + [a])
    ensures Exec(INIT, run + [a]) == Apply(Exec(INIT, run), a) && Lower(Exec(INIT, run), Exec(INIT, run + [a]))
  {
    var s := Exec(INIT, run);
    RunKeepsInv(INIT, run);
    var t :| t in s.threads && !s.threads[t].Done?;
    a := NoDeadlock(run, t);
    ProgressLowers(s, a);
    ExecThen(INIT, run, a);
  }

  /**
   From every reachable state the steps under way lead, in whatever order they come, to a state where all calls have
   returned: some such continuation exists, and by ProgressLowers none goes on for ever.
   */
  lemma {:induction false} CallsReturn(run: seq<Action>) returns (more: seq<Action>)
    requires IsRun(INIT, run)
    ensures IsRun(Exec(INIT, run), more) && AllProgress(more) && Quiet(Exec(Exec(INIT, run), more))
    decreases Builds(Exec(INIT, run)), Left(Exec(INIT, run))
  {
    var s := Exec(INIT, run);
    RunKeepsInv(INIT, run);
    if Quiet(s) {
      more := [];
    } else {
      var a := NextStep(run);
      var rest := CallsReturn(run + [a]);
      more := [a] + rest;
    }
  }
}
