/** What the lifecycle guarantees over every interleaving of calls, workers and refreshers. */
module LifecycleSafety {
  import opened Options
  import opened Permutations
  import opened Lifecycle
  import opened LifecycleInvariant

  // ------------------------------------------------------------------------------------------------
  // What holds over every interleaving

  function ClientTasks(tasks: seq<Task>): seq<Task> {
    if tasks == [] then []
    else (if tasks[0].client then [tasks[0]] else []) + ClientTasks(tasks[1..])
  }

  lemma {:induction false} ClientTasksConcat(a: seq<Task>, b: seq<Task>)
    ensures ClientTasks(a + b) == ClientTasks(a) + ClientTasks(b)
  {
    if a == [] {
      assert a + b == b;
    } else {
      assert (a + b)[0] == a[0] && (a + b)[1..] == a[1..] + b;
      ClientTasksConcat(a[1..], b);
    }
  }

  lemma {:induction false} InternalHasNoClientTasks(tasks: seq<Task>)
    requires Internal(tasks)
    ensures ClientTasks(tasks) == []
  {
    if tasks != [] {
      assert !tasks[0].client;
      InternalHasNoClientTasks(tasks[1..]);
    }
  }

  /** A request served through the wrapper is only ever inside the published handler, started and not being stopped. */
  lemma RequestsRunInLiveHandlers(run: seq<Action>, t: Tid)
    requires IsRun(INIT, run) && t in Exec(INIT, run).threads && Exec(INIT, run).threads[t].ServeIn?
    ensures var s := Exec(INIT, run); var h := s.threads[t].h;
            && s.ptr == Some(h) && h in s.handlers
            && s.handlers[h].starts == 1 && s.handlers[h].stops == 0
            && forall g: nat | HasGroup(s, h, g) :: GroupAt(s, h, g).started && !GroupAt(s, h, g).stopCh
  {
    RunKeepsInv(INIT, run);
  }

  /** start() and stop() are each called at most once on a handler, and stop() never on the published one. */
  lemma StartedAndStoppedOnce(run: seq<Action>, h: Hid)
    requires IsRun(INIT, run) && h in Exec(INIT, run).handlers
    ensures var s := Exec(INIT, run);
            s.handlers[h].starts <= 1 && s.handlers[h].stops <= 1 && (s.ptr == Some(h) ==> s.handlers[h].stops == 0)
  {
    RunKeepsInv(INIT, run);
    var s := Exec(INIT, run);
    forall t | t in s.threads && Owned(s.threads[t]).Some? ensures OwnedOnce(s, t) {
      OwnedIsOnce(s, t);
    }
    assert s.ptr == Some(h) || Finished(s.handlers[h]) || exists t :: t in s.threads && Owned(s.threads[t]) == Some(h);
  }

  /** What a call owns it starts and stops at most once. */
  predicate OwnedOnce(s: State, t: Tid)
    requires t in s.threads && Owned(s.threads[t]).Some?
  {
    var h := Owned(s.threads[t]).value;
    h in s.handlers && s.handlers[h].starts <= 1 && s.handlers[h].stops <= 1
  }

  lemma OwnedIsOnce(s: State, t: Tid)
    requires OwnInv(s) && t in s.threads && Owned(s.threads[t]).Some?
    ensures OwnedOnce(s, t)
  {
    assert OwnerView(s.threads[t], s.handlers[Owned(s.threads[t]).value]);
  }

  /** hd' was not started, and no group of it was, since hd. */
  ghost predicate NotRestarted(hd: Handler, hd': Handler) {
    && hd'.stops > 0 && hd'.starts == hd.starts && |hd'.groups| == |hd.groups|
    && forall g | 0 <= g < |hd.groups| :: hd'.groups[g].started == hd.groups[g].started
  }

  lemma AdmitNeverRestarts(s: State, t: Tid, a: AdmitAct, h: Hid)
    requires OwnInv(s) && t in s.threads && CanAdmit(s, t, s.threads[t], a)
    requires h in s.handlers && s.handlers[h].stops > 0
    ensures h in Admit(s, t, s.threads[t], a).handlers
    ensures NotRestarted(s.handlers[h], Admit(s, t, s.threads[t], a).handlers[h])
  {
    if Owned(s.threads[t]) == Some(h) {
      assert OwnerView(s.threads[t], s.handlers[h]);
    }
  }

  lemma ServeNeverRestarts(s: State, t: Tid, a: ServeAct, h: Hid)
    requires t in s.threads && CanServe(s, t, s.threads[t], a) && h in s.handlers && s.handlers[h].stops > 0
    ensures h in Serve(s, t, s.threads[t], a).handlers
    ensures NotRestarted(s.handlers[h], Serve(s, t, s.threads[t], a).handlers[h])
  {
  }

  lemma RetireNeverRestarts(s: State, t: Tid, a: StopAct, h: Hid)
    requires t in s.threads && CanRetire(s, t, s.threads[t], a) && h in s.handlers && s.handlers[h].stops > 0
    ensures h in Retire(s, t, s.threads[t], a).handlers
    ensures NotRestarted(s.handlers[h], Retire(s, t, s.threads[t], a).handlers[h])
  {
  }

  lemma SwapNeverRestarts(s: State, t: Tid, a: SwapAct, h: Hid)
    requires t in s.threads && CanSwap(s, t, s.threads[t], a) && h in s.handlers && s.handlers[h].stops > 0
    ensures h in SwapStep(s, t, s.threads[t], a).handlers
    ensures NotRestarted(s.handlers[h], SwapStep(s, t, s.threads[t], a).handlers[h])
  {
  }

  lemma GroupNeverRestarts(s: State, k: Hid, g: nat, a: GroupAct, h: Hid)
    requires HasGroup(s, k, g) && CanGroup(GroupAt(s, k, g), a) && h in s.handlers && s.handlers[h].stops > 0
    ensures NotRestarted(s.handlers[h], SetGroup(s, k, g, GroupStep(GroupAt(s, k, g), a)).handlers[h])
  {
  }

  /** Once stop() of a handler has begun, no call starts it or one of its groups. */
  lemma StepNeverRestarts(s: State, a: Action, h: Hid)
    requires OwnInv(s) && Enabled(s, a) && h in s.handlers && s.handlers[h].stops > 0
    ensures h in Apply(s, a).handlers && NotRestarted(s.handlers[h], Apply(s, a).handlers[h])
  {
    match a
    case OnGroup(k, g, b) => GroupNeverRestarts(s, k, g, b, h);
    case Call(_, _) =>
    case Serving(t, b) => ServeNeverRestarts(s, t, b, h);
    case Admitting(t, b) => AdmitNeverRestarts(s, t, b, h);
    case Swapping(t, b) => SwapNeverRestarts(s, t, b, h);
    case Retiring(t, b) => RetireNeverRestarts(s, t, b, h);
  }

  lemma {:induction false} NeverRestarted(s: State, more: seq<Action>, h: Hid)
    requires Inv(s) && IsRun(s, more) && h in s.handlers && s.handlers[h].stops > 0
    ensures h in Exec(s, more).handlers && NotRestarted(s.handlers[h], Exec(s, more).handlers[h])
    decreases |more|
  {
    if more != [] {
      StepNeverRestarts(s, more[0], h);
      StepKeepsInv(s, more[0]);
      NeverRestarted(Apply(s, more[0]), more[1..], h);
    }
  }

  /** group.Stop never closes a closed stopCh, which would panic. */
  lemma StopChClosedOnce(run: seq<Action>, t: Tid, g: nat)
    requires IsRun(INIT, run)
    requires var s := Exec(INIT, run); t in s.threads && CanRetire(s, t, s.threads[t], StopGroup(g))
    ensures var s := Exec(INIT, run); !GroupAt(s, s.threads[t].h, g).stopCh
  {
    RunKeepsInv(INIT, run);
    var s := Exec(INIT, run);
    assert OwnerView(s.threads[t], s.handlers[s.threads[t].h]);
  }

  /** At every moment what was handed to Add is, in order and once each, the front of what the queue accepted. */
  lemma AddedInOrder(run: seq<Action>, h: Hid, g: nat)
    requires IsRun(INIT, run) && HasGroup(Exec(INIT, run), h, g)
    ensures var gr := GroupAt(Exec(INIT, run), h, g); gr.added <= gr.accepted && |gr.queue| <= QUEUE_CAP
  {
    RunKeepsInv(INIT, run);
  }

  lemma OwnedIsNotReturned(s: State, t: Tid)
    requires OwnInv(s) && t in s.threads && Owned(s.threads[t]).Some?
    ensures !s.handlers[Owned(s.threads[t]).value].stopReturned
  {
    assert OwnerView(s.threads[t], s.handlers[Owned(s.threads[t]).value]);
  }

  lemma ReturnedIsFinished(s: State, h: Hid)
    requires OwnInv(s) && h in s.handlers && s.handlers[h].stopReturned
    ensures Finished(s.handlers[h])
  {
    forall t | t in s.threads && Owned(s.threads[t]).Some?
      ensures !s.handlers[Owned(s.threads[t]).value].stopReturned
    {
      OwnedIsNotReturned(s, t);
    }
  }

  /**
   When stop() of a handler has returned, every task a wrapper-served request got into a queue of that handler has
   been handed to Add exactly once and in order.
   */
  lemma NoClientTaskLost(run: seq<Action>, h: Hid, g: nat)
    requires IsRun(INIT, run) && HasGroup(Exec(INIT, run), h, g) && Exec(INIT, run).handlers[h].stopReturned
    ensures var gr := GroupAt(Exec(INIT, run), h, g); ClientTasks(gr.added) == ClientTasks(gr.accepted)
  {
    RunKeepsInv(INIT, run);
    var s := Exec(INIT, run);
    var gr := GroupAt(s, h, g);
    ReturnedIsFinished(s, h);
    assert GroupInv(gr) && Held(gr.worker) == [] && Internal(gr.queue);
    assert gr.accepted == gr.added + gr.queue;
    ClientTasksConcat(gr.added, gr.queue);
    InternalHasNoClientTasks(gr.queue);
  }

  /** After Stop's swap no run publishes a handler again. */
  lemma {:induction false} StoppedStaysNil(s: State, more: seq<Action>)
    requires Inv(s) && IsRun(s, more) && s.stopped && s.ptr == None
    ensures Exec(s, more).stopped && Exec(s, more).ptr == None
    decreases |more|
  {
    if more != [] {
      StepStaysNil(s, more[0]);
      StepKeepsInv(s, more[0]);
      StoppedStaysNil(Apply(s, more[0]), more[1..]);
    }
  }

  lemma StepStaysNil(s: State, a: Action)
    requires LockInv(s) && FlagInv(s) && Enabled(s, a) && s.stopped && s.ptr == None
    ensures Apply(s, a).stopped && Apply(s, a).ptr == None
  {
    match a
    case Swapping(t, b) => assert b.Swap? ==> s.lifecycle == Some(t);
    case _ =>
  }

  ghost predicate Quiet(s: State) {
    forall t | t in s.threads :: s.threads[t].Done?
  }

  /** With every call returned, all handlers but the published one were stopped to the end; after Stop, all of them. */
  lemma QuietMeansStopped(run: seq<Action>)
    requires IsRun(INIT, run) && Quiet(Exec(INIT, run))
    ensures var s := Exec(INIT, run);
            && (forall h | h in s.handlers && s.ptr != Some(h) ::
                  s.handlers[h].stops == 1 && s.handlers[h].stopReturned)
            && (s.stopped ==> s.ptr == None)
  {
    RunKeepsInv(INIT, run);
  }

  // ------------------------------------------------------------------------------------------------
  // Freedom from deadlock

  /** A step of a call or goroutine already under way; a request is not counted on to post again. */
  predicate Progress(a: Action) {
    match a
    case Call(_, _) => false
    case Serving(_, b) => !b.Post?
    case OnGroup(_, _, b) => !b.InternalPost?
    case _ => true
  }

  lemma WorkerProgress(gr: Group) returns (a: GroupAct)
    requires GroupInv(gr) && gr.stopCh && !gr.stoppedCh
    ensures CanGroup(gr, a) && !a.InternalPost?
  {
    match gr.worker
    case Selecting => a := SeeStop;
    case Adding(_) => a := Add;
    case DrainAdding(_) => a := Add;
    case Draining => a := if gr.queue == [] then DrainExit else Take;
    case Exited => a := if gr.refreshing then RefreshExit else CloseStopped;
  }

  lemma ReaderProgress(s: State, t: Tid) returns (a: Action)
    requires Inv(s) && t in s.threads && HoldsRead(s.threads[t])
    ensures Progress(a) && Enabled(s, a)
  {
    var pc := s.threads[t];
    a := Serving(t, if pc.ServeLocked? then Load else if pc.ServeIn? && pc.tasks != [] then Enqueue else RUnlock);
  }

  lemma WriterProgress(s: State, t: Tid) returns (a: Action)
    requires Inv(s) && t in s.threads && HoldsWrite(s.threads[t])
    ensures Progress(a) && Enabled(s, a)
  {
    var pc := s.threads[t];
    if pc.SwapAnnounced? && s.readers != {} {
      var u :| u in s.readers;
      a := ReaderProgress(s, u);
    } else {
      a := Swapping(t, if pc.SwapAnnounced? then AcquireDrain else if pc.SwapWriting? then Swap else UnlockDrain);
    }
  }

  lemma LifecycleProgress(s: State, t: Tid) returns (a: Action)
    requires Inv(s) && t in s.threads && HoldsLifecycle(s.threads[t])
    ensures Progress(a) && Enabled(s, a)
  {
    var pc := s.threads[t];
    if HoldsWrite(pc) {
      a := WriterProgress(s, t);
    } else if pc.SwapWanted? {
      assert s.drainWriter == None;
      a := Swapping(t, AnnounceDrain);
    } else if pc.Unlocking? {
      a := Swapping(t, UnlockLifecycle);
    } else if pc.Starting? && pc.todo != {} {
      var g :| g in pc.todo;
      assert OwnerView(pc, s.handlers[pc.h]);
      a := Admitting(t, StartGroup(g));
    } else if pc.Starting? {
      a := Admitting(t, StartDone);
    } else {
      a := Admitting(t, if pc.Rejecting? || pc.StopReturning? then UnlockReject else CheckStopped);
    }
  }

  lemma StopperProgress(s: State, t: Tid) returns (a: Action)
    requires Inv(s) && t in s.threads && (s.threads[t].Stopping? || s.threads[t].Awaiting?)
    ensures Progress(a) && Enabled(s, a)
  {
    var pc := s.threads[t];
    assert OwnerView(pc, s.handlers[pc.h]);
    if pc.Awaiting? {
      var gr := GroupAt(s, pc.h, pc.g);
      if gr.stoppedCh {
        a := Retiring(t, AwaitStopped);
      } else {
        var b := WorkerProgress(gr);
        a := OnGroup(pc.h, pc.g, b);
      }
    } else if pc.todo != {} {
      var g :| g in pc.todo;
      a := Retiring(t, StopGroup(g));
    } else {
      a := Retiring(t, StopDone);
    }
  }

  /** No reachable state with an unreturned call is stuck: something already under way can move. */
  lemma NoDeadlock(run: seq<Action>, t: Tid) returns (a: Action)
    requires IsRun(INIT, run) && t in Exec(INIT, run).threads && !Exec(INIT, run).threads[t].Done?
    ensures Progress(a) && Enabled(Exec(INIT, run), a)
  {
    RunKeepsInv(INIT, run);
    var s := Exec(INIT, run);
    var pc := s.threads[t];
    if HoldsRead(pc) {
      a := ReaderProgress(s, t);
    } else if HoldsLifecycle(pc) {
      a := LifecycleProgress(s, t);
    } else if pc.Stopping? || pc.Awaiting? {
      a := StopperProgress(s, t);
    } else if pc.ServeStart? {
      if s.drainWriter.Some? {
        a := WriterProgress(s, s.drainWriter.value);
      } else {
        a := Serving(t, RLock);
      }
    } else if pc.ReloadStart? {
      a := Admitting(t, BuildFails);
    } else if s.lifecycle.Some? {
      a := LifecycleProgress(s, s.lifecycle.value);
    } else {
      a := Admitting(t, LockLifecycle);
    }
  }

  // ------------------------------------------------------------------------------------------------
  // Why NoClientTaskLost speaks of client tasks only

  ghost predicate Reachable(s: State) {
    exists run :: IsRun(INIT, run) && Exec(INIT, run) == s
  }

  lemma {:induction false} ExecThen(s: State, run: seq<Action>, a: Action)
    requires IsRun(s, run) && Enabled(Exec(s, run), a)
    ensures IsRun(s, run + [a]) && Exec(s, run + [a]) == Apply(Exec(s, run), a)
    decreases |run|
  {
    if run == [] {
      assert run + [a] == [a];
      assert [a][1..] == [];
    } else {
      assert (run + [a])[0] == run[0] && (run + [a])[1..] == run[1..] + [a];
      ExecThen(Apply(s, run[0]), run[1..], a);
    }
  }

  lemma Go(s: State, a: Action) returns (s': State)
    requires Reachable(s) && Enabled(s, a)
    ensures s' == Apply(s, a) && Reachable(s')
  {
    var run :| IsRun(INIT, run) && Exec(INIT, run) == s;
    ExecThen(INIT, run, a);
    s' := Apply(s, a);
  }

  /** Call t is at pc and every other call has returned; handler 0 has the one group gr. */
  ghost predicate Looks(s: State, t: Tid, pc: PC, gr: Group, lock: Option<Tid>, ptr: Option<Hid>, stopped: bool) {
    && Reachable(s)
    && t in s.threads && s.threads[t] == pc && (forall u | u in s.threads && u != t :: s.threads[u].Done?)
    && 0 in s.handlers && s.handlers[0].groups == [gr]
    && s.lifecycle == lock && s.ptr == ptr && s.stopped == stopped
    && s.readers == {} && (pc.SwapAnnounced? || pc.SwapWriting? || pc.Swapped? || s.drainWriter == None)
  }

  const STARTED := Group(true, false, false, [], false, false, Selecting, [], [])

  lemma ReachBuilt() returns (s: State)
    ensures Looks(s, 0, ReloadLocked(0), NewGroup(false), Some(0), None, false) && s.threads.Keys == {0}
  {
    assert IsRun(INIT, []) && Exec(INIT, []) == INIT;
    s := Go(INIT, Call(0, ReloadConfig));
    s := Go(s, Admitting(0, Build(0, [false])));
    assert NewHandler([false]).groups == [NewGroup(false)];
    s := Go(s, Admitting(0, LockLifecycle));
  }

  lemma ReachStarted() returns (s: State)
    ensures Looks(s, 0, Starting(0, {}), STARTED, Some(0), None, false) && s.threads.Keys == {0}
  {
    s := ReachBuilt();
    s := Go(s, Admitting(0, CheckStopped));
    assert s.threads[0] == Starting(0, {0}) by {
      assert Below(1) == {0};
    }
    s := Go(s, Admitting(0, StartGroup(0)));
    assert s.handlers[0].groups == [STARTED];
    assert s.threads[0] == Starting(0, {});
  }

  /** The pointer swap, from the wish for it to the unlocked write lock. */
  lemma ReachSwapped(s0: State, t: Tid, next: Option<Hid>, gr: Group, ptr: Option<Hid>, stopped: bool)
    returns (s: State)
    requires Looks(s0, t, SwapWanted(next), gr, Some(t), ptr, stopped)
    ensures Looks(s, t, Unlocking(ptr), gr, Some(t), next, stopped) && s.threads.Keys == s0.threads.Keys
  {
    s := Go(s0, Swapping(t, AnnounceDrain));
    s := Go(s, Swapping(t, AcquireDrain));
    s := Go(s, Swapping(t, Swap));
    s := Go(s, Swapping(t, UnlockDrain));
  }

  lemma ReachLive() returns (s: State)
    ensures Looks(s, 0, Done, STARTED, None, Some(0), false) && s.threads.Keys == {0}
  {
    s := ReachStarted();
    s := Go(s, Admitting(0, StartDone));
    s := ReachSwapped(s, 0, Some(0), STARTED, None, false);
    s := Go(s, Swapping(0, UnlockLifecycle));
  }

  lemma ReachStopWanted() returns (s: State)
    ensures Looks(s, 1, SwapWanted(None), STARTED, Some(1), Some(0), true)
  {
    s := ReachLive();
    s := Go(s, Call(1, Stop));
    s := Go(s, Admitting(1, LockLifecycle));
    s := Go(s, Admitting(1, CheckStopped));
  }

  lemma ReachStopping() returns (s: State)
    ensures Looks(s, 1, Stopping(0, {0}), STARTED, None, None, true)
  {
    s := ReachStopWanted();
    s := ReachSwapped(s, 1, None, STARTED, Some(0), true);
    s := Go(s, Swapping(1, UnlockLifecycle));
    assert Below(1) == {0};
  }

  lemma ReachGroup(s0: State, pc: PC, gr: Group, a: GroupAct) returns (s: State)
    requires Looks(s0, 1, pc, gr, None, None, true) && CanGroup(gr, a) && gr.started
    ensures Looks(s, 1, pc, GroupStep(gr, a), None, None, true)
  {
    assert GroupAt(s0, 0, 0) == gr && s0.handlers[0].groups[0].started;
    s := Go(s0, OnGroup(0, 0, a));
    assert s.handlers[0].groups == [GroupStep(gr, a)];
  }

  lemma ReachAwaiting() returns (s: State)
    ensures Looks(s, 1, Awaiting(0, 0, {}), STARTED.(stopCh := true), None, None, true)
  {
    s := ReachStopping();
    assert GroupAt(s, 0, 0) == STARTED;
    s := Go(s, Retiring(1, StopGroup(0)));
    assert s.handlers[0].groups == [STARTED.(stopCh := true)];
    assert s.threads[1] == Awaiting(0, 0, {});
  }

  /**
   A task queued by a resolution that bypasses the wrapper can be accepted after the worker has left, and then no
   Add ever sees it although Stop has returned.
   */
  lemma InternalTaskCanBeLost(task: Task) returns (s: State)
    requires !task.client
    ensures Reachable(s) && Quiet(s) && s.stopped && HasGroup(s, 0, 0) && s.handlers[0].stopReturned
    ensures GroupAt(s, 0, 0).accepted == [task] && GroupAt(s, 0, 0).added == [] && GroupAt(s, 0, 0).stoppedCh
  {
    s := ReachAwaiting();
    var pc := Awaiting(0, 0, {});
    var gr := STARTED.(stopCh := true);
    s := ReachGroup(s, pc, gr, SeeStop);
    s := ReachGroup(s, pc, gr.(worker := Draining), DrainExit);
    gr := gr.(worker := Exited);
    s := ReachGroup(s, pc, gr, InternalPost(task));
    s := ReachGroup(s, pc, Put(gr, task), CloseStopped);
    gr := Put(gr, task).(stoppedCh := true);
    assert GroupAt(s, 0, 0) == gr;
    s := Go(s, Retiring(1, AwaitStopped));
    s := Go(s, Retiring(1, StopDone));
    assert GroupAt(s, 0, 0) == gr;
  }
}
