/** Which tasks a group's worker hands to Add: an exact answer for every task, whoever queued it. */
module LifecycleTasks {
  import opened Options
  import opened Lifecycle
  import opened LifecycleInvariant
  import opened LifecycleSafety

  /** later is what group gr can have become: its lists grow, and from the worker's exit on nothing more is added. */
  ghost predicate Grows(gr: Group, later: Group) {
    && gr.accepted <= later.accepted && gr.added <= later.added && (gr.started ==> later.started)
    && (gr.worker.Exited? ==> later.worker.Exited? && later.added == gr.added)
    && (!gr.worker.Exited? && later.worker.Exited? ==> |gr.accepted| <= |later.added|)
  }

  lemma GrowsFurther(a: Group, b: Group, c: Group)
    requires Grows(a, b) && Grows(b, c)
    ensures Grows(a, c)
  {
  }

  lemma GroupStepGrows(gr: Group, a: GroupAct)
    requires GroupInv(gr) && CanGroup(gr, a)
    ensures Grows(gr, GroupStep(gr, a))
  {
  }

  lemma PutGrows(gr: Group, task: Task)
    ensures Grows(gr, Put(gr, task))
  {
  }

  ghost predicate GrowsAt(s: State, s': State, h: Hid, g: nat) {
    HasGroup(s, h, g) ==> HasGroup(s', h, g) && Grows(GroupAt(s, h, g), GroupAt(s', h, g))
  }

  lemma ServeGrows(s: State, t: Tid, a: ServeAct, h: Hid, g: nat)
    requires t in s.threads && CanServe(s, t, s.threads[t], a)
    ensures GrowsAt(s, Serve(s, t, s.threads[t], a), h, g)
  {
    if a.Enqueue? {
      PutGrows(GroupAt(s, s.threads[t].h, s.threads[t].g), s.threads[t].tasks[0]);
    }
  }

  /** Only a group that was never started is started. */
  lemma StartGrows(s: State, t: Tid, j: nat, h: Hid, g: nat)
    requires OwnInv(s) && GroupsInv(s) && t in s.threads && CanAdmit(s, t, s.threads[t], StartGroup(j))
    ensures GrowsAt(s, Admit(s, t, s.threads[t], StartGroup(j)), h, g)
  {
    var pc := s.threads[t];
    assert OwnerView(pc, s.handlers[pc.h]);
    assert GroupInv(GroupAt(s, pc.h, j));
  }

  lemma AdmitGrows(s: State, t: Tid, a: AdmitAct, h: Hid, g: nat)
    requires OwnInv(s) && GroupsInv(s) && t in s.threads && CanAdmit(s, t, s.threads[t], a)
    ensures GrowsAt(s, Admit(s, t, s.threads[t], a), h, g)
  {
    if a.StartGroup? {
      StartGrows(s, t, a.g, h, g);
    } else {
      GroupsStay(s, Admit(s, t, s.threads[t], a), h, g, t, a);
    }
  }

  lemma GroupsStay(s: State, s': State, h: Hid, g: nat, t: Tid, a: AdmitAct)
    requires t in s.threads && CanAdmit(s, t, s.threads[t], a) && !a.StartGroup? && s' == Admit(s, t, s.threads[t], a)
    ensures HasGroup(s, h, g) ==> HasGroup(s', h, g) && GroupAt(s', h, g) == GroupAt(s, h, g)
  {
  }

  lemma RetireGrows(s: State, t: Tid, a: StopAct, h: Hid, g: nat)
    requires t in s.threads && CanRetire(s, t, s.threads[t], a)
    ensures GrowsAt(s, Retire(s, t, s.threads[t], a), h, g)
  {
  }

  lemma SwapGrows(s: State, t: Tid, a: SwapAct, h: Hid, g: nat)
    requires t in s.threads && CanSwap(s, t, s.threads[t], a)
    ensures GrowsAt(s, SwapStep(s, t, s.threads[t], a), h, g)
  {
  }

  lemma OwnActGrows(s: State, k: Hid, j: nat, a: GroupAct, h: Hid, g: nat)
    requires GroupsInv(s) && HasGroup(s, k, j) && CanGroup(GroupAt(s, k, j), a)
    ensures GrowsAt(s, SetGroup(s, k, j, GroupStep(GroupAt(s, k, j), a)), h, g)
  {
    assert GroupInv(GroupAt(s, k, j));
    GroupStepGrows(GroupAt(s, k, j), a);
  }

  lemma StepGrows(s: State, a: Action, h: Hid, g: nat)
    requires Inv(s) && Enabled(s, a)
    ensures GrowsAt(s, Apply(s, a), h, g)
  {
    match a
    case OnGroup(k, j, b) => OwnActGrows(s, k, j, b, h, g);
    case Call(_, _) =>
    case Serving(t, b) => ServeGrows(s, t, b, h, g);
    case Admitting(t, b) => AdmitGrows(s, t, b, h, g);
    case Swapping(t, b) => SwapGrows(s, t, b, h, g);
    case Retiring(t, b) => RetireGrows(s, t, b, h, g);
  }

  lemma {:induction false} RunGrows(s: State, more: seq<Action>, h: Hid, g: nat)
    requires Inv(s) && IsRun(s, more) && HasGroup(s, h, g)
    ensures HasGroup(Exec(s, more), h, g) && Grows(GroupAt(s, h, g), GroupAt(Exec(s, more), h, g))
    decreases |more|
  {
    if more != [] {
      var s' := Apply(s, more[0]);
      StepGrows(s, more[0], h, g);
      StepKeepsInv(s, more[0]);
      RunGrows(s', more[1..], h, g);
      GrowsFurther(GroupAt(s, h, g), GroupAt(s', h, g), GroupAt(Exec(s, more), h, g));
    }
  }

  /** Action a puts a task into the queue of group g of handler h. */
  ghost predicate Queues(s: State, a: Action, h: Hid, g: nat, task: Task) {
    && HasGroup(s, h, g) && Enabled(s, a) && HasGroup(Apply(s, a), h, g)
    && GroupAt(Apply(s, a), h, g).accepted == GroupAt(s, h, g).accepted + [task]
  }

  lemma ServeQueues(s: State, t: Tid, a: ServeAct, h: Hid, g: nat)
    requires t in s.threads && CanServe(s, t, s.threads[t], a) && HasGroup(s, h, g)
    requires GroupAt(Serve(s, t, s.threads[t], a), h, g).accepted != GroupAt(s, h, g).accepted
    ensures a.Enqueue? && s.threads[t].ServeIn? && s.threads[t].h == h
    ensures GroupAt(Serve(s, t, s.threads[t], a), h, g).worker == GroupAt(s, h, g).worker
  {
  }

  lemma AdmitAccepts(s: State, t: Tid, a: AdmitAct, h: Hid, g: nat)
    requires t in s.threads && CanAdmit(s, t, s.threads[t], a) && HasGroup(s, h, g)
    ensures HasGroup(Admit(s, t, s.threads[t], a), h, g)
    ensures GroupAt(Admit(s, t, s.threads[t], a), h, g).accepted == GroupAt(s, h, g).accepted
  {
  }

  lemma SwapAccepts(s: State, t: Tid, a: SwapAct, h: Hid, g: nat)
    requires t in s.threads && CanSwap(s, t, s.threads[t], a) && HasGroup(s, h, g)
    ensures HasGroup(SwapStep(s, t, s.threads[t], a), h, g)
    ensures GroupAt(SwapStep(s, t, s.threads[t], a), h, g).accepted == GroupAt(s, h, g).accepted
  {
  }

  lemma RetireAccepts(s: State, t: Tid, a: StopAct, h: Hid, g: nat)
    requires t in s.threads && CanRetire(s, t, s.threads[t], a) && HasGroup(s, h, g)
    ensures HasGroup(Retire(s, t, s.threads[t], a), h, g)
    ensures GroupAt(Retire(s, t, s.threads[t], a), h, g).accepted == GroupAt(s, h, g).accepted
  {
  }

  lemma GroupAccepts(gr: Group, a: GroupAct)
    requires CanGroup(gr, a) && GroupStep(gr, a).accepted != gr.accepted
    ensures a.InternalPost? && GroupStep(gr, a).worker == gr.worker
  {
  }

  /** Only requests queue tasks: clients' in the published handler, and others once some group of theirs was started. */
  lemma QueuesOnly(s: State, a: Action, h: Hid, g: nat, task: Task)
    requires OwnInv(s) && ServeInv(s) && Queues(s, a, h, g, task)
    ensures GroupAt(Apply(s, a), h, g).worker == GroupAt(s, h, g).worker
    ensures SomeStarted(s.handlers[h])
  {
    assert |GroupAt(Apply(s, a), h, g).accepted| == |GroupAt(s, h, g).accepted| + 1;
    match a
    case OnGroup(k, j, b) => GroupAccepts(GroupAt(s, k, j), b);
    case Call(_, _) =>
    case Serving(t, b) =>
      ServeQueues(s, t, b, h, g);
      assert s.handlers[h].groups[g].started;
    case Admitting(t, b) => AdmitAccepts(s, t, b, h, g);
    case Swapping(t, b) => SwapAccepts(s, t, b, h, g);
    case Retiring(t, b) => RetireAccepts(s, t, b, h, g);
  }

  /** Once some group of a handler was started, all of them were when its stop has returned. */
  lemma StartedAtEnd(s: State, more: seq<Action>, h: Hid, g: nat)
    requires Inv(s) && IsRun(s, more) && HasGroup(s, h, g) && SomeStarted(s.handlers[h])
    requires var end := Exec(s, more); h in end.handlers && end.handlers[h].stopReturned
    ensures HasGroup(Exec(s, more), h, g) && GroupAt(Exec(s, more), h, g).started
  {
    var j :| 0 <= j < |s.handlers[h].groups| && s.handlers[h].groups[j].started;
    RunGrows(s, more, h, j);
    RunGrows(s, more, h, g);
    RunKeepsInv(s, more);
    ReturnedIsFinished(Exec(s, more), h);
  }

  /**
   When stop() of its handler has returned, a queued task has been handed to Add, in its turn, if and only if the worker
   of its group had not left when it was queued.
   */
  lemma TaskAddedIff(run: seq<Action>, a: Action, more: seq<Action>, h: Hid, g: nat, task: Task)
    requires IsRun(INIT, run) && Queues(Exec(INIT, run), a, h, g, task) && IsRun(Apply(Exec(INIT, run), a), more)
    requires var end := Exec(Apply(Exec(INIT, run), a), more); h in end.handlers && end.handlers[h].stopReturned
    ensures var s, end := Exec(INIT, run), Exec(Apply(Exec(INIT, run), a), more);
            var turn := |GroupAt(s, h, g).accepted|;
            && HasGroup(end, h, g)
            && (turn < |GroupAt(end, h, g).added| <==> !GroupAt(s, h, g).worker.Exited?)
            && (turn < |GroupAt(end, h, g).added| ==> GroupAt(end, h, g).added[turn] == task)
  {
    var s := Exec(INIT, run);
    RunKeepsInv(INIT, run);
    QueuesOnly(s, a, h, g, task);
    StepKeepsInv(s, a);
    var s' := Apply(s, a);
    StepGrows(s, a, h, g);
    StaysStarted(s, a, h);
    RunGrows(s', more, h, g);
    StartedAtEnd(s', more, h, g);
    RunKeepsInv(s', more);
    var end := Exec(s', more);
    ReturnedIsFinished(end, h);
    Accounted(s, h, g);
    Accounted(end, h, g);
    LandsInTurn(GroupAt(s, h, g), GroupAt(s', h, g), GroupAt(end, h, g), task);
  }

  lemma StaysStarted(s: State, a: Action, h: Hid)
    requires Inv(s) && Enabled(s, a) && h in s.handlers && SomeStarted(s.handlers[h])
    ensures h in Apply(s, a).handlers && SomeStarted(Apply(s, a).handlers[h])
  {
    var j :| 0 <= j < |s.handlers[h].groups| && s.handlers[h].groups[j].started;
    StepGrows(s, a, h, j);
    assert GroupAt(Apply(s, a), h, j).started;
  }

  lemma Accounted(s: State, h: Hid, g: nat)
    requires GroupsInv(s) && HasGroup(s, h, g)
    ensures GroupInv(GroupAt(s, h, g))
  {
  }

  lemma LandsInTurn(gr: Group, queued: Group, end: Group, task: Task)
    requires GroupInv(gr) && GroupInv(end) && queued.worker == gr.worker && queued.accepted == gr.accepted + [task]
    requires Grows(gr, queued) && Grows(queued, end) && end.started && end.stoppedCh
    ensures var turn := |gr.accepted|;
            && (turn < |end.added| <==> !gr.worker.Exited?)
            && (turn < |end.added| ==> end.added[turn] == task)
  {
    assert end.added <= end.accepted;
    assert gr.added <= gr.accepted;
    if |gr.accepted| < |end.added| {
      assert end.added[|gr.accepted|] == end.accepted[|gr.accepted|] == queued.accepted[|gr.accepted|];
    }
  }

  /** A client's task is never queued too late, so it is always among them. */
  lemma ClientTaskIsAdded(run: seq<Action>, a: Action, more: seq<Action>, h: Hid, g: nat, task: Task)
    requires IsRun(INIT, run) && Queues(Exec(INIT, run), a, h, g, task) && IsRun(Apply(Exec(INIT, run), a), more)
    requires var end := Exec(Apply(Exec(INIT, run), a), more); h in end.handlers && end.handlers[h].stopReturned
    requires task.client
    ensures var turn, end := |GroupAt(Exec(INIT, run), h, g).accepted|, Exec(Apply(Exec(INIT, run), a), more);
            HasGroup(end, h, g) && turn < |GroupAt(end, h, g).added| && GroupAt(end, h, g).added[turn] == task
  {
    var s := Exec(INIT, run);
    var s' := Apply(s, a);
    RunKeepsInv(INIT, run);
    QueuesOnly(s, a, h, g, task);
    StepKeepsInv(s, a);
    StepGrows(s, a, h, g);
    Accounted(s, h, g);
    Accounted(s', h, g);
    ClientInTime(GroupAt(s, h, g), GroupAt(s', h, g), task);
    TaskAddedIff(run, a, more, h, g, task);
  }

  lemma QueuedLate(gr: Group, queued: Group, task: Task)
    requires GroupInv(gr) && GroupInv(queued) && Grows(gr, queued) && queued.worker == gr.worker
    requires queued.accepted == gr.accepted + [task]
    ensures gr.worker.Exited? ==> task in queued.queue
  {
    if gr.worker.Exited? {
      assert queued.accepted == queued.added + queued.queue && gr.accepted == gr.added + gr.queue;
      assert queued.accepted[|gr.accepted|] == queued.queue[|gr.queue|];
    }
  }

  lemma ClientInTime(gr: Group, queued: Group, task: Task)
    requires GroupInv(gr) && GroupInv(queued) && Grows(gr, queued) && queued.worker == gr.worker
    requires queued.accepted == gr.accepted + [task] && task.client
    ensures !gr.worker.Exited?
  {
    QueuedLate(gr, queued, task);
  }
}
