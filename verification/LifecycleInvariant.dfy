/**
 The inductive invariant of the lifecycle: who holds which lock, who answers for which handler, and what every
 group's queue conserves; and the proof that every step keeps it.
 */
module LifecycleInvariant {
  import opened Options
  import opened Lifecycle

  // ------------------------------------------------------------------------------------------------
  // The invariant

  predicate HoldsLifecycle(pc: PC) {
    || pc.ReloadLocked? || pc.Rejecting? || pc.Starting? || pc.StopLocked? || pc.StopReturning?
    || pc.SwapWanted? || pc.SwapAnnounced? || pc.SwapWriting? || pc.Swapped? || pc.Unlocking?
  }

  predicate HoldsRead(pc: PC) {
    pc.ServeLocked? || pc.ServeIn? || pc.ServeNil?
  }

  predicate HoldsWrite(pc: PC) {
    pc.SwapAnnounced? || pc.SwapWriting? || pc.Swapped?
  }

  /** The handler a call alone is responsible for: the new one until the swap, the old one after it. */
  function Owned(pc: PC): Option<Hid> {
    match pc
    case ReloadBuilt(h) => Some(h)
    case ReloadLocked(h) => Some(h)
    case Rejecting(h) => Some(h)
    case Starting(h, _) => Some(h)
    case SwapWanted(next) => next
    case SwapAnnounced(next) => next
    case SwapWriting(next) => next
    case Swapped(prev) => prev
    case Unlocking(prev) => prev
    case Stopping(h, _) => Some(h)
    case Awaiting(h, _, _) => Some(h)
    case _ => None
  }

  ghost predicate Fresh(hd: Handler) {
    && hd.starts == 0 && hd.stops == 0 && !hd.stopReturned
    && forall g | 0 <= g < |hd.groups| :: !hd.groups[g].started && !hd.groups[g].stopCh
  }

  ghost predicate Running(hd: Handler) {
    && hd.starts == 1 && hd.stops == 0 && !hd.stopReturned
    && forall g | 0 <= g < |hd.groups| :: hd.groups[g].started && !hd.groups[g].stopCh
  }

  ghost predicate HalfStarted(hd: Handler, todo: set<nat>) {
    && hd.starts == 1 && hd.stops == 0 && !hd.stopReturned
    && todo <= All(hd)
    && (forall g | 0 <= g < |hd.groups| :: !hd.groups[g].stopCh)
    && (forall g | 0 <= g < |hd.groups| && g !in todo :: hd.groups[g].started)
    && (forall g | 0 <= g < |hd.groups| && g in todo :: !hd.groups[g].started)
  }

  /** start() starts every group or was never called. */
  ghost predicate AllOrNone(hd: Handler) {
    forall g | 0 <= g < |hd.groups| :: hd.groups[g].started <==> hd.starts == 1
  }

  /** A handler under stop(): the groups in todo are untouched, the others have finished. */
  ghost predicate HalfStopped(hd: Handler, todo: set<nat>, but: set<nat>) {
    && hd.starts <= 1 && hd.stops == 1 && !hd.stopReturned && AllOrNone(hd)
    && todo <= All(hd)
    && (forall g | 0 <= g < |hd.groups| && g in todo :: !hd.groups[g].stopCh)
    && (forall g | 0 <= g < |hd.groups| && g !in todo && g !in but && hd.groups[g].started :: hd.groups[g].stoppedCh)
  }

  ghost predicate Finished(hd: Handler) {
    && hd.starts <= 1 && hd.stops == 1 && hd.stopReturned && AllOrNone(hd)
    && forall g | 0 <= g < |hd.groups| && hd.groups[g].started :: hd.groups[g].stoppedCh
  }

  /** What a call may rely on about the handler it owns. */
  ghost predicate OwnerView(pc: PC, hd: Handler) {
    match pc
    case ReloadBuilt(_) => Fresh(hd)
    case ReloadLocked(_) => Fresh(hd)
    case Rejecting(_) => Fresh(hd)
    case Starting(_, todo) => HalfStarted(hd, todo)
    case Stopping(_, todo) => HalfStopped(hd, todo, {})
    case Awaiting(_, g, todo) =>
      HalfStopped(hd, todo, {g}) && g !in todo && g < |hd.groups| && hd.groups[g].started && hd.groups[g].stopCh
    case _ => Running(hd)
  }

  function Held(w: Worker): seq<Task> {
    if w.Adding? || w.DrainAdding? then [w.task] else []
  }

  ghost predicate Internal(tasks: seq<Task>) {
    forall i | 0 <= i < |tasks| :: !tasks[i].client
  }

  /** Conservation: what the queue took is what was added, then what the worker holds, then what still waits. */
  ghost predicate GroupInv(gr: Group) {
    && gr.accepted == gr.added + Held(gr.worker) + gr.queue
    && |gr.queue| <= QUEUE_CAP
    && (gr.started <==> !gr.worker.NotStarted?)
    && (!gr.started ==> Internal(gr.queue) && gr.added == [])
    && (gr.worker.Draining? || gr.worker.DrainAdding? || gr.worker.Exited? ==> gr.stopCh)
    && (gr.stopCh ==> gr.started)
    && (gr.stoppedCh ==> gr.worker.Exited? && !gr.refreshing)
    && (if gr.started then gr.stopCh || gr.refreshing == gr.url else !gr.refreshing)
    && (gr.worker.Exited? ==> Internal(gr.queue))
  }

  ghost predicate LifecycleInv(lock: Option<Tid>, threads: map<Tid, PC>) {
    && (lock.Some? ==> lock.value in threads && HoldsLifecycle(threads[lock.value]))
    && (forall t | t in threads && HoldsLifecycle(threads[t]) :: lock == Some(t))
  }

  ghost predicate WriterInv(lock: Option<Tid>, threads: map<Tid, PC>) {
    && (lock.Some? ==> lock.value in threads && HoldsWrite(threads[lock.value]))
    && (forall t | t in threads && HoldsWrite(threads[t]) :: lock == Some(t))
  }

  ghost predicate ReadersInv(readers: set<Tid>, threads: map<Tid, PC>) {
    && (forall t | t in readers :: t in threads && HoldsRead(threads[t]))
    && (forall t | t in threads && HoldsRead(threads[t]) :: t in readers)
  }

  ghost predicate ExclusionInv(s: State) {
    forall t | t in s.threads && (s.threads[t].SwapWriting? || s.threads[t].Swapped?) :: s.readers == {}
  }

  ghost predicate LockInv(s: State) {
    && LifecycleInv(s.lifecycle, s.threads)
    && WriterInv(s.drainWriter, s.threads)
    && ReadersInv(s.readers, s.threads)
    && ExclusionInv(s)
  }

  ghost predicate PublishedRuns(ptr: Option<Hid>, handlers: map<Hid, Handler>) {
    ptr.Some? ==> ptr.value in handlers && Running(handlers[ptr.value])
  }

  ghost predicate OwnersSee(ptr: Option<Hid>, handlers: map<Hid, Handler>, threads: map<Tid, PC>) {
    forall t | t in threads && Owned(threads[t]).Some? ::
      && Owned(threads[t]) != ptr
      && Owned(threads[t]).value in handlers
      && OwnerView(threads[t], handlers[Owned(threads[t]).value])
  }

  ghost predicate OwnersApart(threads: map<Tid, PC>) {
    forall t, u | t in threads && u in threads && t != u && Owned(threads[t]).Some? ::
      Owned(threads[t]) != Owned(threads[u])
  }

  ghost predicate IsOwned(threads: map<Tid, PC>, h: Hid) {
    exists t :: t in threads && Owned(threads[t]) == Some(h)
  }

  ghost predicate AllAccounted(ptr: Option<Hid>, handlers: map<Hid, Handler>, threads: map<Tid, PC>) {
    forall h | h in handlers :: ptr == Some(h) || Finished(handlers[h]) || IsOwned(threads, h)
  }

  /** Every handler is published, or owned by exactly one call, or has been stopped to the end. */
  ghost predicate Ownership(ptr: Option<Hid>, handlers: map<Hid, Handler>, threads: map<Tid, PC>) {
    && PublishedRuns(ptr, handlers) && OwnersSee(ptr, handlers, threads) && OwnersApart(threads)
    && AllAccounted(ptr, handlers, threads)
  }

  ghost predicate OwnInv(s: State) {
    Ownership(s.ptr, s.handlers, s.threads)
  }

  ghost predicate ServeInv(s: State) {
    forall t | t in s.threads && s.threads[t].ServeIn? ::
      && s.ptr == Some(s.threads[t].h)
      && (s.threads[t].tasks != [] ==> HasGroup(s, s.threads[t].h, s.threads[t].g))
      && (forall task | task in s.threads[t].tasks :: task.client)
  }

  predicate SwapsTo(pc: PC, next: bool) {
    (pc.SwapWanted? || pc.SwapAnnounced? || pc.SwapWriting?) && pc.next.Some? == next
  }

  /** `stopped` against what the holder of lifecycleMu is doing; the pointer outlives the flag only until the swap. */
  ghost predicate FlagInv(s: State) {
    var holder := if s.lifecycle.Some? && s.lifecycle.value in s.threads then s.threads[s.lifecycle.value] else Done;
    && (holder.Starting? || SwapsTo(holder, true) ==> !s.stopped)
    && (holder.Rejecting? || holder.StopReturning? || SwapsTo(holder, false) ==> s.stopped)
    && (s.stopped && s.ptr.Some? ==> SwapsTo(holder, false))
  }

  ghost predicate GroupsInv(s: State) {
    forall h: Hid, g: nat | HasGroup(s, h, g) :: GroupInv(s.handlers[h].groups[g])
  }

  ghost predicate Inv(s: State) {
    LockInv(s) && OwnInv(s) && ServeInv(s) && FlagInv(s) && GroupsInv(s)
  }

  // ------------------------------------------------------------------------------------------------
  // Every step keeps the invariant

  /** Which lock, if any, a call that moves to pc holds afterwards. */
  function Relock(t: Tid, lock: Option<Tid>, had: bool, has: bool): Option<Tid> {
    if has then Some(t) else if had then None else lock
  }

  lemma LifecycleMove(lock: Option<Tid>, threads: map<Tid, PC>, t: Tid, pc: PC)
    requires LifecycleInv(lock, threads)
    requires HoldsLifecycle(pc) ==> lock == None || lock == Some(t)
    ensures LifecycleInv(
              Relock(t, lock, t in threads && HoldsLifecycle(threads[t]), HoldsLifecycle(pc)), threads[t := pc])
  {
  }

  lemma WriterMove(lock: Option<Tid>, threads: map<Tid, PC>, t: Tid, pc: PC)
    requires WriterInv(lock, threads)
    requires HoldsWrite(pc) ==> lock == None || lock == Some(t)
    ensures WriterInv(Relock(t, lock, t in threads && HoldsWrite(threads[t]), HoldsWrite(pc)), threads[t := pc])
  {
  }

  lemma ReadersMove(readers: set<Tid>, threads: map<Tid, PC>, t: Tid, pc: PC)
    requires ReadersInv(readers, threads)
    ensures ReadersInv(if HoldsRead(pc) then readers + {t} else readers - {t}, threads[t := pc])
  {
  }


  lemma LockMove(s: State, t: Tid, s': State)
    requires LockInv(s) && t in s'.threads && s'.threads == s.threads[t := s'.threads[t]]
    requires HoldsLifecycle(s'.threads[t]) ==> s.lifecycle == None || s.lifecycle == Some(t)
    requires HoldsWrite(s'.threads[t]) ==> s.drainWriter == None || s.drainWriter == Some(t)
    requires s'.lifecycle
          == Relock(t, s.lifecycle, t in s.threads && HoldsLifecycle(s.threads[t]), HoldsLifecycle(s'.threads[t]))
    requires s'.drainWriter == Relock(
               t, s.drainWriter, t in s.threads && HoldsWrite(s.threads[t]), HoldsWrite(s'.threads[t]))
    requires s'.readers == if HoldsRead(s'.threads[t]) then s.readers + {t} else s.readers - {t}
    requires s'.threads[t].SwapWriting? || s'.threads[t].Swapped? ==> s.readers == {}
    requires HoldsRead(s'.threads[t]) && !(t in s.threads && HoldsRead(s.threads[t])) ==> s.drainWriter == None
    ensures LockInv(s')
  {
    LifecycleMove(s.lifecycle, s.threads, t, s'.threads[t]);
    WriterMove(s.drainWriter, s.threads, t, s'.threads[t]);
    ReadersMove(s.readers, s.threads, t, s'.threads[t]);
  }

  lemma LockStep(s: State, a: Action)
    requires LockInv(s) && Enabled(s, a)
    ensures LockInv(Apply(s, a))
  {
    match a
    case OnGroup(h, g, b) =>
    case Call(t, op) => LockMove(s, t, SetPC(s, t, FirstPC(op)));
    case Serving(t, b) => ServeLocks(s, t, b);
    case Admitting(t, b) => AdmitLocks(s, t, b);
    case Swapping(t, b) => SwapLocks(s, t, b);
    case Retiring(t, b) => RetireLocks(s, t, b);
  }

  lemma ServeLocks(s: State, t: Tid, a: ServeAct)
    requires LockInv(s) && t in s.threads && CanServe(s, t, s.threads[t], a)
    ensures LockInv(Serve(s, t, s.threads[t], a))
  {
    LockMove(s, t, Serve(s, t, s.threads[t], a));
  }

  /** A call that has the lifecycle lock is its holder, and one that has not takes no other lock. */
  lemma AdmitRelocks(s: State, t: Tid, a: AdmitAct)
    requires t in s.threads && CanAdmit(s, t, s.threads[t], a)
    requires HoldsLifecycle(s.threads[t]) ==> s.lifecycle == Some(t)
    ensures var s', pc := Admit(s, t, s.threads[t], a), s.threads[t];
            && t in s'.threads && s'.threads == s.threads[t := s'.threads[t]]
            && (HoldsLifecycle(s'.threads[t]) ==> s.lifecycle == None || s.lifecycle == Some(t))
            && s'.lifecycle == Relock(t, s.lifecycle, HoldsLifecycle(pc), HoldsLifecycle(s'.threads[t]))
            && s'.drainWriter == s.drainWriter && s'.readers == s.readers
            && !HoldsWrite(pc) && !HoldsWrite(s'.threads[t]) && !HoldsRead(pc) && !HoldsRead(s'.threads[t])
  {
  }

  lemma AdmitLocks(s: State, t: Tid, a: AdmitAct)
    requires LockInv(s) && t in s.threads && CanAdmit(s, t, s.threads[t], a)
    ensures LockInv(Admit(s, t, s.threads[t], a))
  {
    AdmitRelocks(s, t, a);
    assert t !in s.readers;
    LockMove(s, t, Admit(s, t, s.threads[t], a));
  }

  lemma SwapLocks(s: State, t: Tid, a: SwapAct)
    requires LockInv(s) && t in s.threads && CanSwap(s, t, s.threads[t], a)
    ensures LockInv(SwapStep(s, t, s.threads[t], a))
  {
    LockMove(s, t, SwapStep(s, t, s.threads[t], a));
  }

  lemma RetireLocks(s: State, t: Tid, a: StopAct)
    requires LockInv(s) && t in s.threads && CanRetire(s, t, s.threads[t], a)
    ensures LockInv(Retire(s, t, s.threads[t], a))
  {
    LockMove(s, t, Retire(s, t, s.threads[t], a));
  }

  /** Call t may rely on what its place says of the handler it owns. */
  ghost predicate Sees(s: State, t: Tid) {
    t in s.threads && Owned(s.threads[t]).Some? ==>
      Owned(s.threads[t]).value in s.handlers && OwnerView(s.threads[t], s.handlers[Owned(s.threads[t]).value])
  }

  lemma OwnerSees(s: State, t: Tid)
    requires OwnInv(s)
    ensures Sees(s, t)
  {
  }

  lemma StaysApart(threads: map<Tid, PC>, t: Tid, pc: PC)
    requires OwnersApart(threads)
    requires Owned(pc).Some? ==> forall u | u in threads && u != t :: Owned(threads[u]) != Owned(pc)
    ensures OwnersApart(threads[t := pc])
  {
  }

  /** No one else owns what call t owns. */
  lemma OnlyOwner(threads: map<Tid, PC>, t: Tid)
    requires OwnersApart(threads) && t in threads && Owned(threads[t]).Some?
    ensures forall u | u in threads && u != t :: Owned(threads[u]) != Owned(threads[t])
  {
  }

  lemma StaysOwned(threads: map<Tid, PC>, t: Tid, pc: PC, h: Hid)
    requires IsOwned(threads, h) && (t in threads && Owned(threads[t]) == Some(h) ==> Owned(pc) == Some(h))
    ensures IsOwned(threads[t := pc], h)
  {
    var u :| u in threads && Owned(threads[u]) == Some(h);
    assert u in threads[t := pc] && Owned(threads[t := pc][u]) == Some(h);
  }

  /** A call moves on and still owns what it owned. */
  lemma OwnMove(ptr: Option<Hid>, handlers: map<Hid, Handler>, threads: map<Tid, PC>, t: Tid, pc: PC)
    requires Ownership(ptr, handlers, threads)
    requires Owned(pc) == if t in threads then Owned(threads[t]) else None
    requires Owned(pc).Some? ==> OwnerView(pc, handlers[Owned(pc).value])
    ensures Ownership(ptr, handlers, threads[t := pc])
  {
    if Owned(pc).Some? {
      OnlyOwner(threads, t);
    }
    StaysApart(threads, t, pc);
    MoveSees(ptr, handlers, threads, t, pc);
    MoveAccounts(ptr, handlers, threads, t, pc);
  }

  lemma MoveSees(ptr: Option<Hid>, handlers: map<Hid, Handler>, threads: map<Tid, PC>, t: Tid, pc: PC)
    requires OwnersSee(ptr, handlers, threads)
    requires Owned(pc).Some? ==>
               Owned(pc) != ptr && Owned(pc).value in handlers && OwnerView(pc, handlers[Owned(pc).value])
    ensures OwnersSee(ptr, handlers, threads[t := pc])
  {
  }

  lemma MoveAccounts(ptr: Option<Hid>, handlers: map<Hid, Handler>, threads: map<Tid, PC>, t: Tid, pc: PC)
    requires AllAccounted(ptr, handlers, threads)
    requires Owned(pc) == if t in threads then Owned(threads[t]) else None
    ensures AllAccounted(ptr, handlers, threads[t := pc])
  {
    forall h | h in handlers && ptr != Some(h) && !Finished(handlers[h]) ensures IsOwned(threads[t := pc], h) {
      StaysOwned(threads, t, pc, h);
    }
  }

  /** A call changes the handler it owns, and keeps it or leaves it stopped to the end. */
  lemma OwnChange(ptr: Option<Hid>, handlers: map<Hid, Handler>, threads: map<Tid, PC>, t: Tid, pc: PC,
                  h: Hid, hd: Handler)
    requires Ownership(ptr, handlers, threads) && h in handlers
    requires t in threads && Owned(threads[t]) == Some(h)
    requires (Owned(pc) == Some(h) && OwnerView(pc, hd)) || (Owned(pc) == None && Finished(hd))
    ensures Ownership(ptr, handlers[h := hd], threads[t := pc])
  {
    OnlyOwner(threads, t);
    StaysApart(threads, t, pc);
    ChangeSees(ptr, handlers, threads, t, pc, h, hd);
    ChangeAccounts(ptr, handlers, threads, t, pc, h, hd);
    assert Some(h) != ptr;
  }

  lemma ChangeSees(ptr: Option<Hid>, handlers: map<Hid, Handler>, threads: map<Tid, PC>, t: Tid, pc: PC,
                   h: Hid, hd: Handler)
    requires OwnersSee(ptr, handlers, threads)
    requires forall u | u in threads && u != t :: Owned(threads[u]) != Some(h)
    requires Owned(pc).Some? ==> Owned(pc) == Some(h) && Some(h) != ptr && OwnerView(pc, hd)
    ensures OwnersSee(ptr, handlers[h := hd], threads[t := pc])
  {
  }

  lemma ChangeAccounts(ptr: Option<Hid>, handlers: map<Hid, Handler>, threads: map<Tid, PC>, t: Tid, pc: PC,
                       h: Hid, hd: Handler)
    requires AllAccounted(ptr, handlers, threads)
    requires t in threads ==> Owned(threads[t]) == None || Owned(threads[t]) == Some(h)
    requires Owned(pc) == Some(h) || Finished(hd)
    ensures AllAccounted(ptr, handlers[h := hd], threads[t := pc])
  {
    var threads' := threads[t := pc];
    forall k | k in handlers && k != h && ptr != Some(k) && !Finished(handlers[k]) ensures IsOwned(threads', k) {
      StaysOwned(threads, t, pc, k);
    }
    assert t in threads' && Owned(threads'[t]) == Owned(pc);
  }

  /** A call builds a handler under an unused name. */
  lemma OwnCreate(ptr: Option<Hid>, handlers: map<Hid, Handler>, threads: map<Tid, PC>, t: Tid, pc: PC,
                  h: Hid, hd: Handler)
    requires Ownership(ptr, handlers, threads) && h !in handlers
    requires t in threads && Owned(threads[t]) == None
    requires Owned(pc) == Some(h) && OwnerView(pc, hd)
    ensures Ownership(ptr, handlers[h := hd], threads[t := pc])
  {
    StaysApart(threads, t, pc);
    ChangeSees(ptr, handlers, threads, t, pc, h, hd);
    ChangeAccounts(ptr, handlers, threads, t, pc, h, hd);
  }

  /** The swap exchanges the owned handler with the published one. */
  lemma OwnExchange(ptr: Option<Hid>, handlers: map<Hid, Handler>, threads: map<Tid, PC>, t: Tid)
    requires Ownership(ptr, handlers, threads) && t in threads && threads[t].SwapWriting?
    ensures Ownership(threads[t].next, handlers, threads[t := Swapped(ptr)])
  {
    StaysApart(threads, t, Swapped(ptr));
    ExchangeSees(ptr, handlers, threads, t);
    ExchangeAccounts(ptr, handlers, threads, t);
  }

  lemma ExchangeSees(ptr: Option<Hid>, handlers: map<Hid, Handler>, threads: map<Tid, PC>, t: Tid)
    requires Ownership(ptr, handlers, threads) && t in threads && threads[t].SwapWriting?
    ensures OwnersSee(threads[t].next, handlers, threads[t := Swapped(ptr)])
  {
  }

  lemma ExchangeAccounts(ptr: Option<Hid>, handlers: map<Hid, Handler>, threads: map<Tid, PC>, t: Tid)
    requires AllAccounted(ptr, handlers, threads) && t in threads && threads[t].SwapWriting?
    ensures AllAccounted(threads[t].next, handlers, threads[t := Swapped(ptr)])
  {
    var threads' := threads[t := Swapped(ptr)];
    forall h | h in handlers && threads[t].next != Some(h) && !Finished(handlers[h]) ensures IsOwned(threads', h) {
      if ptr == Some(h) {
        assert t in threads' && Owned(threads'[t]) == Some(h);
      } else {
        StaysOwned(threads, t, Swapped(ptr), h);
      }
    }
  }

  /** What owners rely on reads only the flags of a group, and survives the closing of `stopped`. */
  lemma SameFlags(pc: PC, hd: Handler, g: nat, gr: Group)
    requires g < |hd.groups| && FlagsAlike(hd.groups[g], gr)
    ensures OwnerView(pc, hd) ==> OwnerView(pc, hd.(groups := hd.groups[g := gr]))
  {
  }

  lemma SameFlagsUnowned(hd: Handler, g: nat, gr: Group)
    requires g < |hd.groups| && FlagsAlike(hd.groups[g], gr)
    ensures Running(hd) ==> Running(hd.(groups := hd.groups[g := gr]))
    ensures Finished(hd) ==> Finished(hd.(groups := hd.groups[g := gr]))
  {
  }

  predicate FlagsAlike(gr: Group, later: Group) {
    later.started == gr.started && later.stopCh == gr.stopCh && (gr.stoppedCh ==> later.stoppedCh)
  }

  lemma OwnFrame(s: State, h: Hid, g: nat, gr: Group)
    requires OwnInv(s) && HasGroup(s, h, g)
    requires gr.started == GroupAt(s, h, g).started && gr.stopCh == GroupAt(s, h, g).stopCh
    requires GroupAt(s, h, g).stoppedCh ==> gr.stoppedCh
    ensures OwnInv(SetGroup(s, h, g, gr))
  {
    var hd := s.handlers[h];
    var hd' := hd.(groups := hd.groups[g := gr]);
    SameFlagsUnowned(hd, g, gr);
    if t :| t in s.threads && Owned(s.threads[t]) == Some(h) {
      SameFlags(s.threads[t], hd, g, gr);
      assert s.threads == s.threads[t := s.threads[t]];
      OwnChange(s.ptr, s.handlers, s.threads, t, s.threads[t], h, hd');
    } else {
      OwnUnowned(s, h, hd');
    }
  }

  lemma OwnUnowned(s: State, h: Hid, hd': Handler)
    requires OwnInv(s) && h in s.handlers && forall t | t in s.threads :: Owned(s.threads[t]) != Some(h)
    requires Running(s.handlers[h]) ==> Running(hd')
    requires Finished(s.handlers[h]) ==> Finished(hd')
    ensures OwnInv(SetHandler(s, h, hd'))
  {
    assert OwnersSee(s.ptr, s.handlers[h := hd'], s.threads);
    assert AllAccounted(s.ptr, s.handlers[h := hd'], s.threads);
  }

  lemma ServeOwns(s: State, t: Tid, a: ServeAct)
    requires OwnInv(s) && t in s.threads && CanServe(s, t, s.threads[t], a)
    ensures OwnInv(Serve(s, t, s.threads[t], a))
  {
    var pc := s.threads[t];
    var s' := Serve(s, t, pc, a);
    OwnMove(s.ptr, s.handlers, s.threads, t, s'.threads[t]);
    if a.Enqueue? {
      OwnFrame(SetPC(s, t, s'.threads[t]), pc.h, pc.g, Put(GroupAt(s, pc.h, pc.g), pc.tasks[0]));
    }
  }

  lemma AdmitOwns(s: State, t: Tid, a: AdmitAct)
    requires OwnInv(s) && t in s.threads && CanAdmit(s, t, s.threads[t], a)
    ensures OwnInv(Admit(s, t, s.threads[t], a))
  {
    if a.Build? || a.StartGroup? {
      AdmitChanges(s, t, a);
    } else if a.UnlockReject? && s.threads[t].Rejecting? {
      AdmitRejects(s, t, a);
    } else if a.CheckStopped? && s.threads[t].ReloadLocked? && !s.stopped {
      AdmitStarts(s, t, a);
    } else {
      AdmitMoves(s, t, a);
    }
  }

  lemma AdmitChanges(s: State, t: Tid, a: AdmitAct)
    requires OwnInv(s) && t in s.threads && CanAdmit(s, t, s.threads[t], a) && (a.Build? || a.StartGroup?)
    ensures OwnInv(Admit(s, t, s.threads[t], a))
  {
    if a.Build? {
      OwnCreate(s.ptr, s.handlers, s.threads, t, ReloadBuilt(a.h), a.h, NewHandler(a.urls));
    } else {
      StartsGroup(s, t, s.threads[t].h, s.threads[t].todo, a.g);
    }
  }

  lemma AdmitRejects(s: State, t: Tid, a: AdmitAct)
    requires OwnInv(s) && t in s.threads && CanAdmit(s, t, s.threads[t], a)
    requires a.UnlockReject? && s.threads[t].Rejecting?
    ensures OwnInv(Admit(s, t, s.threads[t], a))
  {
    FirstView(s.handlers[s.threads[t].h], s.threads[t].h);
    BeginsStop(s, t, s.threads[t].h);
  }

  lemma AdmitStarts(s: State, t: Tid, a: AdmitAct)
    requires OwnInv(s) && t in s.threads && CanAdmit(s, t, s.threads[t], a)
    requires a.CheckStopped? && s.threads[t].ReloadLocked? && !s.stopped
    ensures OwnInv(Admit(s, t, s.threads[t], a))
  {
    StartStep(s, t, s.threads[t].h);
    BeginsStart(s, t, s.threads[t].h);
  }

  lemma StartStep(s: State, t: Tid, h: Hid)
    requires t in s.threads && s.threads[t] == ReloadLocked(h) && h in s.handlers && !s.stopped
    ensures var s', hd := Admit(s, t, s.threads[t], CheckStopped), s.handlers[h];
            && s'.ptr == s.ptr && s'.handlers == s.handlers[h := hd.(starts := hd.starts + 1)]
            && s'.threads == s.threads[t := Starting(h, All(hd))]
  {
  }

  lemma AdmitFrame(s: State, t: Tid, a: AdmitAct)
    requires t in s.threads && CanAdmit(s, t, s.threads[t], a)
    ensures var s' := Admit(s, t, s.threads[t], a);
            t in s'.threads && s'.threads == s.threads[t := s'.threads[t]] && s'.ptr == s.ptr
  {
  }

  /** Steps of admission that leave all handlers as they are. */
  predicate OnlyMoves(s: State, t: Tid, a: AdmitAct)
    requires t in s.threads
  {
    && !a.Build? && !(a.UnlockReject? && s.threads[t].Rejecting?) && !a.StartGroup?
    && !(a.CheckStopped? && s.threads[t].ReloadLocked? && !s.stopped)
  }

  /** The moves of such steps: the call owns nothing, or takes the handler it owns to its next place. */
  predicate MovesTo(pc: PC, next: PC) {
    || (Owned(pc) == None && Owned(next) == None)
    || (pc.ReloadBuilt? && next == ReloadLocked(pc.h))
    || (pc.ReloadLocked? && next == Rejecting(pc.h))
    || (pc.Starting? && pc.todo == {} && next == SwapWanted(Some(pc.h)))
  }

  lemma MoveView(pc: PC, next: PC, hd: Handler)
    requires MovesTo(pc, next) && OwnerView(pc, hd)
    ensures Owned(next).Some? ==> OwnerView(next, hd)
  {
  }

  lemma AdmitMovesTo(s: State, t: Tid, a: AdmitAct)
    requires t in s.threads && CanAdmit(s, t, s.threads[t], a) && OnlyMoves(s, t, a)
    ensures var s' := Admit(s, t, s.threads[t], a);
            t in s'.threads && s'.handlers == s.handlers && MovesTo(s.threads[t], s'.threads[t])
  {
  }

  lemma AdmitMoves(s: State, t: Tid, a: AdmitAct)
    requires OwnInv(s) && t in s.threads && CanAdmit(s, t, s.threads[t], a) && OnlyMoves(s, t, a)
    ensures OwnInv(Admit(s, t, s.threads[t], a))
  {
    AdmitFrame(s, t, a);
    AdmitMovesTo(s, t, a);
    MovesOwn(s, t, Admit(s, t, s.threads[t], a).threads[t]);
  }

  lemma MovesOwn(s: State, t: Tid, next: PC)
    requires OwnInv(s) && t in s.threads && MovesTo(s.threads[t], next)
    ensures Ownership(s.ptr, s.handlers, s.threads[t := next])
  {
    OwnerSees(s, t);
    if Owned(s.threads[t]).Some? {
      MoveView(s.threads[t], next, s.handlers[Owned(s.threads[t]).value]);
    }
    OwnMove(s.ptr, s.handlers, s.threads, t, next);
  }

  lemma BeginsStart(s: State, t: Tid, h: Hid)
    requires OwnInv(s) && t in s.threads && s.threads[t] == ReloadLocked(h)
    ensures Ownership(s.ptr, s.handlers[h := s.handlers[h].(starts := s.handlers[h].starts + 1)],
                      s.threads[t := Starting(h, All(s.handlers[h]))])
  {
    var hd := s.handlers[h];
    var hd' := hd.(starts := hd.starts + 1);
    var pc := Starting(h, All(hd));
    assert OwnerView(pc, hd') by {
      assert OwnerView(s.threads[t], hd);
      FirstView(hd, h);
    }
    OwnChange(s.ptr, s.handlers, s.threads, t, pc, h, hd');
  }

  lemma StartsGroup(s: State, t: Tid, h: Hid, todo: set<nat>, g: nat)
    requires OwnInv(s) && t in s.threads && s.threads[t] == Starting(h, todo) && g in todo && HasGroup(s, h, g)
    ensures OwnInv(SetPC(SetGroup(s, h, g, StartOf(GroupAt(s, h, g))), t, Starting(h, todo - {g})))
  {
    var hd := s.handlers[h];
    StartView(hd, todo, g);
    OwnChange(s.ptr, s.handlers, s.threads, t, Starting(h, todo - {g}), h,
              hd.(groups := hd.groups[g := StartOf(hd.groups[g])]));
  }

  lemma BeginsStop(s: State, t: Tid, h: Hid)
    requires OwnInv(s) && t in s.threads && Owned(s.threads[t]) == Some(h) && h in s.handlers
    requires OwnerView(Stopping(h, All(s.handlers[h])), s.handlers[h].(stops := s.handlers[h].stops + 1))
    ensures Ownership(s.ptr, BeginStop(s, t, h).handlers, BeginStop(s, t, h).threads)
  {
    var hd := s.handlers[h];
    var hd', pc := hd.(stops := hd.stops + 1), Stopping(h, All(hd));
    assert BeginStop(s, t, h).handlers == s.handlers[h := hd'] && BeginStop(s, t, h).threads == s.threads[t := pc];
    OwnChange(s.ptr, s.handlers, s.threads, t, pc, h, hd');
  }

  lemma FirstView(hd: Handler, h: Hid)
    ensures Fresh(hd) ==> OwnerView(Starting(h, All(hd)), hd.(starts := hd.starts + 1))
    ensures Fresh(hd) || Running(hd) ==> OwnerView(Stopping(h, All(hd)), hd.(stops := hd.stops + 1))
  {
  }

  lemma StartView(hd: Handler, todo: set<nat>, g: nat)
    requires HalfStarted(hd, todo) && g in todo
    ensures g < |hd.groups|
    ensures HalfStarted(hd.(groups := hd.groups[g := StartOf(hd.groups[g])]), todo - {g})
  {
  }

  lemma StopView(hd: Handler, todo: set<nat>, g: nat, h: Hid)
    requires HalfStopped(hd, todo, {}) && g in todo
    ensures g < |hd.groups|
    ensures hd.groups[g].started ==>
      OwnerView(Awaiting(h, g, todo - {g}), hd.(groups := hd.groups[g := hd.groups[g].(stopCh := true)]))
    ensures !hd.groups[g].started ==> HalfStopped(hd, todo - {g}, {})
  {
  }

  lemma StopGroupOwns(s: State, t: Tid, g: nat)
    requires OwnInv(s) && t in s.threads && CanRetire(s, t, s.threads[t], StopGroup(g))
    ensures OwnInv(Retire(s, t, s.threads[t], StopGroup(g)))
  {
    var pc := s.threads[t];
    OwnerSees(s, t);
    if GroupAt(s, pc.h, g).started {
      StopsGroup(s, t, pc.h, pc.todo, g);
    } else {
      SkipsGroup(s, t, pc.h, pc.todo, g);
    }
  }

  lemma StopsGroup(s: State, t: Tid, h: Hid, todo: set<nat>, g: nat)
    requires Ownership(s.ptr, s.handlers, s.threads) && t in s.threads && s.threads[t] == Stopping(h, todo)
    requires g in todo && HasGroup(s, h, g) && HalfStopped(s.handlers[h], todo, {}) && GroupAt(s, h, g).started
    ensures var hd := s.handlers[h];
            Ownership(s.ptr, s.handlers[h := hd.(groups := hd.groups[g := hd.groups[g].(stopCh := true)])],
                      s.threads[t := Awaiting(h, g, todo - {g})])
  {
    var hd := s.handlers[h];
    StopView(hd, todo, g, h);
    OwnChange(s.ptr, s.handlers, s.threads, t, Awaiting(h, g, todo - {g}), h,
              hd.(groups := hd.groups[g := hd.groups[g].(stopCh := true)]));
  }

  lemma SkipsGroup(s: State, t: Tid, h: Hid, todo: set<nat>, g: nat)
    requires Ownership(s.ptr, s.handlers, s.threads) && t in s.threads && s.threads[t] == Stopping(h, todo)
    requires g in todo && HasGroup(s, h, g) && HalfStopped(s.handlers[h], todo, {}) && !GroupAt(s, h, g).started
    ensures Ownership(s.ptr, s.handlers, s.threads[t := Stopping(h, todo - {g})])
  {
    StopView(s.handlers[h], todo, g, h);
    OwnMove(s.ptr, s.handlers, s.threads, t, Stopping(h, todo - {g}));
  }

  lemma StopDoneOwns(s: State, t: Tid)
    requires OwnInv(s) && t in s.threads && CanRetire(s, t, s.threads[t], StopDone)
    ensures OwnInv(Retire(s, t, s.threads[t], StopDone))
  {
    OwnerSees(s, t);
    var h := s.threads[t].h;
    ReturnView(s.handlers[h]);
    Returns(s.ptr, s.handlers, s.threads, t, h, s.handlers[h].(stopReturned := true));
    assert Retire(s, t, s.threads[t], StopDone)
        == SetPC(SetHandler(s, h, s.handlers[h].(stopReturned := true)), t, Done);
  }

  lemma Returns(ptr: Option<Hid>, handlers: map<Hid, Handler>, threads: map<Tid, PC>, t: Tid, h: Hid, hd: Handler)
    requires Ownership(ptr, handlers, threads) && h in handlers && t in threads && threads[t].Stopping?
    requires threads[t].h == h && Finished(hd)
    ensures Ownership(ptr, handlers[h := hd], threads[t := Done])
  {
    OwnChange(ptr, handlers, threads, t, Done, h, hd);
  }

  lemma ReturnView(hd: Handler)
    requires HalfStopped(hd, {}, {})
    ensures Finished(hd.(stopReturned := true))
  {
  }

  lemma AwaitOwns(s: State, t: Tid)
    requires OwnInv(s) && t in s.threads && CanRetire(s, t, s.threads[t], AwaitStopped)
    ensures OwnInv(Retire(s, t, s.threads[t], AwaitStopped))
  {
    var pc := s.threads[t];
    OwnerSees(s, t);
    AwaitView(s.handlers[pc.h], pc.todo, pc.g);
    Awaited(s, t, pc.h, pc.g, pc.todo);
    assert Retire(s, t, pc, AwaitStopped) == SetPC(s, t, Stopping(pc.h, pc.todo));
  }

  lemma Awaited(s: State, t: Tid, h: Hid, g: nat, todo: set<nat>)
    requires OwnInv(s) && t in s.threads && s.threads[t] == Awaiting(h, g, todo) && h in s.handlers
    requires HalfStopped(s.handlers[h], todo, {})
    ensures Ownership(s.ptr, s.handlers, s.threads[t := Stopping(h, todo)])
  {
    OwnMove(s.ptr, s.handlers, s.threads, t, Stopping(h, todo));
  }

  lemma AwaitView(hd: Handler, todo: set<nat>, g: nat)
    requires HalfStopped(hd, todo, {g}) && g < |hd.groups| && hd.groups[g].stoppedCh
    ensures HalfStopped(hd, todo, {})
  {
  }

  lemma RetireOwns(s: State, t: Tid, a: StopAct)
    requires OwnInv(s) && t in s.threads && CanRetire(s, t, s.threads[t], a)
    ensures OwnInv(Retire(s, t, s.threads[t], a))
  {
    match a
    case StopGroup(g) => StopGroupOwns(s, t, g);
    case AwaitStopped => AwaitOwns(s, t);
    case StopDone => StopDoneOwns(s, t);
  }

  lemma UnlockOwns(s: State, t: Tid)
    requires OwnInv(s) && t in s.threads && CanSwap(s, t, s.threads[t], UnlockLifecycle)
    ensures OwnInv(SwapStep(s, t, s.threads[t], UnlockLifecycle))
  {
    OwnerSees(s, t);
    UnlocksTo(s, t, s.threads[t].prev);
    UnlockStep(s, t);
  }

  lemma UnlockStep(s: State, t: Tid)
    requires t in s.threads && CanSwap(s, t, s.threads[t], UnlockLifecycle)
    ensures var s', prev := SwapStep(s, t, s.threads[t], UnlockLifecycle), s.threads[t].prev;
            && s'.ptr == s.ptr
            && s'.handlers == (if prev.Some? then BeginStop(s, t, prev.value).handlers else s.handlers)
            && s'.threads == if prev.Some? then BeginStop(s, t, prev.value).threads else s.threads[t := Done]
  {
  }

  lemma UnlocksTo(s: State, t: Tid, prev: Option<Hid>)
    requires OwnInv(s) && t in s.threads && s.threads[t] == Unlocking(prev)
    requires prev.Some? ==> prev.value in s.handlers && Running(s.handlers[prev.value])
    ensures prev.Some? ==>
              Ownership(s.ptr, BeginStop(s, t, prev.value).handlers, BeginStop(s, t, prev.value).threads)
    ensures prev.None? ==> Ownership(s.ptr, s.handlers, s.threads[t := Done])
  {
    if prev.Some? {
      FirstView(s.handlers[prev.value], prev.value);
      BeginsStop(s, t, prev.value);
    } else {
      OwnMove(s.ptr, s.handlers, s.threads, t, Done);
    }
  }

  lemma SwapOwns(s: State, t: Tid, a: SwapAct)
    requires OwnInv(s) && t in s.threads && CanSwap(s, t, s.threads[t], a)
    ensures OwnInv(SwapStep(s, t, s.threads[t], a))
  {
    var pc := s.threads[t];
    match a
    case Swap => OwnExchange(s.ptr, s.handlers, s.threads, t);
    case UnlockLifecycle => UnlockOwns(s, t);
    case AnnounceDrain => OwnMove(s.ptr, s.handlers, s.threads, t, SwapAnnounced(pc.next));
    case AcquireDrain => OwnMove(s.ptr, s.handlers, s.threads, t, SwapWriting(pc.next));
    case UnlockDrain => OwnMove(s.ptr, s.handlers, s.threads, t, Unlocking(pc.prev));
  }

  lemma OwnStep(s: State, a: Action)
    requires OwnInv(s) && GroupsInv(s) && Enabled(s, a)
    ensures OwnInv(Apply(s, a))
  {
    match a
    case OnGroup(h, g, b) => OwnFrame(s, h, g, GroupStep(GroupAt(s, h, g), b));
    case Call(t, op) => OwnMove(s.ptr, s.handlers, s.threads, t, FirstPC(op));
    case Serving(t, b) => ServeOwns(s, t, b);
    case Admitting(t, b) => AdmitOwns(s, t, b);
    case Swapping(t, b) => SwapOwns(s, t, b);
    case Retiring(t, b) => RetireOwns(s, t, b);
  }

  // Requests, groups and the flag

  ghost predicate InHandler(pc: PC, s: State) {
    pc.ServeIn? ==>
      && s.ptr == Some(pc.h)
      && (pc.tasks != [] ==> HasGroup(s, pc.h, pc.g))
      && (forall task | task in pc.tasks :: task.client)
  }

  /** Requests inside a handler are undisturbed by a step that keeps the pointer and the published handler's groups. */
  lemma ServeMove(s: State, t: Tid, s': State)
    requires ServeInv(s) && t in s'.threads && s'.threads == s.threads[t := s'.threads[t]]
    requires s'.ptr == s.ptr
    requires forall g: nat | s.ptr.Some? && HasGroup(s, s.ptr.value, g) :: HasGroup(s', s.ptr.value, g)
    requires InHandler(s'.threads[t], s')
    ensures ServeInv(s')
  {
  }

  lemma ServeServes(s: State, t: Tid, a: ServeAct)
    requires ServeInv(s) && t in s.threads && CanServe(s, t, s.threads[t], a)
    ensures ServeInv(Serve(s, t, s.threads[t], a))
  {
    var s' := Serve(s, t, s.threads[t], a);
    assert InHandler(s.threads[t], s);
    ServeMove(s, t, s');
  }

  lemma AdmitServes(s: State, t: Tid, a: AdmitAct)
    requires ServeInv(s) && t in s.threads && CanAdmit(s, t, s.threads[t], a)
    ensures ServeInv(Admit(s, t, s.threads[t], a))
  {
    ServeMove(s, t, Admit(s, t, s.threads[t], a));
  }

  lemma SwapServes(s: State, t: Tid, a: SwapAct)
    requires ServeInv(s) && LockInv(s) && t in s.threads && CanSwap(s, t, s.threads[t], a)
    ensures ServeInv(SwapStep(s, t, s.threads[t], a))
  {
    if a.Swap? {
      assert s.readers == {};
    } else {
      ServeMove(s, t, SwapStep(s, t, s.threads[t], a));
    }
  }

  lemma ServeStep(s: State, a: Action)
    requires ServeInv(s) && LockInv(s) && Enabled(s, a)
    ensures ServeInv(Apply(s, a))
  {
    match a
    case OnGroup(h, g, b) =>
      var s' := SetGroup(s, h, g, GroupStep(GroupAt(s, h, g), b));
      assert forall k: Hid, i: nat | HasGroup(s, k, i) :: HasGroup(s', k, i);
    case Call(t, op) => ServeMove(s, t, SetPC(s, t, FirstPC(op)));
    case Serving(t, b) => ServeServes(s, t, b);
    case Admitting(t, b) => AdmitServes(s, t, b);
    case Swapping(t, b) => SwapServes(s, t, b);
    case Retiring(t, b) => ServeMove(s, t, Retire(s, t, s.threads[t], b));
  }

  lemma FlagFrame(s: State, s': State)
    requires FlagInv(s) && s'.lifecycle == s.lifecycle && s'.stopped == s.stopped && s'.ptr == s.ptr
    requires s.lifecycle.Some? ==>
      (s.lifecycle.value in s.threads <==> s.lifecycle.value in s'.threads)
    requires s.lifecycle.Some? && s.lifecycle.value in s.threads ==>
      s'.threads[s.lifecycle.value] == s.threads[s.lifecycle.value]
    ensures FlagInv(s')
  {
  }

  lemma AdmitFlags(s: State, t: Tid, a: AdmitAct)
    requires FlagInv(s) && LockInv(s) && t in s.threads && CanAdmit(s, t, s.threads[t], a)
    ensures FlagInv(Admit(s, t, s.threads[t], a))
  {
    if a.BuildFails? || a.Build? {
      FlagFrame(s, Admit(s, t, s.threads[t], a));
    } else if !a.LockLifecycle? {
      assert s.lifecycle == Some(t);
    }
  }

  lemma SwapFlags(s: State, t: Tid, a: SwapAct)
    requires FlagInv(s) && LockInv(s) && t in s.threads && CanSwap(s, t, s.threads[t], a)
    ensures FlagInv(SwapStep(s, t, s.threads[t], a))
  {
    assert s.lifecycle == Some(t);
  }

  lemma FlagStep(s: State, a: Action)
    requires FlagInv(s) && LockInv(s) && Enabled(s, a)
    ensures FlagInv(Apply(s, a))
  {
    match a
    case OnGroup(h, g, b) => FlagFrame(s, Apply(s, a));
    case Call(t, op) => FlagFrame(s, SetPC(s, t, FirstPC(op)));
    case Serving(t, b) => FlagFrame(s, Serve(s, t, s.threads[t], b));
    case Admitting(t, b) => AdmitFlags(s, t, b);
    case Swapping(t, b) => SwapFlags(s, t, b);
    case Retiring(t, b) => FlagFrame(s, Retire(s, t, s.threads[t], b));
  }

  lemma PutInv(gr: Group, task: Task)
    requires GroupInv(gr) && |gr.queue| < QUEUE_CAP
    requires (gr.started && !gr.stopCh) || !task.client
    ensures GroupInv(Put(gr, task))
  {
  }

  lemma TakeInv(gr: Group)
    requires GroupInv(gr) && CanGroup(gr, Take)
    ensures GroupInv(GroupStep(gr, Take))
  {
    assert gr.queue == [gr.queue[0]] + gr.queue[1..];
  }

  lemma AddInv(gr: Group)
    requires GroupInv(gr) && CanGroup(gr, Add)
    ensures GroupInv(GroupStep(gr, Add))
  {
    var none: seq<Task> := [];
    assert (gr.added + [gr.worker.task]) + none == gr.added + [gr.worker.task];
  }

  lemma GroupStepInv(gr: Group, a: GroupAct)
    requires GroupInv(gr) && CanGroup(gr, a)
    ensures GroupInv(GroupStep(gr, a))
  {
    match a
    case Take => TakeInv(gr);
    case Add => AddInv(gr);
    case InternalPost(task) => PutInv(gr, task);
    case _ =>
  }

  lemma GroupsSet(s: State, h: Hid, g: nat, gr: Group)
    requires GroupsInv(s) && HasGroup(s, h, g) && GroupInv(gr)
    ensures GroupsInv(SetGroup(s, h, g, gr))
  {
    var s' := SetGroup(s, h, g, gr);
    forall k: Hid, i: nat | HasGroup(s', k, i) ensures GroupInv(s'.handlers[k].groups[i]) {
      assert HasGroup(s, k, i);
    }
  }

  /** Counting a start or stop, or recording that it returned, leaves the groups alone. */
  lemma GroupsSame(s: State, s': State)
    requires GroupsInv(s)
    requires forall h | h in s'.handlers :: h in s.handlers && s'.handlers[h].groups == s.handlers[h].groups
    ensures GroupsInv(s')
  {
    forall k: Hid, i: nat | HasGroup(s', k, i) ensures GroupInv(s'.handlers[k].groups[i]) {
      assert HasGroup(s, k, i);
    }
  }

  lemma ServeGroups(s: State, t: Tid, a: ServeAct)
    requires GroupsInv(s) && OwnInv(s) && ServeInv(s) && t in s.threads && CanServe(s, t, s.threads[t], a)
    ensures GroupsInv(Serve(s, t, s.threads[t], a))
  {
    var pc := s.threads[t];
    if a.Enqueue? && |GroupAt(s, pc.h, pc.g).queue| < QUEUE_CAP {
      assert Running(s.handlers[pc.h]);
      PutInv(GroupAt(s, pc.h, pc.g), pc.tasks[0]);
      GroupsSet(SetPC(s, t, ServeIn(pc.h, pc.g, pc.tasks[1..])), pc.h, pc.g, Put(GroupAt(s, pc.h, pc.g), pc.tasks[0]));
    } else {
      GroupsSame(s, Serve(s, t, pc, a));
    }
  }

  lemma AdmitGroups(s: State, t: Tid, a: AdmitAct)
    requires GroupsInv(s) && OwnInv(s) && t in s.threads && CanAdmit(s, t, s.threads[t], a)
    ensures GroupsInv(Admit(s, t, s.threads[t], a))
  {
    var pc := s.threads[t];
    if a.StartGroup? {
      assert OwnerView(pc, s.handlers[pc.h]);
      assert GroupInv(StartOf(GroupAt(s, pc.h, a.g)));
      GroupsSet(s, pc.h, a.g, StartOf(GroupAt(s, pc.h, a.g)));
    } else if a.Build? {
      BuildGroups(s, SetPC(s, t, ReloadBuilt(a.h)), a.h, a.urls);
    } else {
      GroupsSame(s, Admit(s, t, pc, a));
    }
  }

  lemma BuildGroups(s: State, s1: State, h: Hid, urls: seq<bool>)
    requires GroupsInv(s) && s1.handlers == s.handlers && h !in s.handlers
    ensures GroupsInv(SetHandler(s1, h, NewHandler(urls)))
  {
    var s' := SetHandler(s1, h, NewHandler(urls));
    forall k: Hid, i: nat | HasGroup(s', k, i) ensures GroupInv(s'.handlers[k].groups[i]) {
      assert k != h ==> HasGroup(s, k, i);
    }
  }

  lemma RetireGroups(s: State, t: Tid, a: StopAct)
    requires GroupsInv(s) && t in s.threads && CanRetire(s, t, s.threads[t], a)
    ensures GroupsInv(Retire(s, t, s.threads[t], a))
  {
    var pc := s.threads[t];
    if a.StopGroup? && GroupAt(s, pc.h, a.g).started {
      GroupsSet(s, pc.h, a.g, GroupAt(s, pc.h, a.g).(stopCh := true));
    } else {
      GroupsSame(s, Retire(s, t, pc, a));
    }
  }

  lemma GroupsStep(s: State, a: Action)
    requires GroupsInv(s) && OwnInv(s) && ServeInv(s) && Enabled(s, a)
    ensures GroupsInv(Apply(s, a))
  {
    match a
    case OnGroup(h, g, b) =>
      GroupStepInv(GroupAt(s, h, g), b);
      GroupsSet(s, h, g, GroupStep(GroupAt(s, h, g), b));
    case Call(t, op) => GroupsSame(s, SetPC(s, t, FirstPC(op)));
    case Serving(t, b) => ServeGroups(s, t, b);
    case Admitting(t, b) => AdmitGroups(s, t, b);
    case Swapping(t, b) => GroupsSame(s, SwapStep(s, t, s.threads[t], b));
    case Retiring(t, b) => RetireGroups(s, t, b);
  }

  lemma StepKeepsInv(s: State, a: Action)
    requires Inv(s) && Enabled(s, a)
    ensures Inv(Apply(s, a))
  {
    LockStep(s, a);
    OwnStep(s, a);
    ServeStep(s, a);
    FlagStep(s, a);
    GroupsStep(s, a);
  }

  lemma {:induction false} RunKeepsInv(s: State, run: seq<Action>)
    requires Inv(s) && IsRun(s, run)
    ensures Inv(Exec(s, run))
    decreases |run|
  {
    if run != [] {
      StepKeepsInv(s, run[0]);
      RunKeepsInv(Apply(s, run[0]), run[1..]);
    }
  }
}
