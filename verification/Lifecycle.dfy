/**
 The reload and drain lifecycle of the service: `handlerWrapper` in inbound/handler.go together with the
 IPSet queue of every group (`PostProcess`, `Start`, `Stop` in outbound/groups.go).

 Calls of ServeDNS, ReloadConfig and Stop run as threads; every group has a queue worker and, with a GFW list
 URL, a refresher. The state changes one atomic action at a time and any enabled action may come next, so a
 sequence of actions is one interleaving.
 */
module Lifecycle {
  import opened Options
  import opened Permutations

  type Tid = nat
  type Hid = nat

  /** Capacity of a group's IPSet channel. */
  const QUEUE_CAP := 1024

  /** `client` tells a request served through the wrapper from a resolution a DoH caller sent to its handler. */
  datatype Task = Task(val: string, timeout: int, target: nat, client: bool)

  datatype Worker = NotStarted | Selecting | Adding(task: Task) | Draining | DrainAdding(task: Task) | Exited

  /**
   A group's IPSet side. `stopCh` and `stoppedCh` say whether the channel is closed; `accepted` lists what the
   queue ever took and `added` what was handed to the target's Add, both in order.
   */
  datatype Group = Group(
    started: bool, refreshing: bool, url: bool, queue: seq<Task>, stopCh: bool, stoppedCh: bool,
    worker: Worker, accepted: seq<Task>, added: seq<Task>)

  /** `starts` and `stops` count the calls of start() and stop(); `stopReturned` is set when a stop() returns. */
  datatype Handler = Handler(groups: seq<Group>, starts: nat, stops: nat, stopReturned: bool)

  /** Where a call is. A `next` or `prev` handler is None for Stop's nil pointer and for no previous handler. */
  datatype PC =
    | ServeStart
    | ServeLocked
    | ServeIn(h: Hid, g: nat, tasks: seq<Task>)
    | ServeNil
    | ReloadStart
    | ReloadBuilt(h: Hid)
    | ReloadLocked(h: Hid)
    | Rejecting(h: Hid)
    | Starting(h: Hid, todo: set<nat>)
    | StopStart
    | StopLocked
    | StopReturning
    | SwapWanted(next: Option<Hid>)
    | SwapAnnounced(next: Option<Hid>)
    | SwapWriting(next: Option<Hid>)
    | Swapped(prev: Option<Hid>)
    | Unlocking(prev: Option<Hid>)
    | Stopping(h: Hid, todo: set<nat>)
    | Awaiting(h: Hid, g: nat, todo: set<nat>)
    | Done

  /**
   `drainWriter` is the call that announced or holds drainMu's write lock: from the announcement on, new readers
   wait, as Go's RWMutex makes them.
   */
  datatype State = State(
    lifecycle: Option<Tid>, readers: set<Tid>, drainWriter: Option<Tid>, stopped: bool, ptr: Option<Hid>,
    handlers: map<Hid, Handler>, threads: map<Tid, PC>)

  datatype Op = ServeDNS | ReloadConfig | Stop

  /** The steps of ServeDNS and of the PostProcess call inside the handler. */
  datatype ServeAct = RLock | Load | Post(g: nat, tasks: seq<Task>) | Enqueue | RUnlock

  /** The steps of ReloadConfig and Stop up to the pointer swap. */
  datatype AdmitAct =
    | BuildFails | Build(h: Hid, urls: seq<bool>) | LockLifecycle | CheckStopped | UnlockReject
    | StartGroup(g: nat) | StartDone

  /** The pointer swap both of them share. */
  datatype SwapAct = AnnounceDrain | AcquireDrain | Swap | UnlockDrain | UnlockLifecycle

  /** The steps of handlerImpl.stop. */
  datatype StopAct = StopGroup(g: nat) | AwaitStopped | StopDone

  /** Steps of a group's own goroutines, and tasks queued by requests that bypass the wrapper. */
  datatype GroupAct = Take | Add | SeeStop | DrainExit | RefreshExit | CloseStopped | InternalPost(task: Task)

  datatype Action =
    | Call(t: Tid, op: Op)
    | Serving(t: Tid, serve: ServeAct)
    | Admitting(t: Tid, admit: AdmitAct)
    | Swapping(t: Tid, swap: SwapAct)
    | Retiring(t: Tid, stop: StopAct)
    | OnGroup(h: Hid, g: nat, act: GroupAct)

  const INIT := State(None, {}, None, false, None, map[], map[])

  function NewGroup(url: bool): Group {
    Group(false, false, url, [], false, false, NotStarted, [], [])
  }

  function All(hd: Handler): set<nat> {
    Below(|hd.groups|)
  }

  // ------------------------------------------------------------------------------------------------
  // The steps

  predicate HasGroup(s: State, h: Hid, g: nat) {
    h in s.handlers && g < |s.handlers[h].groups|
  }

  function GroupAt(s: State, h: Hid, g: nat): Group
    requires HasGroup(s, h, g)
  {
    s.handlers[h].groups[g]
  }

  function SetPC(s: State, t: Tid, pc: PC): State {
    s.(threads := s.threads[t := pc])
  }

  function SetHandler(s: State, h: Hid, hd: Handler): State {
    s.(handlers := s.handlers[h := hd])
  }

  function SetGroup(s: State, h: Hid, g: nat, gr: Group): State
    requires HasGroup(s, h, g)
  {
    SetHandler(s, h, s.handlers[h].(groups := s.handlers[h].groups[g := gr]))
  }

  function Put(gr: Group, task: Task): Group {
    gr.(queue := gr.queue + [task], accepted := gr.accepted + [task])
  }

  predicate CanServe(s: State, t: Tid, pc: PC, a: ServeAct) {
    match a
    case RLock => pc.ServeStart? && s.drainWriter == None
    case Load => pc.ServeLocked?
    case Post(g, tasks) =>
      pc.ServeIn? && pc.tasks == [] && HasGroup(s, pc.h, g) && (forall task | task in tasks :: task.client)
    case Enqueue => pc.ServeIn? && pc.tasks != [] && HasGroup(s, pc.h, pc.g)
    case RUnlock => pc.ServeNil? || (pc.ServeIn? && pc.tasks == [])
  }

  function Serve(s: State, t: Tid, pc: PC, a: ServeAct): State
    requires CanServe(s, t, pc, a)
  {
    match a
    case RLock => SetPC(s, t, ServeLocked).(readers := s.readers + {t})
    case Load => SetPC(s, t, if s.ptr.Some? then ServeIn(s.ptr.value, 0, []) else ServeNil)
    case Post(g, tasks) => SetPC(s, t, ServeIn(pc.h, g, tasks))
    case Enqueue =>
      var gr := GroupAt(s, pc.h, pc.g);
      var s1 := SetPC(s, t, ServeIn(pc.h, pc.g, pc.tasks[1..]));
      if |gr.queue| < QUEUE_CAP then SetGroup(s1, pc.h, pc.g, Put(gr, pc.tasks[0])) else s1
    case RUnlock => SetPC(s, t, Done).(readers := s.readers - {t})
  }

  /** group.Start: the worker, and the refresher when a GFW list URL is set. */
  function StartOf(gr: Group): Group {
    gr.(started := true, worker := Selecting, refreshing := gr.url)
  }

  function NewHandler(urls: seq<bool>): Handler {
    Handler(seq(|urls|, i requires 0 <= i < |urls| => NewGroup(urls[i])), 0, 0, false)
  }

  /** h.stop() begins: no group has been visited yet. */
  function BeginStop(s: State, t: Tid, h: Hid): State
    requires h in s.handlers
  {
    var hd := s.handlers[h];
    SetPC(SetHandler(s, h, hd.(stops := hd.stops + 1)), t, Stopping(h, All(hd)))
  }

  predicate CanAdmit(s: State, t: Tid, pc: PC, a: AdmitAct) {
    match a
    case BuildFails => pc.ReloadStart?
    case Build(h, _) => pc.ReloadStart? && h !in s.handlers
    case LockLifecycle => (pc.ReloadBuilt? || pc.StopStart?) && s.lifecycle == None
    case CheckStopped => pc.StopLocked? || (pc.ReloadLocked? && pc.h in s.handlers)
    case UnlockReject => pc.StopReturning? || (pc.Rejecting? && pc.h in s.handlers)
    case StartGroup(g) => pc.Starting? && g in pc.todo && HasGroup(s, pc.h, g)
    case StartDone => pc.Starting? && pc.todo == {}
  }

  function Admit(s: State, t: Tid, pc: PC, a: AdmitAct): State
    requires CanAdmit(s, t, pc, a)
  {
    match a
    case BuildFails => SetPC(s, t, Done)
    case Build(h, urls) => SetHandler(SetPC(s, t, ReloadBuilt(h)), h, NewHandler(urls))
    case LockLifecycle =>
      SetPC(s, t, if pc.StopStart? then StopLocked else ReloadLocked(pc.h)).(lifecycle := Some(t))
    case CheckStopped =>
      if pc.StopLocked? then
        if s.stopped then SetPC(s, t, StopReturning) else SetPC(s, t, SwapWanted(None)).(stopped := true)
      else if s.stopped then
        SetPC(s, t, Rejecting(pc.h))
      else
        var hd := s.handlers[pc.h];
        SetPC(SetHandler(s, pc.h, hd.(starts := hd.starts + 1)), t, Starting(pc.h, All(hd)))
    case UnlockReject =>
      if pc.StopReturning? then SetPC(s, t, Done).(lifecycle := None)
      else BeginStop(s, t, pc.h).(lifecycle := None)
    case StartGroup(g) =>
      SetPC(SetGroup(s, pc.h, g, StartOf(GroupAt(s, pc.h, g))), t, Starting(pc.h, pc.todo - {g}))
    case StartDone => SetPC(s, t, SwapWanted(Some(pc.h)))
  }

  predicate CanSwap(s: State, t: Tid, pc: PC, a: SwapAct) {
    match a
    case AnnounceDrain => pc.SwapWanted? && s.drainWriter == None
    case AcquireDrain => pc.SwapAnnounced? && s.readers == {}
    case Swap => pc.SwapWriting?
    case UnlockDrain => pc.Swapped?
    case UnlockLifecycle => pc.Unlocking? && (pc.prev.Some? ==> pc.prev.value in s.handlers)
  }

  function SwapStep(s: State, t: Tid, pc: PC, a: SwapAct): State
    requires CanSwap(s, t, pc, a)
  {
    match a
    case AnnounceDrain => SetPC(s, t, SwapAnnounced(pc.next)).(drainWriter := Some(t))
    case AcquireDrain => SetPC(s, t, SwapWriting(pc.next))
    case Swap => SetPC(s, t, Swapped(s.ptr)).(ptr := pc.next)
    case UnlockDrain => SetPC(s, t, Unlocking(pc.prev)).(drainWriter := None)
    case UnlockLifecycle =>
      if pc.prev.Some? then BeginStop(s, t, pc.prev.value).(lifecycle := None)
      else SetPC(s, t, Done).(lifecycle := None)
  }

  predicate CanRetire(s: State, t: Tid, pc: PC, a: StopAct) {
    match a
    case StopGroup(g) => pc.Stopping? && g in pc.todo && HasGroup(s, pc.h, g)
    case AwaitStopped => pc.Awaiting? && HasGroup(s, pc.h, pc.g) && GroupAt(s, pc.h, pc.g).stoppedCh
    case StopDone => pc.Stopping? && pc.todo == {} && pc.h in s.handlers
  }

  /** group.Stop closes stopCh and waits on `stopped`; it returns at once on a group that was never started. */
  function Retire(s: State, t: Tid, pc: PC, a: StopAct): State
    requires CanRetire(s, t, pc, a)
  {
    match a
    case StopGroup(g) =>
      if GroupAt(s, pc.h, g).started then
        SetPC(SetGroup(s, pc.h, g, GroupAt(s, pc.h, g).(stopCh := true)), t, Awaiting(pc.h, g, pc.todo - {g}))
      else
        SetPC(s, t, Stopping(pc.h, pc.todo - {g}))
    case AwaitStopped => SetPC(s, t, Stopping(pc.h, pc.todo))
    case StopDone => SetPC(SetHandler(s, pc.h, s.handlers[pc.h].(stopReturned := true)), t, Done)
  }

  predicate CanGroup(gr: Group, a: GroupAct) {
    match a
    case Take => (gr.worker.Selecting? || gr.worker.Draining?) && gr.queue != []
    case Add => gr.worker.Adding? || gr.worker.DrainAdding?
    case SeeStop => gr.worker.Selecting? && gr.stopCh
    case DrainExit => gr.worker.Draining? && gr.queue == []
    case RefreshExit => gr.refreshing && gr.stopCh
    case CloseStopped => gr.worker.Exited? && !gr.refreshing && !gr.stoppedCh
    case InternalPost(task) => !task.client && |gr.queue| < QUEUE_CAP
  }

  /** One step of the queue worker, the refresher or the goroutine that closes `stopped`. */
  function GroupStep(gr: Group, a: GroupAct): Group
    requires CanGroup(gr, a)
  {
    match a
    case Take =>
      var w := if gr.worker.Draining? then DrainAdding(gr.queue[0]) else Adding(gr.queue[0]);
      gr.(queue := gr.queue[1..], worker := w)
    case Add =>
      var w := if gr.worker.DrainAdding? then Draining else Selecting;
      gr.(added := gr.added + [gr.worker.task], worker := w)
    case SeeStop => gr.(worker := Draining)
    case DrainExit => gr.(worker := Exited)
    case RefreshExit => gr.(refreshing := false)
    case CloseStopped => gr.(stoppedCh := true)
    case InternalPost(task) => Put(gr, task)
  }

  /** A DoH caller resolves through its handler once its own group has started it. */
  predicate SomeStarted(hd: Handler) {
    exists g | 0 <= g < |hd.groups| :: hd.groups[g].started
  }

  predicate Enabled(s: State, a: Action) {
    match a
    case Call(t, _) => t !in s.threads
    case Serving(t, b) => t in s.threads && CanServe(s, t, s.threads[t], b)
    case Admitting(t, b) => t in s.threads && CanAdmit(s, t, s.threads[t], b)
    case Swapping(t, b) => t in s.threads && CanSwap(s, t, s.threads[t], b)
    case Retiring(t, b) => t in s.threads && CanRetire(s, t, s.threads[t], b)
    case OnGroup(h, g, b) =>
      HasGroup(s, h, g) && CanGroup(GroupAt(s, h, g), b) && (b.InternalPost? ==> SomeStarted(s.handlers[h]))
  }

  function FirstPC(op: Op): PC {
    match op
    case ServeDNS => ServeStart
    case ReloadConfig => ReloadStart
    case Stop => StopStart
  }

  function Apply(s: State, a: Action): State
    requires Enabled(s, a)
  {
    match a
    case Call(t, op) => SetPC(s, t, FirstPC(op))
    case Serving(t, b) => Serve(s, t, s.threads[t], b)
    case Admitting(t, b) => Admit(s, t, s.threads[t], b)
    case Swapping(t, b) => SwapStep(s, t, s.threads[t], b)
    case Retiring(t, b) => Retire(s, t, s.threads[t], b)
    case OnGroup(h, g, b) => SetGroup(s, h, g, GroupStep(GroupAt(s, h, g), b))
  }

  /** `run` is a possible interleaving from s, and Exec is the state it ends in. */
  predicate IsRun(s: State, run: seq<Action>)
    decreases |run|
  {
    run == [] || (Enabled(s, run[0]) && IsRun(Apply(s, run[0]), run[1..]))
  }

  function Exec(s: State, run: seq<Action>): State
    requires IsRun(s, run)
    decreases |run|
  {
    if run == [] then s else Exec(Apply(s, run[0]), run[1..])
  }
}
