/**
 How DoHCallerV2 resolves its own upstream host (outbound/caller.go): getClient calls hand a request to the `run`
 goroutine over requireCh and wait for a token on satisfyCh, both of capacity one; Exit closes cancelCh. Callers and
 `run` interleave one atomic action at a time.
 */
module DoHHandshake {
  import opened Options

  /** A query that triggers a resolution; `loops` when it asks for the upstream's own name. */
  datatype Request = Request(loops: bool)

  /** A getClient call. `Abandoned` gave up at its context's end after its request was sent. */
  datatype CallerPC =
    | Looking(req: Request)
    | Sending(req: Request)
    | Waiting
    | Rereading
    | Abandoned
    | Returned(client: Option<nat>)

  /** The run goroutine; a tick resolves without a request. */
  datatype Runner = Selecting | Resolving(req: Option<Request>) | Notifying | Exited

  /** `clients` is the number of http clients built so far; `tokens` what satisfyCh buffers. */
  datatype State = State(
    requireCh: seq<Request>, tokens: nat, cancelled: bool, clients: nat, runner: Runner, callers: seq<CallerPC>)

  datatype Action =
    | Call(req: Request)
    | Look(i: nat, draw: nat)
    | Send(i: nat)
    | Receive(i: nat)
    | Reread(i: nat, draw: nat)
    | GiveUp(i: nat)
    | SeeCancel(i: nat)
    | Exit
    | Tick
    | TakeRequest
    | Resolved(found: nat)
    | Notify
    | NotifyCancelled
    | RunExit

  /** A caller whose host is an IP address starts with a client, any other with none. */
  function Start(clients: nat): State {
    State([], 0, false, clients, Selecting, [])
  }

  predicate At(s: State, i: nat) {
    i < |s.callers|
  }

  predicate Enabled(s: State, a: Action) {
    match a
    case Call(_) => true
    case Look(i, draw) => At(s, i) && s.callers[i].Looking? && (s.clients > 0 ==> draw < s.clients)
    case Send(i) => At(s, i) && s.callers[i].Sending? && |s.requireCh| < 1
    case Receive(i) => At(s, i) && s.callers[i].Waiting? && s.tokens > 0
    case Reread(i, draw) => At(s, i) && s.callers[i].Rereading? && (s.clients > 0 ==> draw < s.clients)
    case GiveUp(i) => At(s, i) && (s.callers[i].Sending? || s.callers[i].Waiting?)
    case SeeCancel(i) => At(s, i) && (s.callers[i].Sending? || s.callers[i].Waiting?) && s.cancelled
    case Exit => true
    case Tick => s.runner.Selecting?
    case TakeRequest => s.runner.Selecting? && s.requireCh != []
    case Resolved(_) => s.runner.Resolving?
    case Notify => s.runner.Notifying? && s.tokens < 1
    case NotifyCancelled => s.runner.Notifying? && s.cancelled
    case RunExit => s.runner.Selecting? && s.cancelled
  }

  function Move(s: State, i: nat, pc: CallerPC): State
    requires At(s, i)
  {
    s.(callers := s.callers[i := pc])
  }

  function Apply(s: State, a: Action): State
    requires Enabled(s, a)
  {
    match a
    case Call(req) => s.(callers := s.callers + [Looking(req)])
    case Look(i, draw) => Move(s, i, if s.clients > 0 then Returned(Some(draw)) else Sending(s.callers[i].req))
    case Send(i) => Move(s, i, Waiting).(requireCh := s.requireCh + [s.callers[i].req])
    case Receive(i) => Move(s, i, Rereading).(tokens := s.tokens - 1)
    case Reread(i, draw) => Move(s, i, Returned(if s.clients > 0 then Some(draw) else None))
    case GiveUp(i) => Move(s, i, if s.callers[i].Waiting? then Abandoned else Returned(None))
    case SeeCancel(i) => Move(s, i, Returned(None))
    case Exit => s.(cancelled := true)
    case Tick => s.(runner := Resolving(None))
    case TakeRequest =>
      s.(requireCh := s.requireCh[1..],
         runner := if s.clients > 0 then Notifying else Resolving(Some(s.requireCh[0])))
    case Resolved(found) =>
      var loops := s.runner.req.Some? && s.runner.req.value.loops;
      s.(clients := if loops || found == 0 then s.clients else found,
         runner := if s.runner.req.Some? then Notifying else Selecting)
    case Notify => s.(tokens := s.tokens + 1, runner := Selecting)
    case NotifyCancelled => s.(runner := Selecting)
    case RunExit => s.(runner := Exited)
  }

  predicate IsRun(s: State, run: seq<Action>)
    decreases |run|
  {
    run == [] || (Enabled(s, run[0]) && IsRun(Apply(s, run[0]), run[1..]))
  }

  function Exec(s: State, run: seq<Action>): State
    requires IsRun(s, run)
    decreases |run|
  {
    if run == [] then s else Exec(Apply(s, run[0]), run[1..])
  }

  // ------------------------------------------------------------------------------------------------
  // Conservation

  function Count(callers: seq<CallerPC>, abandoned: bool): nat {
    if callers == [] then 0
    else (if (if abandoned then callers[0].Abandoned? else callers[0].Waiting?) then 1 else 0)
         + Count(callers[1..], abandoned)
  }

  function WaitingCalls(s: State): nat {
    Count(s.callers, false)
  }

  function AbandonedCalls(s: State): nat {
    Count(s.callers, true)
  }

  /** The request run has taken and not yet answered with a token. */
  function HeldByRun(s: State): nat {
    if s.runner.Notifying? || (s.runner.Resolving? && s.runner.req.Some?) then 1 else 0
  }

  /** Everything in the pipe between a send and the token that answers it. */
  function InPipe(s: State): nat {
    |s.requireCh| + HeldByRun(s) + s.tokens
  }

  ghost predicate Inv(s: State) {
    && |s.requireCh| <= 1 && s.tokens <= 1
    && (!s.cancelled ==> !s.runner.Exited? && InPipe(s) == WaitingCalls(s) + AbandonedCalls(s))
  }

  function One(pc: CallerPC, abandoned: bool): nat {
    if (if abandoned then pc.Abandoned? else pc.Waiting?) then 1 else 0
  }

  lemma {:induction false} CountUpdate(callers: seq<CallerPC>, i: nat, pc: CallerPC, abandoned: bool)
    requires i < |callers|
    ensures Count(callers[i := pc], abandoned)
         == Count(callers, abandoned) - One(callers[i], abandoned) + One(pc, abandoned)
  {
    if i == 0 {
      assert callers[i := pc][1..] == callers[1..];
    } else {
      assert callers[i := pc][1..] == callers[1..][i - 1 := pc];
      CountUpdate(callers[1..], i - 1, pc, abandoned);
    }
  }

  lemma {:induction false} CountAppend(callers: seq<CallerPC>, pc: CallerPC, abandoned: bool)
    ensures Count(callers + [pc], abandoned) == Count(callers, abandoned) + One(pc, abandoned)
  {
    if callers == [] {
      assert callers + [pc] == [pc];
      assert [pc][1..] == [];
    } else {
      assert (callers + [pc])[1..] == callers[1..] + [pc];
      CountAppend(callers[1..], pc, abandoned);
    }
  }

  lemma {:induction false} CountsSome(callers: seq<CallerPC>, abandoned: bool) returns (i: nat)
    requires Count(callers, abandoned) > 0
    ensures i < |callers| && One(callers[i], abandoned) == 1
  {
    if One(callers[0], abandoned) == 1 {
      i := 0;
    } else {
      i := CountsSome(callers[1..], abandoned);
      i := i + 1;
    }
  }

  lemma {:induction false} CountsThis(callers: seq<CallerPC>, i: nat, abandoned: bool)
    requires i < |callers| && One(callers[i], abandoned) == 1
    ensures Count(callers, abandoned) > 0
  {
    if i > 0 {
      CountsThis(callers[1..], i - 1, abandoned);
    }
  }

  lemma StepKeepsInv(s: State, a: Action)
    requires Inv(s) && Enabled(s, a)
    ensures Inv(Apply(s, a))
  {
    var s' := Apply(s, a);
    if a.Call? {
      CountAppend(s.callers, Looking(a.req), false);
      CountAppend(s.callers, Looking(a.req), true);
    } else if a.Look? || a.Send? || a.Receive? || a.Reread? || a.GiveUp? || a.SeeCancel? {
      CountUpdate(s.callers, a.i, s'.callers[a.i], false);
      CountUpdate(s.callers, a.i, s'.callers[a.i], true);
    }
  }

  lemma {:induction false} RunKeepsInv(s: State, run: seq<Action>)
    requires Inv(s) && IsRun(s, run)
    ensures Inv(Exec(s, run))
    decreases |run|
  {
    if run != [] {
      StepKeepsInv(s, run[0]);
      RunKeepsInv(Apply(s, run[0]), run[1..]);
    }
  }

  /**
   Before Exit: queued requests, the one run holds and the buffered token together match, one for one, the calls
   waiting for a token and the calls that gave up waiting. So at most three calls can ever be abandoned.
   */
  lemma Conservation(clients: nat, run: seq<Action>)
    requires IsRun(Start(clients), run) && !Exec(Start(clients), run).cancelled
    ensures var s := Exec(Start(clients), run);
            && |s.requireCh| + HeldByRun(s) + s.tokens == WaitingCalls(s) + AbandonedCalls(s)
            && |s.requireCh| <= 1 && HeldByRun(s) <= 1 && s.tokens <= 1
            && AbandonedCalls(s) <= 3
  {
    RunKeepsInv(Start(clients), run);
  }

  /** Before Exit, a call past its send has a token in the channel, or a request on its way to becoming one. */
  lemma TokenIsComing(clients: nat, run: seq<Action>, i: nat)
    requires IsRun(Start(clients), run) && !Exec(Start(clients), run).cancelled
    requires At(Exec(Start(clients), run), i) && Exec(Start(clients), run).callers[i].Waiting?
    ensures var s := Exec(Start(clients), run); s.tokens > 0 || s.requireCh != [] || HeldByRun(s) > 0
  {
    Conservation(clients, run);
    CountsThis(Exec(Start(clients), run).callers, i, false);
  }

  // ------------------------------------------------------------------------------------------------
  // Exactly when everyone blocks

  /** A step that needs no new call, no ended context, no tick and no Exit. */
  predicate Progress(a: Action) {
    !(a.Call? || a.GiveUp? || a.Tick? || a.Exit?)
  }

  ghost predicate Blocked(s: State) {
    && (exists i :: 0 <= i < |s.callers| && !s.callers[i].Returned? && !s.callers[i].Abandoned?)
    && (forall a :: Progress(a) ==> !Enabled(s, a))
  }

  /** The three places of the pipe are taken by abandoned requests, run waits to notify, and some call waits to send. */
  ghost predicate Full(s: State) {
    && !s.cancelled && AbandonedCalls(s) == 3 && s.runner.Notifying?
    && (forall i | 0 <= i < |s.callers| :: s.callers[i].Sending? || s.callers[i].Returned? || s.callers[i].Abandoned?)
    && (exists i :: 0 <= i < |s.callers| && s.callers[i].Sending?)
  }

  lemma SomeProgress(s: State, i: nat) returns (a: Action)
    requires Inv(s) && !Full(s) && i < |s.callers| && !s.callers[i].Returned? && !s.callers[i].Abandoned?
    ensures Progress(a) && Enabled(s, a)
  {
    var pc := s.callers[i];
    if pc.Looking? {
      a := Look(i, 0);
    } else if pc.Rereading? {
      a := Reread(i, 0);
    } else if s.cancelled {
      a := SeeCancel(i);
    } else if s.runner.Resolving? {
      a := Resolved(0);
    } else if s.runner.Selecting? && s.requireCh != [] {
      a := TakeRequest;
    } else if s.runner.Notifying? && s.tokens == 0 {
      a := Notify;
    } else if pc.Sending? && s.requireCh == [] {
      a := Send(i);
    } else if WaitingCalls(s) > 0 {
      var j := CountsSome(s.callers, false);
      a := Receive(j);
    } else {
      var j :| 0 <= j < |s.callers|
            && !(s.callers[j].Sending? || s.callers[j].Returned? || s.callers[j].Abandoned?);
      if s.callers[j].Waiting? {
        CountsThis(s.callers, j, false);
        assert false;
      }
      a := if s.callers[j].Looking? then Look(j, 0) else Reread(j, 0);
    }
  }

  /** In a reachable state every party is blocked exactly when three abandoned requests fill the pipe before Exit. */
  lemma BlockedIffFull(clients: nat, run: seq<Action>)
    requires IsRun(Start(clients), run)
    ensures Blocked(Exec(Start(clients), run)) <==> Full(Exec(Start(clients), run))
  {
    RunKeepsInv(Start(clients), run);
    var s := Exec(Start(clients), run);
    if Blocked(s) && !Full(s) {
      var i :| 0 <= i < |s.callers| && !s.callers[i].Returned? && !s.callers[i].Abandoned?;
      var a := SomeProgress(s, i);
    }
  }

  /** So with at most two requests ever abandoned, or after Exit, some party can always move. */
  lemma TwoAbandonedNeverBlock(clients: nat, run: seq<Action>)
    requires IsRun(Start(clients), run)
    requires AbandonedCalls(Exec(Start(clients), run)) <= 2 || Exec(Start(clients), run).cancelled
    ensures !Blocked(Exec(Start(clients), run))
  {
    BlockedIffFull(clients, run);
  }

  // ------------------------------------------------------------------------------------------------
  // When no client can come any more

  /**
   Nothing of the pipe can move on and no client is built: requireCh and satisfyCh are full, no call waits for a token,
   and run is about to notify, or resolves for a request whose resolution loops and so finds nothing.
   */
  ghost predicate Doomed(s: State) {
    && !s.cancelled && s.clients == 0 && s.tokens == 1 && |s.requireCh| == 1
    && (s.runner.Notifying? || (s.runner.Resolving? && s.runner.req.Some? && s.runner.req.value.loops))
    && forall i | 0 <= i < |s.callers| :: !s.callers[i].Waiting?
  }

  /** Doomed, with run stuck notifying. */
  ghost predicate Jammed(s: State) {
    Doomed(s) && s.runner.Notifying?
  }

  /** Some run without Exit gets a client. */
  ghost predicate CanGetClient(s: State) {
    exists run :: GetsClient(s, run)
  }

  ghost predicate GetsClient(s: State, run: seq<Action>) {
    IsRun(s, run) && Exit !in run && Exec(s, run).clients > 0
  }

  lemma StepStaysDoomed(s: State, a: Action)
    requires Doomed(s) && Enabled(s, a) && a != Exit
    ensures Doomed(Apply(s, a)) && (Jammed(s) ==> Jammed(Apply(s, a)))
  {
  }

  lemma {:induction false} StaysDoomed(s: State, run: seq<Action>)
    requires Doomed(s) && IsRun(s, run) && Exit !in run
    ensures Doomed(Exec(s, run))
    decreases |run|
  {
    if run != [] {
      assert run[0] in run;
      StepStaysDoomed(s, run[0]);
      StaysDoomed(Apply(s, run[0]), run[1..]);
    }
  }

  lemma Earlier(s: State, a: Action)
    requires Enabled(s, a) && a != Exit && CanGetClient(Apply(s, a))
    ensures CanGetClient(s)
  {
    var run :| GetsClient(Apply(s, a), run);
    assert ([a] + run)[0] == a && ([a] + run)[1..] == run;
    assert GetsClient(s, [a] + run);
  }

  lemma ClientIsThere(s: State)
    requires s.clients > 0
    ensures CanGetClient(s)
  {
    assert GetsClient(s, []);
  }

  /** A resolution that does not loop may find a client. */
  lemma FromResolving(s: State)
    requires s.runner.Resolving? && (s.runner.req.Some? ==> !s.runner.req.value.loops)
    ensures CanGetClient(s)
  {
    ClientIsThere(Apply(s, Resolved(1)));
    Earlier(s, Resolved(1));
  }

  /** A tick resolves without a request. */
  lemma FromSelecting(s: State)
    requires s.runner.Selecting?
    ensures CanGetClient(s)
  {
    FromResolving(Apply(s, Tick));
    Earlier(s, Tick);
  }

  lemma FromNotifying(s: State)
    requires s.runner.Notifying? && s.tokens == 0
    ensures CanGetClient(s)
  {
    FromSelecting(Apply(s, Notify));
    Earlier(s, Notify);
  }

  /** A waiting call takes the token that is in run's way. */
  lemma FromWaiting(s: State, i: nat)
    requires s.runner.Notifying? && s.tokens == 1 && At(s, i) && s.callers[i].Waiting?
    ensures CanGetClient(s)
  {
    FromNotifying(Apply(s, Receive(i)));
    Earlier(s, Receive(i));
  }

  /** With room in requireCh a new call sends its request, waits, and takes the token. */
  lemma FromRoom(s: State)
    requires s.runner.Notifying? && s.tokens == 1 && s.requireCh == [] && s.clients == 0
    ensures CanGetClient(s)
  {
    var i, req := |s.callers|, Request(false);
    var s1 := Apply(s, Call(req));
    var s2 := Apply(s1, Look(i, 0));
    var s3 := Apply(s2, Send(i));
    FromWaiting(s3, i);
    Earlier(s2, Send(i));
    Earlier(s1, Look(i, 0));
    Earlier(s, Call(req));
  }

  lemma FromFree(s: State)
    requires Inv(s) && !s.cancelled && !Doomed(s) && s.clients == 0 && s.runner.Notifying?
    ensures CanGetClient(s)
  {
    if s.tokens == 0 {
      FromNotifying(s);
    } else if s.requireCh == [] {
      FromRoom(s);
    } else {
      var i :| 0 <= i < |s.callers| && s.callers[i].Waiting?;
      FromWaiting(s, i);
    }
  }

  lemma NotDoomedGetsClient(s: State)
    requires Inv(s) && !s.cancelled && !Doomed(s)
    ensures CanGetClient(s)
  {
    if s.clients > 0 {
      ClientIsThere(s);
    } else if s.runner.Selecting? {
      FromSelecting(s);
    } else if s.runner.Notifying? {
      FromFree(s);
    } else if s.runner.req.Some? && s.runner.req.value.loops {
      StepKeepsInv(s, Resolved(0));
      FromFree(Apply(s, Resolved(0)));
      Earlier(s, Resolved(0));
    } else {
      FromResolving(s);
    }
  }

  /** Before Exit a client can still come if and only if the state is not doomed. */
  lemma ClientIffNotDoomed(clients: nat, run: seq<Action>)
    requires IsRun(Start(clients), run) && !Exec(Start(clients), run).cancelled
    ensures CanGetClient(Exec(Start(clients), run)) <==> !Doomed(Exec(Start(clients), run))
  {
    RunKeepsInv(Start(clients), run);
    var s := Exec(Start(clients), run);
    if Doomed(s) {
      forall more | GetsClient(s, more) ensures false {
        StaysDoomed(s, more);
      }
    } else {
      NotDoomedGetsClient(s);
    }
  }

  /** So once doomed, every run without Exit stays so, and every call that returns comes back empty. */
  lemma {:induction false} JamLastsUntilExit(s: State, run: seq<Action>, i: nat)
    requires Doomed(s) && IsRun(s, run) && Exit !in run
    ensures Doomed(Exec(s, run)) && (Jammed(s) ==> Jammed(Exec(s, run))) && |s.callers| <= |Exec(s, run).callers|
    ensures i < |Exec(s, run).callers| && (i < |s.callers| ==> !s.callers[i].Returned?) ==>
            (Exec(s, run).callers[i].Returned? ==> Exec(s, run).callers[i].client == None)
    decreases |run|
  {
    if run != [] {
      assert run[0] in run;
      StepStaysDoomed(s, run[0]);
      var s' := Apply(s, run[0]);
      if i < |s'.callers| && s'.callers[i].Returned? && (i < |s.callers| ==> !s.callers[i].Returned?) {
        assert s'.callers[i].client == None;
        ReturnedStays(s', run[1..], i);
      }
      JamLastsUntilExit(s', run[1..], i);
    }
  }

  lemma {:induction false} ReturnedStays(s: State, run: seq<Action>, i: nat)
    requires IsRun(s, run) && i < |s.callers| && s.callers[i].Returned?
    ensures i < |Exec(s, run).callers| && Exec(s, run).callers[i] == s.callers[i]
    decreases |run|
  {
    if run != [] {
      ReturnedStays(Apply(s, run[0]), run[1..], i);
    }
  }

  ghost predicate Reachable(s: State) {
    exists run :: IsRun(Start(0), run) && Exec(Start(0), run) == s
  }

  lemma {:induction false} ExecThen(s: State, run: seq<Action>, a: Action)
    requires IsRun(s, run) && Enabled(Exec(s, run), a)
    ensures IsRun(s, run + [a]) && Exec(s, run + [a]) == Apply(Exec(s, run), a)
    decreases |run|
  {
    if run == [] {
      assert run + [a] == [a];
      assert [a][1..] == [];
    } else {
      assert (run + [a])[0] == run[0] && (run + [a])[1..] == run[1..] + [a];
      ExecThen(Apply(s, run[0]), run[1..], a);
    }
  }

  lemma Go(s: State, a: Action) returns (s': State)
    requires Reachable(s) && Enabled(s, a)
    ensures s' == Apply(s, a) && Reachable(s')
  {
    var run :| IsRun(Start(0), run) && Exec(Start(0), run) == s;
    ExecThen(Start(0), run, a);
    s' := Apply(s, a);
  }

  /** A call joins and finds no client. */
  lemma Join(s: State, req: Request) returns (s': State, i: nat)
    requires Reachable(s) && s.clients == 0
    ensures Reachable(s') && i == |s.callers| && s' == s.(callers := s.callers + [Sending(req)])
  {
    i := |s.callers|;
    s' := Go(s, Call(req));
    s' := Go(s', Look(i, 0));
    assert s'.callers == s.callers + [Sending(req)];
  }

  /** A call joins, sends its request, and its context ends. */
  lemma SendAndAbandon(s: State, req: Request) returns (s': State)
    requires Reachable(s) && s.clients == 0 && s.requireCh == []
    ensures Reachable(s') && s' == s.(callers := s.callers + [Abandoned], requireCh := [req])
  {
    var i;
    s', i := Join(s, req);
    s' := Go(s', Send(i));
    s' := Go(s', GiveUp(i));
    assert s'.callers == s.callers + [Abandoned];
  }

  /** Three slow, failed resolutions jam the handshake with a fourth call waiting to send. */
  lemma JamIsReachable(req: Request) returns (s: State)
    ensures Reachable(s) && Jammed(s) && s.callers == [Abandoned, Abandoned, Abandoned, Sending(req)]
  {
    assert IsRun(Start(0), []) && Exec(Start(0), []) == Start(0);
    s := SendAndAbandon(Start(0), req);
    s := Go(s, TakeRequest);
    s := Go(s, Resolved(0));
    s := Go(s, Notify);
    s := SendAndAbandon(s, req);
    s := Go(s, TakeRequest);
    s := Go(s, Resolved(0));
    s := SendAndAbandon(s, req);
    var i;
    s, i := Join(s, req);
    assert s.callers == [Abandoned, Abandoned, Abandoned, Sending(req)];
  }

  /** The other doomed states are reachable too: the third request is one for the upstream's own name. */
  lemma LoopingDoomIsReachable(req: Request) returns (s: State)
    requires req.loops
    ensures Reachable(s) && Doomed(s) && s.runner == Resolving(Some(req))
  {
    assert IsRun(Start(0), []) && Exec(Start(0), []) == Start(0);
    s := SendAndAbandon(Start(0), req);
    s := Go(s, TakeRequest);
    s := Go(s, Resolved(0));
    s := Go(s, Notify);
    s := SendAndAbandon(s, req);
    s := Go(s, TakeRequest);
    s := SendAndAbandon(s, req);
  }

  /** Once a client exists there always is one, so from then on no call needs the handshake. */
  lemma {:induction false} ClientsStay(s: State, run: seq<Action>)
    requires IsRun(s, run) && s.clients > 0
    ensures Exec(s, run).clients > 0
    decreases |run|
  {
    if run != [] {
      ClientsStay(Apply(s, run[0]), run[1..]);
    }
  }

  // ------------------------------------------------------------------------------------------------
  // What calls return

  /** A call comes back without a client only by giving up, by Exit, or while there is none; else with one of them. */
  lemma ReturnsAre(clients: nat, run: seq<Action>, a: Action, i: nat)
    requires IsRun(Start(clients), run) && Enabled(Exec(Start(clients), run), a)
    requires At(Apply(Exec(Start(clients), run), a), i) && Apply(Exec(Start(clients), run), a).callers[i].Returned?
    requires At(Exec(Start(clients), run), i) ==> !Exec(Start(clients), run).callers[i].Returned?
    ensures var s := Exec(Start(clients), run);
            match Apply(s, a).callers[i].client
            case None => a == GiveUp(i) || (a == SeeCancel(i) && s.cancelled) || s.clients == 0
            case Some(d) => d < s.clients
  {
  }

  /** With clients built, a call that looks, or looks again, comes back at its next step, with any one of them. */
  lemma ClientsAreReturned(s: State, i: nat, d: nat)
    requires At(s, i) && (s.callers[i].Looking? || s.callers[i].Rereading?) && d < s.clients
    ensures var a := if s.callers[i].Looking? then Look(i, d) else Reread(i, d);
            Enabled(s, a) && Apply(s, a).callers == s.callers[i := Returned(Some(d))]
    ensures forall a | Enabled(s, a) && At(Apply(s, a), i) && Apply(s, a).callers[i] != s.callers[i] ::
              Apply(s, a).callers[i].Returned? && Apply(s, a).callers[i].client.Some?
  {
  }

  /** Clients are replaced by what a resolution finds, if it finds any and does not loop, and by nothing else. */
  lemma ClientsAreFound(s: State, a: Action)
    requires Enabled(s, a)
    ensures Apply(s, a).clients != s.clients ==>
              && a.Resolved? && a.found > 0 && Apply(s, a).clients == a.found
              && s.runner.Resolving? && !(s.runner.req.Some? && s.runner.req.value.loops)
    ensures a.Resolved? && a.found > 0 && !(s.runner.req.Some? && s.runner.req.value.loops) ==>
              Apply(s, a).clients == a.found
  {
  }

  /** While there are clients only a tick resolves; a request taken then is answered at once. */
  lemma OnlyTicksResolve(s: State, a: Action)
    requires Enabled(s, a) && s.clients > 0 && !s.runner.Resolving?
    ensures Apply(s, a).runner.Resolving? ==> a.Tick?
    ensures a.TakeRequest? ==> Apply(s, a).runner.Notifying?
  {
  }

  /** Nothing is under way. */
  predicate Free(s: State) {
    s.runner.Selecting? && s.requireCh == [] && s.tokens == 0
  }

  lemma RunOne(s: State, a: Action, run: seq<Action>)
    requires Enabled(s, a) && IsRun(Apply(s, a), run)
    ensures IsRun(s, [a] + run) && Exec(s, [a] + run) == Exec(Apply(s, a), run)
  {
    assert ([a] + run)[0] == a && ([a] + run)[1..] == run;
  }

  /** The three parts of a call's way through the handshake: its request sent, resolved for, and answered. */
  function Ask(i: nat, req: Request): seq<Action> {
    [Call(req), Look(i, 0), Send(i)]
  }

  function Resolve(found: nat): seq<Action> {
    [TakeRequest, Resolved(found)]
  }

  function Answer(i: nat, d: nat): seq<Action> {
    [Notify, Receive(i), Reread(i, d)]
  }

  lemma Asks(s: State, req: Request)
    requires Free(s) && s.clients == 0
    ensures IsRun(s, Ask(|s.callers|, req))
    ensures Exec(s, Ask(|s.callers|, req)) == s.(callers := s.callers + [Waiting], requireCh := [req])
  {
    var i := |s.callers|;
    var s1 := s.(callers := s.callers + [Looking(req)]);
    var s2 := s.(callers := s.callers + [Sending(req)]);
    var s3 := s.(callers := s.callers + [Waiting], requireCh := [req]);
    assert Apply(s, Call(req)) == s1;
    assert s1.callers[i := Sending(req)] == s2.callers && s2.callers[i := Waiting] == s3.callers;
    assert Apply(s1, Look(i, 0)) == s2 && Apply(s2, Send(i)) == s3;
    assert IsRun(s3, []) && Exec(s3, []) == s3;
    RunOne(s2, Send(i), []);
    RunOne(s1, Look(i, 0), [Send(i)]);
    RunOne(s, Call(req), [Look(i, 0), Send(i)]);
  }

  lemma Resolves(s: State, req: Request, found: nat)
    requires s.runner.Selecting? && s.requireCh == [req] && s.clients == 0
    ensures IsRun(s, Resolve(found))
    ensures Exec(s, Resolve(found))
         == s.(requireCh := [], runner := Notifying, clients := if req.loops then 0 else found)
  {
    var s1 := s.(requireCh := [], runner := Resolving(Some(req)));
    var s2 := s.(requireCh := [], runner := Notifying, clients := if req.loops then 0 else found);
    assert Apply(s, TakeRequest) == s1 && Apply(s1, Resolved(found)) == s2;
    assert IsRun(s2, []) && Exec(s2, []) == s2;
    RunOne(s1, Resolved(found), []);
    RunOne(s, TakeRequest, [Resolved(found)]);
  }

  lemma Answers(s: State, callers: seq<CallerPC>, d: nat)
    requires s.runner.Notifying? && s.tokens == 0 && s.callers == callers + [Waiting]
    requires s.clients > 0 ==> d < s.clients
    ensures IsRun(s, Answer(|callers|, d))
    ensures Exec(s, Answer(|callers|, d))
         == s.(runner := Selecting, callers := callers + [Returned(if s.clients > 0 then Some(d) else None)])
  {
    var i, back := |callers|, Returned(if s.clients > 0 then Some(d) else None);
    var s1 := s.(runner := Selecting, tokens := 1);
    var s2 := s.(runner := Selecting, callers := callers + [Rereading]);
    var s3 := s.(runner := Selecting, callers := callers + [back]);
    assert s.callers[i := Rereading] == s2.callers && s2.callers[i := back] == s3.callers;
    assert Apply(s, Notify) == s1 && Apply(s1, Receive(i)) == s2 && Apply(s2, Reread(i, d)) == s3;
    assert IsRun(s3, []) && Exec(s3, []) == s3;
    RunOne(s2, Reread(i, d), []);
    RunOne(s1, Receive(i), [Reread(i, d)]);
    RunOne(s, Notify, [Receive(i), Reread(i, d)]);
  }

  lemma {:induction false} RunsConcat(s: State, a: seq<Action>, b: seq<Action>)
    requires IsRun(s, a) && IsRun(Exec(s, a), b)
    ensures IsRun(s, a + b) && Exec(s, a + b) == Exec(Exec(s, a), b)
    decreases |a|
  {
    if a == [] {
      assert a + b == b;
    } else {
      assert (a + b)[0] == a[0] && (a + b)[1..] == a[1..] + b;
      RunsConcat(Apply(s, a[0]), a[1..], b);
    }
  }

  /**
   Where nothing is under way and no client is built, one call gets what its own resolution finds, without a tick: any
   client of those found, or none if nothing is found or the request loops.
   */
  lemma OneCallReturns(s: State, req: Request, found: nat, d: nat)
    requires Free(s) && s.clients == 0 && (found > 0 ==> d < found)
    ensures var run := Ask(|s.callers|, req) + Resolve(found) + Answer(|s.callers|, d);
            && IsRun(s, run)
            && Exec(s, run)
            == s.(clients := if req.loops then 0 else found,
                  callers := s.callers + [Returned(if found > 0 && !req.loops then Some(d) else None)])
  {
    var i := |s.callers|;
    Asks(s, req);
    var asked := Exec(s, Ask(i, req));
    Resolves(asked, req, found);
    RunsConcat(s, Ask(i, req), Resolve(found));
    var resolved := Exec(asked, Resolve(found));
    Answers(resolved, s.callers, d);
    RunsConcat(s, Ask(i, req) + Resolve(found), Answer(i, d));
  }

  /** After Exit every call that has not come back can, and so can run, whatever it is doing. */
  lemma ExitFrees(s: State, i: nat)
    requires s.cancelled && At(s, i)
    ensures s.callers[i].Sending? || s.callers[i].Waiting? ==>
              Enabled(s, SeeCancel(i)) && Apply(s, SeeCancel(i)).callers == s.callers[i := Returned(None)]
  {
  }

  lemma RunEnds(s: State) returns (run: seq<Action>)
    requires s.cancelled
    ensures IsRun(s, run) && Exec(s, run).runner.Exited? && |run| <= 3 && Exec(s, run).callers == s.callers
  {
    match s.runner {
      case Exited => run := [];
      case Selecting => run := [RunExit];
      case Notifying =>
        RunOne(Apply(s, NotifyCancelled), RunExit, []);
        RunOne(s, NotifyCancelled, [RunExit]);
        run := [NotifyCancelled, RunExit];
      case Resolving(req) =>
        var s1 := Apply(s, Resolved(0));
        var rest := if req.Some? then [NotifyCancelled, RunExit] else [RunExit];
        if req.Some? {
          RunOne(Apply(s1, NotifyCancelled), RunExit, []);
          RunOne(s1, NotifyCancelled, [RunExit]);
        }
        RunOne(s, Resolved(0), rest);
        run := [Resolved(0)] + rest;
    }
  }
}
