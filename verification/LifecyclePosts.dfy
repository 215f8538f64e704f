/**
 What a handler's groups are while it is published, and what becomes of the tasks that requests post to them: every one
 is offered to its queue, in order, and taken if there is room; and a started worker empties its queue.
 */
module LifecyclePosts {
  import opened Options
  import opened Lifecycle
  import opened LifecycleInvariant
  import opened LifecycleSafety
  import opened LifecycleService

  // ------------------------------------------------------------------------------------------------
  // The groups of a handler

  /** The groups handler h was built with, as their GFW list flags. */
  function UrlsOf(run: seq<Action>, h: Hid): Option<seq<bool>> {
    if run == [] then None
    else
      var a := run[|run| - 1];
      if a.Admitting? && a.admit.Build? && a.admit.h == h then Some(a.admit.urls) else UrlsOf(run[..|run| - 1], h)
  }

  ghost predicate Shaped(hd: Handler, urls: seq<bool>) {
    |hd.groups| == |urls| && forall g | 0 <= g < |urls| :: hd.groups[g].url == urls[g]
  }

  ghost predicate SameShape(hd: Handler, hd': Handler) {
    |hd'.groups| == |hd.groups| && forall g | 0 <= g < |hd.groups| :: hd'.groups[g].url == hd.groups[g].url
  }

  ghost predicate AllShaped(s: State, run: seq<Action>) {
    forall h :: if h in s.handlers then UrlsOf(run, h).Some? && Shaped(s.handlers[h], UrlsOf(run, h).value)
                else UrlsOf(run, h) == None
  }

  lemma ServeShape(s: State, t: Tid, b: ServeAct, h: Hid)
    requires t in s.threads && CanServe(s, t, s.threads[t], b)
    ensures h in Serve(s, t, s.threads[t], b).handlers <==> h in s.handlers
    ensures h in s.handlers ==> SameShape(s.handlers[h], Serve(s, t, s.threads[t], b).handlers[h])
  {
  }

  lemma AdmitShape(s: State, t: Tid, b: AdmitAct, h: Hid)
    requires t in s.threads && CanAdmit(s, t, s.threads[t], b) && !(b.Build? && b.h == h)
    ensures h in Admit(s, t, s.threads[t], b).handlers <==> h in s.handlers
    ensures h in s.handlers ==> SameShape(s.handlers[h], Admit(s, t, s.threads[t], b).handlers[h])
  {
  }

  lemma BuildShape(s: State, t: Tid, h: Hid, urls: seq<bool>)
    requires t in s.threads && CanAdmit(s, t, s.threads[t], Build(h, urls))
    ensures h in Admit(s, t, s.threads[t], Build(h, urls)).handlers
    ensures Shaped(Admit(s, t, s.threads[t], Build(h, urls)).handlers[h], urls)
  {
  }

  lemma SwapShape(s: State, t: Tid, b: SwapAct, h: Hid)
    requires t in s.threads && CanSwap(s, t, s.threads[t], b)
    ensures h in SwapStep(s, t, s.threads[t], b).handlers <==> h in s.handlers
    ensures h in s.handlers ==> SameShape(s.handlers[h], SwapStep(s, t, s.threads[t], b).handlers[h])
  {
  }

  lemma RetireShape(s: State, t: Tid, b: StopAct, h: Hid)
    requires t in s.threads && CanRetire(s, t, s.threads[t], b)
    ensures h in Retire(s, t, s.threads[t], b).handlers <==> h in s.handlers
    ensures h in s.handlers ==> SameShape(s.handlers[h], Retire(s, t, s.threads[t], b).handlers[h])
  {
  }

  lemma StepShape(s: State, a: Action, h: Hid)
    requires Enabled(s, a) && !(a.Admitting? && a.admit.Build? && a.admit.h == h)
    ensures h in Apply(s, a).handlers <==> h in s.handlers
    ensures h in s.handlers ==> SameShape(s.handlers[h], Apply(s, a).handlers[h])
  {
    match a
    case Serving(t, b) => ServeShape(s, t, b, h);
    case Admitting(t, b) => AdmitShape(s, t, b, h);
    case Swapping(t, b) => SwapShape(s, t, b, h);
    case Retiring(t, b) => RetireShape(s, t, b, h);
    case _ =>
  }

  lemma ShapedStep(s: State, run: seq<Action>, a: Action)
    requires AllShaped(s, run) && Enabled(s, a)
    ensures AllShaped(Apply(s, a), run + [a])
  {
    forall h
      ensures if h in Apply(s, a).handlers then
                UrlsOf(run + [a], h).Some? && Shaped(Apply(s, a).handlers[h], UrlsOf(run + [a], h).value)
              else UrlsOf(run + [a], h) == None
    {
      assert (run + [a])[..|run|] == run;
      if a.Admitting? && a.admit.Build? && a.admit.h == h {
        BuildShape(s, a.t, h, a.admit.urls);
      } else {
        StepShape(s, a, h);
      }
    }
  }

  lemma {:induction false} RunShaped(run: seq<Action>)
    requires IsRun(INIT, run)
    ensures AllShaped(Exec(INIT, run), run)
    decreases |run|
  {
    if run != [] {
      var front := run[..|run| - 1];
      RunFront(INIT, run);
      RunShaped(front);
      ShapedStep(Exec(INIT, front), front, run[|run| - 1]);
      assert run == front + [run[|run| - 1]];
    }
  }

  /**
   The published handler has the groups it was built with; each was started and is not being stopped, its worker is
   waiting or adding, and it refreshes its GFW list exactly when it has one to fetch.
   */
  lemma PublishedIsRunning(run: seq<Action>, h: Hid)
    requires IsRun(INIT, run) && Exec(INIT, run).ptr == Some(h)
    ensures var s := Exec(INIT, run);
            && h in s.handlers && UrlsOf(run, h).Some? && |s.handlers[h].groups| == |UrlsOf(run, h).value|
            && forall g: nat | g < |s.handlers[h].groups| ::
                 var gr := s.handlers[h].groups[g];
                 && gr.started && !gr.stopCh && (gr.worker.Selecting? || gr.worker.Adding?)
                 && (gr.refreshing <==> UrlsOf(run, h).value[g])
  {
    RunKeepsInv(INIT, run);
    RunShaped(run);
    var s := Exec(INIT, run);
    assert Running(s.handlers[h]);
    forall g: nat | g < |s.handlers[h].groups| ensures GroupInv(s.handlers[h].groups[g]) {
      assert HasGroup(s, h, g);
    }
  }

  // ------------------------------------------------------------------------------------------------
  // What requests post

  /** All tasks call t posted, in order. */
  function PostedBy(run: seq<Action>, t: Tid): seq<Task> {
    if run == [] then []
    else
      var front, a := PostedBy(run[..|run| - 1], t), run[|run| - 1];
      if a.Serving? && a.t == t && a.serve.Post? then front + a.serve.tasks else front
  }

  /** The group it posted to last. */
  function PostedTo(run: seq<Action>, t: Tid): nat {
    if run == [] then 0
    else
      var a := run[|run| - 1];
      if a.Serving? && a.t == t && a.serve.Post? then a.serve.g else PostedTo(run[..|run| - 1], t)
  }

  /** How many of its tasks it has offered. */
  function OfferedBy(run: seq<Action>, t: Tid): nat {
    if run == [] then 0
    else
      var a := run[|run| - 1];
      OfferedBy(run[..|run| - 1], t) + if a == Serving(t, Enqueue) then 1 else 0
  }

  /** The tasks of call t that are still to be offered. */
  function Pending(pc: PC): seq<Task> {
    if pc.ServeIn? then pc.tasks else []
  }

  ghost predicate PostsFollow(s: State, run: seq<Action>, t: Tid) {
    && OfferedBy(run, t) <= |PostedBy(run, t)|
    && PostedBy(run, t)[OfferedBy(run, t)..] == PendingAt(s, t)
    && (PendingAt(s, t) != [] ==> s.threads[t].g == PostedTo(run, t))
  }

  lemma OneMorePost(run: seq<Action>, a: Action, t: Tid)
    ensures PostedBy(run + [a], t)
         == PostedBy(run, t) + if a.Serving? && a.t == t && a.serve.Post? then a.serve.tasks else []
    ensures PostedTo(run + [a], t)
         == if a.Serving? && a.t == t && a.serve.Post? then a.serve.g else PostedTo(run, t)
    ensures OfferedBy(run + [a], t) == OfferedBy(run, t) + if a == Serving(t, Enqueue) then 1 else 0
  {
    assert (run + [a])[..|run|] == run;
  }

  function PendingAt(s: State, t: Tid): seq<Task> {
    if t in s.threads then Pending(s.threads[t]) else []
  }

  lemma ServePending(s: State, u: Tid, b: ServeAct, t: Tid)
    requires u in s.threads && CanServe(s, u, s.threads[u], b) && !(u == t && (b.Post? || b.Enqueue?))
    ensures PendingAt(Serve(s, u, s.threads[u], b), t) == PendingAt(s, t)
    ensures PendingAt(s, t) != [] ==> Serve(s, u, s.threads[u], b).threads[t] == s.threads[t]
  {
  }

  lemma AdmitPending(s: State, u: Tid, b: AdmitAct, t: Tid)
    requires u in s.threads && CanAdmit(s, u, s.threads[u], b)
    ensures PendingAt(Admit(s, u, s.threads[u], b), t) == PendingAt(s, t)
    ensures PendingAt(s, t) != [] ==> Admit(s, u, s.threads[u], b).threads[t] == s.threads[t]
  {
  }

  lemma SwapPending(s: State, u: Tid, b: SwapAct, t: Tid)
    requires u in s.threads && CanSwap(s, u, s.threads[u], b)
    ensures PendingAt(SwapStep(s, u, s.threads[u], b), t) == PendingAt(s, t)
    ensures PendingAt(s, t) != [] ==> SwapStep(s, u, s.threads[u], b).threads[t] == s.threads[t]
  {
  }

  lemma RetirePending(s: State, u: Tid, b: StopAct, t: Tid)
    requires u in s.threads && CanRetire(s, u, s.threads[u], b)
    ensures PendingAt(Retire(s, u, s.threads[u], b), t) == PendingAt(s, t)
    ensures PendingAt(s, t) != [] ==> Retire(s, u, s.threads[u], b).threads[t] == s.threads[t]
  {
  }

  /** A step that is none of t's posts and offers leaves its tasks to be offered alone. */
  lemma PendingStays(s: State, a: Action, t: Tid)
    requires Enabled(s, a) && !(a.Serving? && a.t == t && (a.serve.Post? || a.serve.Enqueue?))
    ensures PendingAt(Apply(s, a), t) == PendingAt(s, t)
    ensures PendingAt(s, t) != [] ==> Apply(s, a).threads[t] == s.threads[t]
  {
    match a
    case Serving(u, b) => ServePending(s, u, b, t);
    case Admitting(u, b) => AdmitPending(s, u, b, t);
    case Swapping(u, b) => SwapPending(s, u, b, t);
    case Retiring(u, b) => RetirePending(s, u, b, t);
    case _ =>
  }

  lemma PostsStep(s: State, run: seq<Action>, a: Action, t: Tid)
    requires PostsFollow(s, run, t) && Enabled(s, a)
    ensures PostsFollow(Apply(s, a), run + [a], t)
  {
    OneMorePost(run, a, t);
    if a.Serving? && a.t == t && a.serve.Post? {
      assert PostedBy(run, t)[OfferedBy(run, t)..] == [];
      assert (PostedBy(run, t) + a.serve.tasks)[OfferedBy(run, t)..] == a.serve.tasks;
    } else if a == Serving(t, Enqueue) {
      assert PostedBy(run, t)[OfferedBy(run, t)..][1..] == PostedBy(run, t)[OfferedBy(run, t) + 1..];
    } else {
      PendingStays(s, a, t);
    }
  }

  lemma {:induction false} RunPosts(run: seq<Action>, t: Tid)
    requires IsRun(INIT, run)
    ensures PostsFollow(Exec(INIT, run), run, t)
    decreases |run|
  {
    if run == [] {
      NothingPosted(t);
    } else {
      var front, a := run[..|run| - 1], run[|run| - 1];
      RunFront(INIT, run);
      RunPosts(front, t);
      PostsThen(Exec(INIT, front), front, a, t, Exec(INIT, run), run);
    }
  }

  lemma NothingPosted(t: Tid)
    ensures PostsFollow(INIT, [], t)
  {
  }

  lemma PostsThen(s: State, front: seq<Action>, a: Action, t: Tid, s': State, run: seq<Action>)
    requires PostsFollow(s, front, t) && Enabled(s, a) && s' == Apply(s, a) && run == front + [a]
    ensures PostsFollow(s', run, t)
  {
    PostsStep(s, front, a, t);
  }

  /**
   A request inside a handler can post client tasks to any of its groups, and can offer a task it has posted; the next
   one it offers is the first it has not offered yet. The queue of the group posted to takes it, behind all it took
   before, if and only if it holds fewer than 1024, and no other group is touched.
   */
  lemma PostIsOffered(run: seq<Action>, t: Tid)
    requires IsRun(INIT, run) && t in Exec(INIT, run).threads && Exec(INIT, run).threads[t].ServeIn?
    ensures var s := Exec(INIT, run); var h := s.threads[t].h; var k := OfferedBy(run, t);
            && (k == |PostedBy(run, t)| ==>
                  forall g: nat, tasks: seq<Task> | HasGroup(s, h, g) && (forall x | x in tasks :: x.client) ::
                    Enabled(s, Serving(t, Post(g, tasks))))
            && (k < |PostedBy(run, t)| ==>
                  Enabled(s, Serving(t, Enqueue)) && Offers(s, t, h, PostedTo(run, t), PostedBy(run, t)[k]))
  {
    RunKeepsInv(INIT, run);
    RunPosts(run, t);
    if OfferedBy(run, t) < |PostedBy(run, t)| {
      NextOffered(Exec(INIT, run), run, t);
    }
  }

  lemma NextOffered(s: State, run: seq<Action>, t: Tid)
    requires ServeInv(s) && PostsFollow(s, run, t) && t in s.threads && s.threads[t].ServeIn?
    requires OfferedBy(run, t) < |PostedBy(run, t)|
    ensures Enabled(s, Serving(t, Enqueue))
    ensures Offers(s, t, s.threads[t].h, PostedTo(run, t), PostedBy(run, t)[OfferedBy(run, t)])
  {
    var k, posted, pc := OfferedBy(run, t), PostedBy(run, t), s.threads[t];
    assert posted[k..][0] == posted[k];
    OfferIs(s, t, pc.h, pc.g, posted[k], pc.tasks[1..]);
  }

  /** The offer of a task to the queue of group g, and what it changes. */
  ghost predicate Offers(s: State, t: Tid, h: Hid, g: nat, task: Task)
    requires Enabled(s, Serving(t, Enqueue))
  {
    var s' := Apply(s, Serving(t, Enqueue));
    && HasGroup(s, h, g) && HasGroup(s', h, g) && t in s'.threads
    && GroupAt(s', h, g).accepted
       == GroupAt(s, h, g).accepted + (if |GroupAt(s, h, g).queue| < 1024 then [task] else [])
    && s' == SetPC(SetGroup(s, h, g, GroupAt(s', h, g)), t, s'.threads[t])
  }

  lemma OfferIs(s: State, t: Tid, h: Hid, g: nat, task: Task, rest: seq<Task>)
    requires t in s.threads && s.threads[t] == ServeIn(h, g, [task] + rest) && HasGroup(s, h, g)
    ensures Enabled(s, Serving(t, Enqueue)) && Offers(s, t, h, g, task)
  {
    var s' := Apply(s, Serving(t, Enqueue));
    var groups := s.handlers[h].groups;
    assert groups[g := groups[g]] == groups;
    assert s.handlers[h := s.handlers[h].(groups := groups)] == s.handlers;
  }

  /** When a request has returned, all it posted has been offered. */
  lemma AllOffered(run: seq<Action>, t: Tid)
    requires IsRun(INIT, run) && t in Exec(INIT, run).threads && Exec(INIT, run).threads[t].Done?
    ensures OfferedBy(run, t) == |PostedBy(run, t)|
  {
    RunPosts(run, t);
  }

  // ------------------------------------------------------------------------------------------------
  // The worker empties its queue

  ghost predicate GroupRun(gr: Group, acts: seq<GroupAct>)
    decreases |acts|
  {
    acts == [] || (CanGroup(gr, acts[0]) && GroupRun(GroupStep(gr, acts[0]), acts[1..]))
  }

  ghost function GroupExec(gr: Group, acts: seq<GroupAct>): Group
    requires GroupRun(gr, acts)
    decreases |acts|
  {
    if acts == [] then gr else GroupExec(GroupStep(gr, acts[0]), acts[1..])
  }

  lemma FirstAct(gr: Group, a: GroupAct, acts: seq<GroupAct>)
    requires CanGroup(gr, a) && GroupRun(GroupStep(gr, a), acts)
    ensures GroupRun(gr, [a] + acts) && GroupExec(gr, [a] + acts) == GroupExec(GroupStep(gr, a), acts)
  {
    assert ([a] + acts)[0] == a && ([a] + acts)[1..] == acts;
  }

  /** By its own steps a worker that runs hands all the queue holds to Add, in order, and waits again. */
  lemma {:induction false} WorkerEmptiesQueue(gr: Group) returns (acts: seq<GroupAct>)
    requires gr.worker.Selecting? || gr.worker.Adding?
    ensures GroupRun(gr, acts)
    ensures GroupExec(gr, acts) == gr.(worker := Selecting, queue := [], added := gr.added + Held(gr.worker) + gr.queue)
    decreases |gr.queue|, if gr.worker.Adding? then 1 else 0
  {
    if gr.worker.Adding? {
      var task := gr.worker.task;
      var rest := WorkerEmptiesQueue(GroupStep(gr, Add));
      FirstAct(gr, Add, rest);
      acts := [Add] + rest;
      assert gr.added + [task] + Held(Selecting) + gr.queue == gr.added + [task] + gr.queue;
    } else if gr.queue != [] {
      var took := GroupStep(gr, Take);
      var rest := WorkerEmptiesQueue(took);
      FirstAct(gr, Take, rest);
      acts := [Take] + rest;
      assert gr.added + Held(gr.worker) + gr.queue == gr.added + [gr.queue[0]] + gr.queue[1..];
    } else {
      acts := [];
      assert gr.added + Held(gr.worker) + gr.queue == gr.added;
    }
  }
}
