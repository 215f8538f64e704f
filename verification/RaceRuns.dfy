/**
 What a race comes to, read off the list of its actions alone: which result is returned, and what is recorded. The
 channel is first in, first out, so the results are taken in the order they were sent.
 */
module RaceRuns {
  import opened Options
  import opened HostSelection
  import opened Permutations
  import opened Race

  /** The callers whose results were sent, in order. */
  function Sends(actions: seq<Action>): seq<nat> {
    if actions == [] then []
    else
      var front, a := Sends(actions[..|actions| - 1]), actions[|actions| - 1];
      if a.Send? then front + [a.i] else front
  }

  /** How many results were received. */
  function Receives(actions: seq<Action>): nat {
    if actions == [] then 0
    else Receives(actions[..|actions| - 1]) + if actions[|actions| - 1].Receive? then 1 else 0
  }

  /** The callers whose results were received. */
  function Taken(actions: seq<Action>): seq<nat> {
    if Receives(actions) <= |Sends(actions)| then Sends(actions)[..Receives(actions)] else []
  }

  predicate Succeeded(actions: seq<Action>, i: nat) {
    Succeed(i) in actions
  }

  /** The call came back without a response, by an error that counts against the caller or by cancellation. */
  ghost predicate Lost(actions: seq<Action>, i: nat) {
    Cancelled(i) in actions || exists used :: Fail(i, used) in actions
  }

  /** What is recorded: every failure, when it comes, and the first success that is received. */
  function Recorded(actions: seq<Action>, host: string): seq<Event> {
    if actions == [] then []
    else
      var front, a := actions[..|actions| - 1], actions[|actions| - 1];
      Recorded(front, host)
      + match a
        case Fail(i, used) => [Failure(host, i, used)]
        case Receive(now, used) =>
          var k := Receives(front);
          if k < |Sends(front)| && Succeeded(front, Sends(front)[k]) then [Success(host, Sends(front)[k], now, used)]
          else []
        case _ => []
  }

  lemma OneMore(actions: seq<Action>, a: Action)
    ensures (actions + [a])[..|actions|] == actions
    ensures forall b :: b in actions + [a] <==> b in actions || b == a
    ensures Sends(actions + [a]) == Sends(actions) + if a.Send? then [a.i] else []
    ensures Receives(actions + [a]) == Receives(actions) + if a.Receive? then 1 else 0
  {
    assert (actions + [a])[..|actions|] == actions;
  }

  // ------------------------------------------------------------------------------------------------
  // The state follows the list

  /** Each attempt is where its actions have brought it. */
  ghost predicate AttemptsFollow(s: State, n: nat, actions: seq<Action>) {
    && |s.attempts| == n
    && forall i: nat | i < n ::
         && (s.attempts[i].Calling? <==> !Succeeded(actions, i) && !Lost(actions, i))
         && (!s.attempts[i].Calling? ==> (s.attempts[i].ok <==> Succeeded(actions, i)))
         && (s.attempts[i].Sent? <==> Send(i) in actions)
  }

  ghost predicate ChannelFollows(s: State, actions: seq<Action>) {
    s.received + s.buffer == Sends(actions) && |s.received| == Receives(actions)
  }

  /** A cancelled query that still waits was cancelled from outside, and so was one that gave up. */
  ghost predicate CancelFollows(s: State, actions: seq<Action>) {
    && (s.cancelled && s.outcome == Receiving ==> CancelParent in actions)
    && (s.aborted <==> Abort in actions)
    && (s.aborted ==> CancelParent in actions && s.outcome == Returned(None))
  }

  lemma AttemptStep(s: State, n: nat, host: string, actions: seq<Action>, a: Action)
    requires AttemptsFollow(s, n, actions) && Enabled(s, a)
    ensures AttemptsFollow(Race.Step(s, a, host), n, actions + [a])
  {
    OneMore(actions, a);
    var t := Race.Step(s, a, host);
    forall i: nat | i < n
      ensures Succeeded(actions + [a], i) <==> Succeeded(actions, i) || a == Succeed(i)
      ensures Lost(actions + [a], i) <==> Lost(actions, i) || a == Cancelled(i) || (a.Fail? && a.i == i)
      ensures Send(i) in actions + [a] <==> Send(i) in actions || a == Send(i)
    {
      if a.Fail? && a.i == i {
        assert Fail(i, a.used) in actions + [a];
      }
    }
  }

  lemma ChannelStep(s: State, host: string, actions: seq<Action>, a: Action)
    requires ChannelFollows(s, actions) && Enabled(s, a)
    ensures ChannelFollows(Race.Step(s, a, host), actions + [a])
  {
    OneMore(actions, a);
    var t := Race.Step(s, a, host);
    if a.Receive? {
      assert t.received + t.buffer == s.received + s.buffer;
    } else if a.Send? {
      assert t.received + t.buffer == (s.received + s.buffer) + [a.i];
    }
  }

  lemma CancelStep(s: State, host: string, actions: seq<Action>, a: Action)
    requires CancelFollows(s, actions) && Enabled(s, a)
    ensures CancelFollows(Race.Step(s, a, host), actions + [a])
  {
    OneMore(actions, a);
  }

  ghost predicate Follows(s: State, n: nat, host: string, actions: seq<Action>) {
    && AttemptsFollow(s, n, actions) && ChannelFollows(s, actions) && CancelFollows(s, actions)
    && s.log == Recorded(actions, host)
  }

  lemma LogStep(s: State, n: nat, host: string, actions: seq<Action>, a: Action)
    requires Follows(s, n, host, actions) && Counted(s) && Enabled(s, a)
    ensures Race.Step(s, a, host).log == Recorded(actions + [a], host)
  {
    OneMore(actions, a);
    if a.Receive? {
      var w := s.buffer[0];
      assert Sends(actions)[Receives(actions)] == w;
      assert w in s.received + s.buffer;
    }
  }

  lemma {:induction false} RunFollows(n: nat, host: string, actions: seq<Action>, s: State)
    requires n > 0 && Reaches(n, host, actions, s)
    ensures Follows(s, n, host, actions)
    decreases |actions|
  {
    if actions != [] {
      var front, a := actions[..|actions| - 1], actions[|actions| - 1];
      var t := Race.After(n, host, front);
      assert actions == front + [a];
      RunFollows(n, host, front, t);
      ReachedInv(n, host, front, t);
      AttemptStep(t, n, host, front, a);
      ChannelStep(t, host, front, a);
      CancelStep(t, host, front, a);
      LogStep(t, n, host, front, a);
    }
  }

  // ------------------------------------------------------------------------------------------------
  // Outcome and record

  /** No result taken so far is a success. */
  ghost predicate NoneWon(actions: seq<Action>, taken: seq<nat>) {
    forall i | i in taken :: !Succeeded(actions, i)
  }

  /**
   Unless the query gave up after it was cancelled from outside: it returns the first successful result it receives, as
   soon as it does; it returns none once it has received the results of all attempts and none is a success; and until
   then it waits.
   */
  lemma OutcomeIs(n: nat, host: string, actions: seq<Action>, s: State)
    requires n > 0 && Reaches(n, host, actions, s) && Abort !in actions
    ensures var taken := Taken(actions); var last := |taken| - 1;
            && (forall w :: s.outcome == Returned(Some(w)) <==>
                  taken != [] && taken[last] == w && Succeeded(actions, w) && NoneWon(actions, taken[..last]))
            && (s.outcome == Returned(None) <==> |taken| == n && NoneWon(actions, taken))
            && (s.outcome == Receiving <==> |taken| < n && NoneWon(actions, taken))
  {
    RunFollows(n, host, actions, s);
    ReachedInv(n, host, actions, s);
    Fits(s, n, host);
    TakenIs(s, n, host, actions);
    var taken := Taken(actions);
    match s.outcome {
      case Receiving =>
      case Returned(None) =>
      case Returned(Some(w)) =>
        assert taken == taken[..|taken| - 1] + [w];
    }
  }

  lemma TakenIs(s: State, n: nat, host: string, actions: seq<Action>)
    requires Follows(s, n, host, actions) && Inv(s, n, host)
    ensures Taken(actions) == s.received
    ensures forall i | i in s.received :: i < n && s.attempts[i].Sent? && (s.attempts[i].ok <==> Succeeded(actions, i))
  {
    assert (s.received + s.buffer)[..|s.received|] == s.received;
    assert forall i | i in s.received :: i in s.received + s.buffer;
  }

  /** It gives up only if it was cancelled from outside, and then it returns none. */
  lemma AbortIsFromOutside(n: nat, host: string, actions: seq<Action>, s: State)
    requires n > 0 && Reaches(n, host, actions, s) && Abort in actions
    ensures CancelParent in actions && s.outcome == Returned(None)
  {
    RunFollows(n, host, actions, s);
  }

  /** So a query no one cancels returns none if and only if every attempt came back without a response. */
  lemma NoneIffAllLost(n: nat, host: string, actions: seq<Action>, s: State)
    requires n > 0 && Reaches(n, host, actions, s) && CancelParent !in actions && s.outcome.Returned?
    ensures s.outcome == Returned(None) <==> forall i: nat | i < n :: Lost(actions, i) && !Succeeded(actions, i)
  {
    RunFollows(n, host, actions, s);
    OutcomeIs(n, host, actions, s);
    ReachedInv(n, host, actions, s);
    Fits(s, n, host);
    TakenIs(s, n, host, actions);
    if s.outcome == Returned(None) {
      forall i: nat | i < n ensures Lost(actions, i) && !Succeeded(actions, i) {
        FailsOnlyWithoutWinner(n, host, actions, s, i);
        assert i in s.received + s.buffer;
      }
    }
  }

  /** The statistics get every failure and the winner's success, in the order they come about, and nothing else. */
  lemma LogIs(n: nat, host: string, actions: seq<Action>, s: State)
    requires n > 0 && Reaches(n, host, actions, s)
    ensures s.log == Recorded(actions, host)
  {
    RunFollows(n, host, actions, s);
  }

  /** A running call may come back in every way, and a result held may be sent. */
  lemma CallsMayEnd(n: nat, host: string, actions: seq<Action>, s: State, i: nat, used: Time)
    requires n > 0 && Reaches(n, host, actions, s) && i < n
    ensures !Succeeded(actions, i) && !Lost(actions, i) ==>
              Enabled(s, Succeed(i)) && Enabled(s, Fail(i, used)) && Enabled(s, Cancelled(i))
    ensures (Succeeded(actions, i) || Lost(actions, i)) && Send(i) !in actions && Drop(i) !in actions ==>
              Enabled(s, Send(i))
  {
    RunFollows(n, host, actions, s);
    if (Succeeded(actions, i) || Lost(actions, i)) && Send(i) !in actions && Drop(i) !in actions {
      NotDropped(n, host, actions, s, i);
      SendsNeverBlock(n, host, actions, s, i);
    }
  }

  lemma {:induction false} NotDropped(n: nat, host: string, actions: seq<Action>, s: State, i: nat)
    requires n > 0 && Reaches(n, host, actions, s) && i < n && Drop(i) !in actions
    ensures i < |s.attempts| && !s.attempts[i].Dropped?
    decreases |actions|
  {
    ReachedInv(n, host, actions, s);
    if actions != [] {
      var front, a := actions[..|actions| - 1], actions[|actions| - 1];
      assert actions == front + [a];
      NotDropped(n, host, front, Race.After(n, host, front), i);
    }
  }

  /** The caller of the first successful result is the winner, so a result that comes in later changes nothing. */
  lemma OutcomeStays(n: nat, host: string, actions: seq<Action>, s: State, a: Action)
    requires n > 0 && Reaches(n, host, actions, s) && s.outcome.Returned? && Enabled(s, a)
    ensures Race.Step(s, a, host).outcome == s.outcome
  {
  }
}
