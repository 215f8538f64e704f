/** The shuffle of cache/dns.go: a Fisher-Yates shuffle that only touches the positions of address records. */
module Shuffle {
  import opened Permutations

  function Swap<T>(s: seq<T>, i: nat, j: nat): (r: seq<T>)
    requires i < |s| && j < |s|
    ensures |r| == |s|
    ensures forall k | 0 <= k < |s| :: r[k] == if k == i then s[j] else if k == j then s[i] else s[k]
  {
    s[i := s[j]][j := s[i]]
  }

  lemma SwapPermutes<T>(s: seq<T>, i: nat, j: nat)
    requires i < |s| && j < |s|
    ensures multiset(Swap(s, i, j)) == multiset(s)
  {
  }

  /** A draw for each step: the k-th of n - 1 draws chooses among the first n - k positions. */
  predicate Draws(draws: seq<nat>, n: nat) {
    |draws| == (if n == 0 then 0 else n - 1) && forall k | 0 <= k < |draws| :: draws[k] < n - k
  }

  /** A source of draws: for every n, one draw for each step. */
  ghost predicate Drawing(draws: nat -> seq<nat>) {
    forall n: nat :: Draws(draws(n), n)
  }

  lemma DrawsRest(draws: seq<nat>, n: nat)
    requires Draws(draws, n) && n >= 2
    ensures Draws(draws[1..], n - 1)
  {
  }

  /** The last place gets a drawn element, the rest is shuffled the same way. */
  function Shuffled<T>(s: seq<T>, draws: seq<nat>): (r: seq<T>)
    requires Draws(draws, |s|)
    ensures |r| == |s|
    decreases |s|
  {
    if |s| <= 1 then s
    else
      var t := Swap(s, |s| - 1, draws[0]);
      DrawsRest(draws, |s|);
      Shuffled(t[..|s| - 1], draws[1..]) + [t[|s| - 1]]
  }

  lemma {:induction false} ShuffledPermutes<T>(s: seq<T>, draws: seq<nat>)
    requires Draws(draws, |s|)
    ensures multiset(Shuffled(s, draws)) == multiset(s)
    decreases |s|
  {
    if |s| > 1 {
      var t := Swap(s, |s| - 1, draws[0]);
      DrawsRest(draws, |s|);
      ShuffledPermutes(t[..|s| - 1], draws[1..]);
      SwapPermutes(s, |s| - 1, draws[0]);
      assert t == t[..|s| - 1] + [t[|s| - 1]];
    }
  }

  lemma LastDrawn<T>(s: seq<T>, d: seq<nat>)
    requires Draws(d, |s|) && |s| > 1
    ensures Draws(d[1..], |s| - 1) && Shuffled(s, d)[|s| - 1] == s[d[0]]
    ensures Shuffled(s, d)[..|s| - 1] == Shuffled(Swap(s, |s| - 1, d[0])[..|s| - 1], d[1..])
  {
    DrawsRest(d, |s|);
  }

  lemma SwapDistinct<T>(s: seq<T>, i: nat, j: nat)
    requires i < |s| && j < |s| && Distinct(s)
    ensures Distinct(Swap(s, i, j))
  {
  }

  /** Different draws give different orders. */
  lemma {:induction false} ShuffledInjective<T>(s: seq<T>, d: seq<nat>, e: seq<nat>)
    requires Distinct(s) && Draws(d, |s|) && Draws(e, |s|) && Shuffled(s, d) == Shuffled(s, e)
    ensures d == e
    decreases |s|
  {
    if |s| > 1 {
      var n := |s| - 1;
      var t := Swap(s, n, d[0]);
      SameFirstDraw(s, d, e);
      ShuffledInjective(t[..n], d[1..], e[1..]);
      assert d == [d[0]] + d[1..] && e == [e[0]] + e[1..];
    }
  }

  lemma SameFirstDraw<T>(s: seq<T>, d: seq<nat>, e: seq<nat>)
    requires Distinct(s) && |s| > 1 && Draws(d, |s|) && Draws(e, |s|) && Shuffled(s, d) == Shuffled(s, e)
    ensures d[0] == e[0] && Draws(d[1..], |s| - 1) && Draws(e[1..], |s| - 1)
    ensures var t := Swap(s, |s| - 1, d[0])[..|s| - 1]; Shuffled(t, d[1..]) == Shuffled(t, e[1..]) && Distinct(t)
  {
    LastDrawn(s, d);
    LastDrawn(s, e);
    assert d[0] == e[0];
    SwapDistinct(s, |s| - 1, d[0]);
  }

  lemma WithoutLast<T>(s: seq<T>, t: seq<T>, n: nat)
    requires |s| == |t| == n + 1 && multiset(s) == multiset(t) && s[n] == t[n]
    ensures multiset(s[..n]) == multiset(t[..n])
  {
    assert s == s[..n] + [s[n]] && t == t[..n] + [t[n]];
    assert multiset(s[..n]) == multiset(s) - multiset{s[n]};
    assert multiset(t[..n]) == multiset(t) - multiset{t[n]};
  }

  lemma OneElement<T>(s: seq<T>, t: seq<T>)
    requires |s| == |t| == 1 && multiset(s) == multiset(t)
    ensures s == t
  {
    assert s == [s[0]] && t == [t[0]];
    assert t[0] in multiset(s);
  }

  /** Every order comes from some draws. */
  lemma {:induction false} ShuffledOnto<T>(s: seq<T>, goal: seq<T>) returns (draws: seq<nat>)
    requires multiset(goal) == multiset(s)
    ensures Draws(draws, |s|) && Shuffled(s, draws) == goal
    decreases |s|
  {
    SameLength(goal, s);
    if |s| == 0 {
      draws := [];
    } else if |s| == 1 {
      OneElement(s, goal);
      draws := [];
    } else {
      var n := |s| - 1;
      assert goal[n] in multiset(goal);
      var j :| 0 <= j < |s| && s[j] == goal[n];
      var t := Swap(s, n, j);
      SwapPermutes(s, n, j);
      WithoutLast(goal, t, n);
      var rest := ShuffledOnto(t[..n], goal[..n]);
      draws := [j] + rest;
      AppendDraw(s, t, n, j, rest, goal);
    }
  }

  lemma PrependDraw(j: nat, rest: seq<nat>, n: nat)
    requires Draws(rest, n) && j <= n && n > 0
    ensures Draws([j] + rest, n + 1) && ([j] + rest)[1..] == rest
  {
  }

  lemma AppendDraw<T>(s: seq<T>, t: seq<T>, n: nat, j: nat, rest: seq<nat>, goal: seq<T>)
    requires |s| == |goal| == n + 1 && n > 0 && j < |s| && t == Swap(s, n, j) && t[n] == goal[n]
    requires Draws(rest, n) && Shuffled(t[..n], rest) == goal[..n]
    ensures Draws([j] + rest, n + 1) && Shuffled(s, [j] + rest) == goal
  {
    PrependDraw(j, rest, n);
    LastDrawn(s, [j] + rest);
    assert goal == goal[..n] + [goal[n]];
  }

  /** r has at i what s has at order[i]. */
  ghost predicate Rearranges<T>(s: seq<T>, r: seq<T>, order: seq<nat>) {
    |r| == |order| && forall i | 0 <= i < |order| :: order[i] < |s| && r[i] == s[order[i]]
  }

  function OrderBefore(n: nat, j: nat, rest: seq<nat>): (order: seq<nat>)
    requires |rest| == n
    ensures |order| == n + 1 && order[n] == j
    ensures forall i | 0 <= i < n :: order[i] == if rest[i] == j then n else rest[i]
  {
    seq(n, i requires 0 <= i < n => if rest[i] == j then n else rest[i]) + [j]
  }

  lemma RearrangesBefore<T>(s: seq<T>, r: seq<T>, n: nat, j: nat, rest: seq<nat>)
    requires |s| == |r| == n + 1 && |rest| == n && j <= n && r[n] == s[j]
    requires Rearranges(Swap(s, n, j)[..n], r[..n], rest)
    ensures Rearranges(s, r, OrderBefore(n, j, rest))
  {
    var order := OrderBefore(n, j, rest);
    forall i | 0 <= i < n ensures order[i] < |s| && r[i] == s[order[i]] {
      assert r[i] == r[..n][i] == Swap(s, n, j)[rest[i]];
    }
  }

  /** Lists of one length are shuffled alike. */
  lemma {:induction false} ShuffledAlike<X, Y>(s: seq<X>, v: seq<Y>, draws: seq<nat>) returns (order: seq<nat>)
    requires |s| == |v| && Draws(draws, |s|)
    ensures Rearranges(s, Shuffled(s, draws), order) && Rearranges(v, Shuffled(v, draws), order)
    decreases |s|
  {
    if |s| <= 1 {
      order := seq(|s|, i => i);
    } else {
      var n, j := |s| - 1, draws[0];
      LastDrawn(s, draws);
      LastDrawn(v, draws);
      var rest := ShuffledAlike(Swap(s, n, j)[..n], Swap(v, n, j)[..n], draws[1..]);
      order := OrderBefore(n, j, rest);
      RearrangesBefore(s, Shuffled(s, draws), n, j, rest);
      RearrangesBefore(v, Shuffled(v, draws), n, j, rest);
    }
  }

  // ------------------------------------------------------------------------------------------------
  // In place, at chosen positions

  /** Increasing positions in a list of length n. */
  predicate Positions(idx: seq<nat>, n: nat) {
    && (forall i | 0 <= i < |idx| :: idx[i] < n)
    && (forall i, j | 0 <= i < j < |idx| :: idx[i] < idx[j])
  }

  function Project<T>(s: seq<T>, idx: seq<nat>): (r: seq<T>)
    requires Positions(idx, |s|)
    ensures |r| == |idx| && forall i | 0 <= i < |idx| :: r[i] == s[idx[i]]
  {
    seq(|idx|, i requires 0 <= i < |idx| => s[idx[i]])
  }

  method SwapAt<T>(a: array<T>, idx: seq<nat>, i: nat, j: nat)
    requires Positions(idx, a.Length) && i < |idx| && j < |idx|
    modifies a
    ensures Project(a[..], idx) == Swap(Project(old(a[..]), idx), i, j)
    ensures multiset(a[..]) == multiset(old(a[..]))
    ensures forall p | 0 <= p < a.Length && p !in idx :: a[p] == old(a[p])
  {
    ghost var was := a[..];
    a[idx[i]], a[idx[j]] := a[idx[j]], a[idx[i]];
    assert a[..] == Swap(was, idx[i], idx[j]);
    SwapPermutes(was, idx[i], idx[j]);
    assert forall m | 0 <= m < |idx| :: Project(a[..], idx)[m] == a[idx[m]];
  }

  method ShuffleAt<T>(a: array<T>, idx: seq<nat>, draws: seq<nat>)
    requires Positions(idx, a.Length) && Draws(draws, |idx|)
    modifies a
    ensures Project(a[..], idx) == Shuffled(Project(old(a[..]), idx), draws)
    ensures multiset(a[..]) == multiset(old(a[..]))
    ensures forall p | 0 <= p < a.Length && p !in idx :: a[p] == old(a[p])
  {
    ghost var goal := Shuffled(Project(a[..], idx), draws);
    var i := |idx| - 1;
    var k := 0;
    assert Project(a[..], idx)[..|idx|] == Project(a[..], idx);
    while i > 0
      invariant -1 <= i < |idx| && (|idx| > 0 ==> i >= 0) && k == |idx| - 1 - i
      invariant |idx| > 0 ==> k <= |draws| && Draws(draws[k..], i + 1)
      invariant |idx| > 0 ==>
        goal == Shuffled(Project(a[..], idx)[..i + 1], draws[k..]) + Project(a[..], idx)[i + 1..]
      invariant |idx| == 0 ==> goal == []
      invariant multiset(a[..]) == multiset(old(a[..]))
      invariant forall p | 0 <= p < a.Length && p !in idx :: a[p] == old(a[p])
    {
      var j := draws[k];
      ghost var before := Project(a[..], idx);
      assert draws[k..][0] == j && draws[k..][1..] == draws[k + 1..];
      SwapAt(a, idx, i, j);
      SwapStep(before, Project(a[..], idx), i, j, draws[k..]);
      i := i - 1;
      k := k + 1;
    }
  }

  lemma SwapStep<T>(before: seq<T>, now: seq<T>, i: nat, j: nat, draws: seq<nat>)
    requires 0 < i < |before| == |now| && Draws(draws, i + 1) && j == draws[0]
    requires now == Swap(before, i, j)
    ensures Draws(draws[1..], i)
    ensures Shuffled(before[..i + 1], draws) + before[i + 1..] == Shuffled(now[..i], draws[1..]) + now[i..]
  {
    DrawsRest(draws, i + 1);
    var t := Swap(before[..i + 1], i, j);
    assert t[..i] == now[..i] && t[i] == now[i];
    assert now[i..] == [now[i]] + now[i + 1..] && now[i + 1..] == before[i + 1..];
  }
}
