/** Lists with some entries taken out and the others kept in order, and lists gathered from the entries of another. */
module Selections {

  /** r is what is left of s: exactly the entries that are kept, in order; pos gives their places in s. */
  ghost predicate Selects<T>(s: seq<T>, r: seq<T>, keep: T -> bool, pos: seq<nat>) {
    && |pos| == |r|
    && (forall i | 0 <= i < |pos| :: pos[i] < |s| && s[pos[i]] == r[i])
    && (forall i, j | 0 <= i < j < |pos| :: pos[i] < pos[j])
    && (forall k | 0 <= k < |s| :: k in pos <==> keep(s[k]))
  }

  ghost predicate Selected<T>(s: seq<T>, r: seq<T>, keep: T -> bool) {
    exists pos :: Selects(s, r, keep, pos)
  }

  function Shifted(p: seq<nat>): (q: seq<nat>)
    ensures |q| == |p| && forall i | 0 <= i < |p| :: q[i] == p[i] + 1
  {
    seq(|p|, i requires 0 <= i < |p| => p[i] + 1)
  }

  lemma ShiftedHas(p: seq<nat>, k: nat)
    ensures k in Shifted(p) <==> k > 0 && k - 1 in p
  {
    if k > 0 && k - 1 in p {
      var i :| 0 <= i < |p| && p[i] == k - 1;
      assert Shifted(p)[i] == k;
    }
  }

  lemma NoneSelected<T>(keep: T -> bool)
    ensures Selected([], [], keep)
  {
    assert Selects([], [], keep, []);
  }

  lemma SelectInFront<T>(x: T, s: seq<T>, r: seq<T>, keep: T -> bool)
    requires Selected(s, r, keep)
    ensures Selected([x] + s, (if keep(x) then [x] else []) + r, keep)
  {
    var pos: seq<nat> :| Selects(s, r, keep, pos);
    if keep(x) {
      SelectFirst(x, s, r, keep, pos);
    } else {
      SkipFirst(x, s, r, keep, pos);
      assert [] + r == r;
    }
  }

  lemma ShiftedKeeps<T>(x: T, s: seq<T>, pos: seq<nat>, keep: T -> bool)
    requires forall k | 0 <= k < |s| :: k in pos <==> keep(s[k])
    ensures forall k | 0 <= k <= |s| :: k in Shifted(pos) <==> k > 0 && keep(([x] + s)[k])
  {
    forall k | 0 <= k <= |s| ensures k in Shifted(pos) <==> k > 0 && keep(([x] + s)[k]) {
      ShiftedHas(pos, k);
      assert k > 0 ==> ([x] + s)[k] == s[k - 1];
    }
  }

  lemma SelectFirst<T>(x: T, s: seq<T>, r: seq<T>, keep: T -> bool, pos: seq<nat>)
    requires keep(x) && Selects(s, r, keep, pos)
    ensures Selected([x] + s, [x] + r, keep)
  {
    ShiftedKeeps(x, s, pos, keep);
    var more: seq<nat> := [0] + Shifted(pos);
    forall k | 0 <= k <= |s| ensures k in more <==> keep(([x] + s)[k]) {
      assert k in more <==> k == 0 || k in Shifted(pos);
    }
    assert Selects([x] + s, [x] + r, keep, more);
  }

  lemma SkipFirst<T>(x: T, s: seq<T>, r: seq<T>, keep: T -> bool, pos: seq<nat>)
    requires !keep(x) && Selects(s, r, keep, pos)
    ensures Selected([x] + s, r, keep)
  {
    ShiftedKeeps(x, s, pos, keep);
    assert Selects([x] + s, r, keep, Shifted(pos));
  }

  lemma SelectAtEnd<T>(s: seq<T>, x: T, r: seq<T>, keep: T -> bool)
    requires Selected(s, r, keep)
    ensures Selected(s + [x], r + (if keep(x) then [x] else []), keep)
  {
    var pos: seq<nat> :| Selects(s, r, keep, pos);
    assert |s| !in pos;
    if keep(x) {
      var more: seq<nat> := pos + [|s|];
      forall k | 0 <= k <= |s| ensures k in more <==> keep((s + [x])[k]) {
        assert k in more <==> k in pos || k == |s|;
      }
      assert Selects(s + [x], r + [x], keep, more);
    } else {
      assert Selects(s + [x], r, keep, pos);
      assert r + [] == r;
    }
  }

  /** What is left are the entries kept. */
  lemma SelectedHas<T>(s: seq<T>, r: seq<T>, keep: T -> bool)
    requires Selected(s, r, keep)
    ensures forall x :: x in r <==> x in s && keep(x)
  {
    var pos :| Selects(s, r, keep, pos);
    forall x | x in r ensures x in s && keep(x) {
      var i :| 0 <= i < |r| && r[i] == x;
      assert pos[i] in pos;
    }
    forall x | x in s && keep(x) ensures x in r {
      var k :| 0 <= k < |s| && s[k] == x;
      var i :| 0 <= i < |pos| && pos[i] == k;
      assert r[i] == x;
    }
  }

  /** What the entries of s give, one after the other. */
  function Gathered<S, T>(s: seq<S>, give: S -> seq<T>): seq<T> {
    if s == [] then [] else Gathered(s[..|s| - 1], give) + give(s[|s| - 1])
  }

  lemma {:induction false} GatheredConcat<S, T>(a: seq<S>, b: seq<S>, give: S -> seq<T>)
    ensures Gathered(a + b, give) == Gathered(a, give) + Gathered(b, give)
  {
    if b == [] {
      assert a + b == a;
    } else {
      assert (a + b)[..|a + b| - 1] == a + b[..|b| - 1];
      GatheredConcat(a, b[..|b| - 1], give);
    }
  }
}
