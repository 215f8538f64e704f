/** Rearrangements of sequences. */
module Permutations {

  ghost predicate Distinct<T>(s: seq<T>) {
    forall i, j | 0 <= i < j < |s| :: s[i] != s[j]
  }

  lemma SameLength<T>(s: seq<T>, t: seq<T>)
    requires multiset(s) == multiset(t)
    ensures |s| == |t|
  {
    assert |s| == |multiset(s)| && |t| == |multiset(t)|;
  }

  lemma SameMembers<T>(s: seq<T>, t: seq<T>)
    requires multiset(s) == multiset(t)
    ensures forall x | x in t :: x in s
  {
    forall x | x in t ensures x in s {
      assert x in multiset(t);
    }
  }

  lemma RemoveAt<T>(t: seq<T>, j: nat)
    requires j < |t|
    ensures multiset(t[..j] + t[j + 1..]) == multiset(t) - multiset{t[j]}
  {
    assert t == t[..j] + [t[j]] + t[j + 1..];
  }

  lemma PlaceOf<T>(t: seq<T>, s: seq<T>, i: nat) returns (j: nat)
    requires multiset(s) == multiset(t) && i < |s|
    ensures j < |t| && t[j] == s[i]
  {
    assert s[i] in multiset(t);
    j :| j < |t| && t[j] == s[i];
  }

  /** Taking the first element of s out of t leaves the rest of s. */
  lemma WithoutFirst<T>(s: seq<T>, t: seq<T>) returns (j: nat)
    requires multiset(s) == multiset(t) && s != []
    ensures j < |t| && t[j] == s[0] && multiset(s[1..]) == multiset(t[..j] + t[j + 1..])
  {
    j := PlaceOf(t, s, 0);
    RemoveAt(s, 0);
    RemoveAt(t, j);
    assert s[..0] + s[1..] == s[1..];
  }

  lemma TailPermutes<T>(s: seq<T>, t: seq<T>)
    requires multiset(s) == multiset(t) && s != [] && t != [] && s[0] == t[0]
    ensures multiset(s[1..]) == multiset(t[1..])
  {
    assert s == [s[0]] + s[1..] && t == [t[0]] + t[1..];
    assert multiset(s[1..]) == multiset(s) - multiset{s[0]};
    assert multiset(t[1..]) == multiset(t) - multiset{t[0]};
  }

  /** Where equal elements of a and b have equal partners, the partners permute as the elements do. */
  lemma {:induction false} AlikePermute<X, Y>(a: seq<X>, va: seq<Y>, b: seq<X>, vb: seq<Y>)
    requires |va| == |a| && |vb| == |b| && multiset(a) == multiset(b)
    requires forall i, j | 0 <= i < |a| && 0 <= j < |b| && a[i] == b[j] :: va[i] == vb[j]
    ensures multiset(va) == multiset(vb)
  {
    SameLength(a, b);
    if a != [] {
      var j := WithoutFirst(a, b);
      AlikePermute(a[1..], va[1..], b[..j] + b[j + 1..], vb[..j] + vb[j + 1..]);
      assert va == [va[0]] + va[1..] && vb == vb[..j] + [vb[j]] + vb[j + 1..];
    }
  }

  lemma {:induction false} CountOfDistinct<T>(s: seq<T>, x: T)
    requires Distinct(s)
    ensures multiset(s)[x] == if x in s then 1 else 0
  {
    if s != [] {
      CountOfDistinct(s[1..], x);
      assert s == [s[0]] + s[1..];
    }
  }

  /** Two lists without repetitions that have the same elements are rearrangements of each other. */
  lemma DistinctPermutes<T(!new)>(s: seq<T>, t: seq<T>)
    requires Distinct(s) && Distinct(t) && forall x: T :: x in s <==> x in t
    ensures multiset(s) == multiset(t)
  {
    forall x: T ensures multiset(s)[x] == multiset(t)[x] {
      CountOfDistinct(s, x);
      CountOfDistinct(t, x);
    }
  }

  /** Every finite set can be listed. */
  lemma {:induction false} Listing<T>(s: set<T>) returns (list: seq<T>)
    ensures Distinct(list) && forall x :: x in list <==> x in s
    decreases s
  {
    if s == {} {
      list := [];
    } else {
      var x :| x in s;
      var rest := Listing(s - {x});
      list := [x] + rest;
    }
  }

  lemma OtherElement<T>(s: seq<T>, i: nat, x: T)
    requires i < |s| && s[i] != x
    ensures multiset(s[i := x]) != multiset(s)
  {
    assert s == s[..i] + [s[i]] + s[i + 1..];
    assert s[i := x] == s[..i] + [x] + s[i + 1..];
    var rest := multiset(s[..i]) + multiset(s[i + 1..]);
    assert multiset(s) == rest + multiset{s[i]} && multiset(s[i := x]) == rest + multiset{x};
    assert (rest + multiset{x})[x] == rest[x] + 1 && (rest + multiset{s[i]})[x] == rest[x];
  }

  /** The numbers below n. */
  function Below(n: nat): (r: set<nat>)
    ensures |r| == n && forall i: nat :: i in r <==> i < n
  {
    if n == 0 then {} else Below(n - 1) + {n - 1}
  }
}
