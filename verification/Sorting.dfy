/** sort.Slice as the tables use it, and when its result does not depend on the order it is given. */
module Sorting {
  import opened Permutations

  ghost predicate StrictWeak<T(!new)>(less: (T, T) -> bool) {
    && (forall a: T :: !less(a, a))
    && (forall a: T, b: T, c: T :: less(a, b) && less(b, c) ==> less(a, c))
    && (forall a: T, b: T, c: T :: !less(a, b) && !less(b, c) ==> !less(a, c))
  }

  ghost predicate Sorted<T>(s: seq<T>, less: (T, T) -> bool) {
    forall i, j | 0 <= i < j < |s| :: !less(s[j], s[i])
  }

  /** Any two different elements are ordered one way or the other. */
  ghost predicate Separates<T(!new)>(s: seq<T>, less: (T, T) -> bool) {
    forall a: T, b: T | a in s && b in s :: a == b || less(a, b) || less(b, a)
  }

  function Insert<T>(s: seq<T>, x: T, less: (T, T) -> bool): seq<T> {
    if s == [] then [x]
    else if less(x, s[|s| - 1]) then Insert(s[..|s| - 1], x, less) + [s[|s| - 1]]
    else s + [x]
  }

  lemma {:induction false} InsertPermutes<T>(s: seq<T>, x: T, less: (T, T) -> bool)
    ensures multiset(Insert(s, x, less)) == multiset(s) + multiset{x}
  {
    if s != [] {
      InsertPermutes(s[..|s| - 1], x, less);
      assert s == s[..|s| - 1] + [s[|s| - 1]];
    }
  }

  lemma SortedAppend<T>(s: seq<T>, x: T, less: (T, T) -> bool)
    requires Sorted(s, less) && forall y | y in s :: !less(x, y)
    ensures Sorted(s + [x], less)
  {
  }

  lemma {:induction false} InsertSorted<T(!new)>(s: seq<T>, x: T, less: (T, T) -> bool)
    requires StrictWeak(less) && Sorted(s, less)
    ensures Sorted(Insert(s, x, less), less)
  {
    if s != [] {
      var front, last := s[..|s| - 1], s[|s| - 1];
      if less(x, last) {
        InsertSorted(front, x, less);
        InsertPermutes(front, x, less);
        forall y | y in Insert(front, x, less) ensures !less(last, y) {
          assert y in multiset(Insert(front, x, less));
          assert y == x || y in front;
        }
        SortedAppend(Insert(front, x, less), last, less);
      } else {
        forall y | y in s ensures !less(x, y) {
          assert !less(last, y);
        }
        SortedAppend(s, x, less);
      }
    }
  }

  /** The library's sort: some rearrangement in which no later element is less than an earlier one. */
  method SortSlice<T(!new)>(s: seq<T>, less: (T, T) -> bool) returns (r: seq<T>)
    requires StrictWeak(less)
    ensures multiset(r) == multiset(s) && Sorted(r, less)
  {
    r := [];
    var i := 0;
    while i < |s|
      invariant 0 <= i <= |s|
      invariant multiset(r) == multiset(s[..i]) && Sorted(r, less)
    {
      InsertPermutes(r, s[i], less);
      InsertSorted(r, s[i], less);
      r := Insert(r, s[i], less);
      assert s[..i + 1] == s[..i] + [s[i]];
      i := i + 1;
    }
    assert s[..|s|] == s;
  }

  /** There always is a sorted rearrangement. */
  lemma {:induction false} SortedExists<T(!new)>(s: seq<T>, less: (T, T) -> bool) returns (r: seq<T>)
    requires StrictWeak(less)
    ensures multiset(r) == multiset(s) && Sorted(r, less)
  {
    if s == [] {
      r := [];
    } else {
      var front, last := s[..|s| - 1], s[|s| - 1];
      r := SortedExists(front, less);
      InsertPermutes(r, last, less);
      InsertSorted(r, last, less);
      r := Insert(r, last, less);
      assert s == front + [last];
    }
  }

  lemma FirstIsLeast<T(!new)>(s: seq<T>, y: T, less: (T, T) -> bool)
    requires Sorted(s, less) && StrictWeak(less) && y in s
    ensures !less(y, s[0])
  {
  }

  /** Where the order leaves no ties, a sorted rearrangement is unique. */
  lemma {:induction false} SortedUnique<T(!new)>(s: seq<T>, t: seq<T>, less: (T, T) -> bool)
    requires StrictWeak(less) && Sorted(s, less) && Sorted(t, less) && Separates(s, less)
    requires multiset(s) == multiset(t)
    ensures s == t
  {
    SameLength(s, t);
    if s != [] {
      FirstIsSame(s, t, less);
      TailPermutes(s, t);
      assert forall a | a in s[1..] :: a in s;
      SortedUnique(s[1..], t[1..], less);
      assert s == [s[0]] + s[1..] && t == [t[0]] + t[1..];
    }
  }

  lemma FirstIsSame<T(!new)>(s: seq<T>, t: seq<T>, less: (T, T) -> bool)
    requires StrictWeak(less) && Sorted(s, less) && Sorted(t, less) && Separates(s, less)
    requires multiset(s) == multiset(t) && s != [] && t != []
    ensures s[0] == t[0]
  {
    assert s[0] in multiset(t) && t[0] in multiset(s);
    FirstIsLeast(s, t[0], less);
    FirstIsLeast(t, s[0], less);
  }

  /** Elements that tie can change places. */
  lemma SwapTied<T(!new)>(s: seq<T>, i: nat, j: nat, less: (T, T) -> bool)
    requires StrictWeak(less) && Sorted(s, less) && i < j < |s| && !less(s[i], s[j])
    ensures var r := s[i := s[j]][j := s[i]]; Sorted(r, less) && multiset(r) == multiset(s)
  {
    var r := s[i := s[j]][j := s[i]];
    assert forall k | 0 <= k < |s| :: !less(r[k], s[k]) && !less(s[k], r[k]);
  }

  // ------------------------------------------------------------------------------------------------
  // Go's < on strings

  predicate LessText(a: string, b: string) {
    b != "" && (a == "" || a[0] < b[0] || (a[0] == b[0] && LessText(a[1..], b[1..])))
  }

  lemma {:induction false} LessTextTotal(a: string, b: string)
    ensures LessText(a, b) || LessText(b, a) || a == b
    ensures !LessText(a, a)
    ensures !(LessText(a, b) && LessText(b, a))
  {
    if a != "" {
      LessTextTotal(a[1..], if b == "" then a[1..] else b[1..]);
      if b != "" && a[0] == b[0] && a[1..] == b[1..] {
        assert a == [a[0]] + a[1..] && b == [b[0]] + b[1..];
      }
    }
  }

  lemma {:induction false} LessTextTransitive(a: string, b: string, c: string)
    requires LessText(a, b) && LessText(b, c)
    ensures LessText(a, c)
  {
    if a != "" && a[0] == b[0] == c[0] {
      LessTextTransitive(a[1..], b[1..], c[1..]);
    }
  }

  /** Texts compare by their first difference, and a front of a text comes before it. */
  lemma {:induction false} LessTextIs(a: string, b: string, k: nat)
    requires k <= |a| && k <= |b| && a[..k] == b[..k]
    requires k == |a| || k == |b| || a[k] != b[k]
    ensures LessText(a, b) <==> k < |b| && (k == |a| || a[k] < b[k])
  {
    if k > 0 {
      assert a[0] == a[..k][0] == b[0];
      assert a[1..][..k - 1] == a[..k][1..] && b[1..][..k - 1] == b[..k][1..];
      LessTextIs(a[1..], b[1..], k - 1);
    }
  }
}
