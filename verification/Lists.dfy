/** Small facts about the lists (`Lyst`) that AMS keeps: membership without duplicates,
    deletion of one element, and the in-order subtraction and union of two lists. */
module Lists {

  ghost predicate NoDup<T>(s: seq<T>) {
    forall i, j :: 0 <= i < j < |s| ==> s[i] != s[j]
  }

  lemma AppendNoDup<T>(s: seq<T>, x: T)
    requires NoDup(s) && x !in s
    ensures NoDup(s + [x])
  {
  }

  /** The list without the first element equal to x, as `lyst_delete` of the element
      that a membership search returned leaves it. */
  function RemoveFirst<T(==)>(s: seq<T>, x: T): (r: seq<T>)
    ensures x !in s ==> r == s
    ensures x in s ==> |r| == |s| - 1
    ensures forall y :: y in r ==> y in s
    ensures forall y :: y in s && y != x ==> y in r
  {
    if s == [] then []
    else if s[0] == x then s[1..]
    else [s[0]] + RemoveFirst(s[1..], x)
  }

  lemma {:induction false} RemoveFirstNoDup<T>(s: seq<T>, x: T)
    requires NoDup(s)
    ensures NoDup(RemoveFirst(s, x)) && x !in RemoveFirst(s, x)
  {
    if s != [] {
      assert s == [s[0]] + s[1..];
      RemoveFirstNoDup(s[1..], x);
      if s[0] != x {
        var r := RemoveFirst(s[1..], x);
        forall i, j | 0 <= i < j < |RemoveFirst(s, x)|
          ensures RemoveFirst(s, x)[i] != RemoveFirst(s, x)[j]
        {
          assert r[j - 1] in s[1..];
          if i > 0 { assert RemoveFirst(s, x)[i] == r[i - 1]; }
        }
      }
    }
  }

  /** Where RemoveFirst cuts: at the first position that holds x. */
  lemma {:induction false} RemoveFirstAt<T>(s: seq<T>, k: nat)
    requires k < |s| && s[k] !in s[..k]
    ensures RemoveFirst(s, s[k]) == s[..k] + s[k + 1..]
  {
    if k > 0 {
      assert s[0] == s[..k][0];
      assert s[1..][k - 1] == s[k] && s[1..][..k - 1] == s[..k][1..];
      RemoveFirstAt(s[1..], k - 1);
      assert s[1..][k..] == s[k + 1..];
    }
  }

  /** The elements of a that are not in b, in a's order. */
  function Subtract<T(==,!new)>(a: seq<T>, b: seq<T>): (r: seq<T>)
    ensures forall x :: x in r <==> x in a && x !in b
  {
    if a == [] then []
    else if a[|a| - 1] in b then Subtract(a[..|a| - 1], b)
    else Subtract(a[..|a| - 1], b) + [a[|a| - 1]]
  }

  lemma {:induction false} SubtractNoDup<T(!new)>(a: seq<T>, b: seq<T>)
    requires NoDup(a)
    ensures NoDup(Subtract(a, b))
  {
    if a != [] {
      var front := a[..|a| - 1];
      SubtractNoDup(front, b);
      forall x | x in Subtract(front, b) ensures x != a[|a| - 1] {
        assert x in front;
      }
    }
  }

  /** a followed by those elements of b that are not listed yet. */
  function Union<T(==,!new)>(a: seq<T>, b: seq<T>): (r: seq<T>)
    ensures forall x :: x in r <==> x in a || x in b
    ensures a <= r
  {
    if b == [] then a
    else
      var u := Union(a, b[..|b| - 1]);
      if b[|b| - 1] in u then u else u + [b[|b| - 1]]
  }

  lemma {:induction false} UnionNoDup<T(!new)>(a: seq<T>, b: seq<T>)
    requires NoDup(a)
    ensures NoDup(Union(a, b))
  {
    if b != [] { UnionNoDup(a, b[..|b| - 1]); }
  }

  /** A duplicate-free list whose elements all lie in a set is no longer than the set is large. */
  lemma {:induction false} NoDupBound<T>(s: seq<T>, bound: set<T>)
    requires NoDup(s) && forall x :: x in s ==> x in bound
    ensures |s| <= |bound|
  {
    if s != [] {
      var x := s[|s| - 1];
      var front := s[..|s| - 1];
      assert x !in front;
      NoDupBound(front, bound - {x});
    }
  }
}
