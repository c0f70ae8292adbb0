/** Cardinalities of the integers in a range that satisfy a predicate. */
module Counting {

  ghost function Where(p: int -> bool, lo: int, hi: int): set<int> {
    set x | lo <= x < hi && p(x)
  }

  ghost function Count(p: int -> bool, lo: int, hi: int): nat {
    |Where(p, lo, hi)|
  }

  lemma CountSplit(p: int -> bool, lo: int, mid: int, hi: int)
    requires lo <= mid <= hi
    ensures Count(p, lo, hi) == Count(p, lo, mid) + Count(p, mid, hi)
  {
    assert Where(p, lo, hi) == Where(p, lo, mid) + Where(p, mid, hi);
    assert Where(p, lo, mid) !! Where(p, mid, hi);
  }

  lemma CountNone(p: int -> bool, lo: int, hi: int)
    requires forall x :: lo <= x < hi ==> !p(x)
    ensures Count(p, lo, hi) == 0
  {
    assert Where(p, lo, hi) == {};
  }

  lemma {:induction false} CountAll(p: int -> bool, lo: int, hi: int)
    requires lo <= hi
    requires forall x :: lo <= x < hi ==> p(x)
    ensures Count(p, lo, hi) == hi - lo
    decreases hi - lo
  {
    if lo == hi {
      CountNone(p, lo, hi);
    } else {
      CountAll(p, lo, hi - 1);
      CountSplit(p, lo, hi - 1, hi);
      assert Where(p, hi - 1, hi) == {hi - 1};
    }
  }

  lemma CountEither(p: int -> bool, q: int -> bool, r: int -> bool, lo: int, hi: int)
    requires forall x :: lo <= x < hi ==> (p(x) <==> q(x) || r(x)) && !(q(x) && r(x))
    ensures Count(p, lo, hi) == Count(q, lo, hi) + Count(r, lo, hi)
  {
    assert Where(p, lo, hi) == Where(q, lo, hi) + Where(r, lo, hi);
    assert Where(q, lo, hi) !! Where(r, lo, hi);
  }

  lemma CountAgree(p: int -> bool, q: int -> bool, lo: int, hi: int)
    requires forall x :: lo <= x < hi ==> p(x) == q(x)
    ensures Count(p, lo, hi) == Count(q, lo, hi)
  {
    assert Where(p, lo, hi) == Where(q, lo, hi);
  }

  lemma {:induction false} SubsetSize<T>(a: set<T>, b: set<T>)
    requires a <= b
    ensures |a| <= |b| && (|a| == |b| ==> a == b)
  {
    assert b == a + (b - a);
    assert |b| == |a| + |b - a|;
    if |a| == |b| {
      assert b - a == {};
    }
  }

  ghost function AnyOf<T>(s: set<T>): (y: T)
    requires s != {}
    ensures y in s
  {
    var y :| y in s; y
  }
  lemma NotSingleton<T>(s: set<T>, x: T)
    requires x in s && |s| != 1
    ensures s - {x} != {}
  {
    assert |s| == |s - {x}| + 1;
  }

  ghost function Least(s: set<int>): (m: int)
    requires s != {}
    ensures m in s && forall x :: x in s ==> m <= x
  {
    var y := AnyOf(s);
    if s == {y} then
      assert forall x :: x in s ==> x == y;
      y
    else
      var n := Least(s - {y});
      assert forall x :: x in s ==> x == y || x in s - {y};
      if y < n then y else n
  }

  // ---------- Sorted lists of distinct integers ----------

  ghost predicate Increasing(s: seq<int>) {
    forall i, j :: 0 <= i < j < |s| ==> s[i] < s[j]
  }

  /** The elements of a finite set in increasing order. */
  ghost function SortedList(s: set<int>): (l: seq<int>)
    ensures Increasing(l)
    ensures forall x :: x in l <==> x in s
  {
    if s == {} then []
    else
      var m := Least(s);
      var rest := SortedList(s - {m});
      assert forall x :: x in rest ==> m < x;
      assert forall i :: 0 <= i < |rest| ==> rest[i] in rest;
      [m] + rest
  }

  lemma HeadIsElement(s: seq<int>)
    ensures |s| > 0 ==> s[0] in s
  {
  }

  lemma {:induction false} SortedUnique(a: seq<int>, b: seq<int>)
    requires Increasing(a) && Increasing(b)
    requires forall x :: x in a <==> x in b
    ensures a == b
  {
    if a != [] {
      assert a[0] in a;
      assert b[0] in b;
      assert forall i :: 0 < i < |a| ==> a[0] < a[i];
      assert forall i :: 0 < i < |b| ==> b[0] < b[i];
      assert a == [a[0]] + a[1..] && b == [b[0]] + b[1..];
      assert a[0] == b[0];
      forall x ensures x in a[1..] <==> x in b[1..] {
        assert x in a[1..] <==> x in a && x != a[0];
        assert x in b[1..] <==> x in b && x != b[0];
      }
      SortedUnique(a[1..], b[1..]);
    } else {
      HeadIsElement(b);
    }
  }

  method SortElements(s: set<int>) returns (l: seq<int>)
    ensures Increasing(l) && forall x :: x in l <==> x in s
  {
    l := [];
    var rest := s;
    while rest != {}
      invariant forall x :: x in l || x in rest <==> x in s
      invariant forall x, y :: x in l && y in rest ==> x < y
      invariant Increasing(l)
      decreases rest
    {
      ghost var least := Least(rest);
      var m :| m in rest && forall x :: x in rest ==> m <= x;
      assert forall i :: 0 <= i < |l| ==> l[i] in l;
      l := l + [m];
      rest := rest - {m};
    }
  }
}
