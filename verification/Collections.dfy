/**
  Finite sets and sequences: sizes, and the first occurrences of a sequence.
 */
module Collections {

  ghost function Choose<T>(xs: set<T>): (x: T)
    requires xs != {}
    ensures x in xs
  {
    var x :| x in xs; x
  }

  ghost function Range(n: nat): set<int> {
    if n == 0 then {} else Range(n - 1) + {n - 1}
  }

  lemma {:induction false} RangeSize(n: nat)
    ensures |Range(n)| == n
    ensures forall r :: r in Range(n) <==> 0 <= r < n
  {
    if n != 0 {
      RangeSize(n - 1);
    }
  }

  lemma {:induction false} SubsetSize<T>(a: set<T>, b: set<T>)
    requires a <= b
    ensures |a| <= |b|
    ensures |a| == |b| ==> a == b
    decreases a
  {
    if a != {} {
      var x :| x in a;
      SubsetSize(a - {x}, b - {x});
      if |a| == |b| { assert a == (a - {x}) + {x} == (b - {x}) + {x} == b; }
    }
  }

  lemma {:induction false} ConcatAssociates<T>(a: seq<T>, b: seq<T>, c: seq<T>)
    ensures (a + b) + c == a + (b + c)
  {
  }

  // ----- unions

  function UnionAll<T(==)>(sets: seq<set<T>>): set<T> {
    if sets == [] then {} else UnionAll(sets[..|sets| - 1]) + sets[|sets| - 1]
  }

  function SumSizes<T>(sets: seq<set<T>>): nat {
    if sets == [] then 0 else SumSizes(sets[..|sets| - 1]) + |sets[|sets| - 1]|
  }

  lemma {:induction false} UnionSize<T>(a: set<T>, b: set<T>)
    ensures |a| <= |a + b| && |b| <= |a + b| && |a + b| <= |a| + |b|
  {
    SubsetSize(a, a + b);
    SubsetSize(b, a + b);
    assert a + b == a + (b - a);
    SubsetSize(b - a, b);
  }

  /** The size of a union lies between the largest size and the sum of the sizes. */
  lemma {:induction false} UnionAllHas<T>(sets: seq<set<T>>, x: T)
    ensures x in UnionAll(sets) <==> exists i :: 0 <= i < |sets| && x in sets[i]
  {
    if sets != [] {
      var n := |sets| - 1;
      UnionAllHas(sets[..n], x);
      if i :| 0 <= i < |sets| && x in sets[i] {
        assert i < n ==> x in sets[..n][i];
      }
    }
  }

  lemma {:induction false} UnionAllSize<T>(sets: seq<set<T>>)
    ensures |UnionAll(sets)| <= SumSizes(sets)
    ensures forall i | 0 <= i < |sets| :: |sets[i]| <= |UnionAll(sets)|
  {
    if sets != [] {
      var n := |sets| - 1;
      UnionAllSize(sets[..n]);
      UnionSize(UnionAll(sets[..n]), sets[n]);
      assert forall i | 0 <= i < n :: sets[..n][i] == sets[i];
    }
  }

  lemma {:induction false} UnionAllUpdated<T>(sets: seq<set<T>>, i: nat, more: set<T>)
    requires i < |sets|
    ensures UnionAll(sets[i := sets[i] + more]) == UnionAll(sets) + more
  {
    var n, sets' := |sets| - 1, sets[i := sets[i] + more];
    if i < n {
      UnionAllUpdated(sets[..n], i, more);
      assert sets'[..n] == sets[..n][i := sets[..n][i] + more];
    } else {
      assert sets'[..n] == sets[..n];
    }
  }

  // ----- first occurrences

  /** The distinct elements of a sequence, in order of first occurrence. */
  function FirstOccurrences<T(==,!new)>(s: seq<T>): (d: seq<T>)
    ensures forall x :: x in d <==> x in s
  {
    if s == [] then []
    else
      var front, x := s[..|s| - 1], s[|s| - 1];
      var d := FirstOccurrences(front);
      assert s == front + [x];
      if x in front then d else d + [x]
  }

  ghost predicate NoDuplicates<T>(s: seq<T>) {
    forall i, j | 0 <= i < j < |s| :: s[i] != s[j]
  }

  /** The position of the first occurrence. */
  function FirstIndex<T(==)>(s: seq<T>, x: T): (i: nat)
    requires x in s
    ensures i < |s| && s[i] == x && x !in s[..i]
  {
    if s[0] == x then 0 else 1 + FirstIndex(s[1..], x)
  }

  lemma {:induction false} FirstIndexUnique<T>(s: seq<T>, x: T, i: nat)
    requires i < |s| && s[i] == x && x !in s[..i]
    ensures FirstIndex(s, x) == i
  {
    var j := FirstIndex(s, x);
    assert forall k | 0 <= k < i :: s[k] == s[..i][k];
    assert forall k | 0 <= k < j :: s[k] == s[..j][k];
  }

  /** The elements of `d` stand in the order in which `s` first has them. */
  ghost predicate InOrderOfFirstSight<T(!new)>(s: seq<T>, d: seq<T>)
    requires forall x :: x in d ==> x in s
  {
    forall i, j | 0 <= i < j < |d| :: FirstIndex(s, d[i]) < FirstIndex(s, d[j])
  }

  /** No element is listed twice, and the order is that of the first occurrences. */
  lemma {:induction false} FirstOccurrencesOrdered<T(!new)>(s: seq<T>)
    ensures NoDuplicates(FirstOccurrences(s))
    ensures InOrderOfFirstSight(s, FirstOccurrences(s))
  {
    if s != [] {
      var front, x := s[..|s| - 1], s[|s| - 1];
      assert s == front + [x];
      FirstOccurrencesOrdered(front);
      var d, d' := FirstOccurrences(front), FirstOccurrences(s);
      forall i, j | 0 <= i < j < |d'|
        ensures FirstIndex(s, d'[i]) < FirstIndex(s, d'[j])
      {
        assert d'[i] == d[i] && d[i] in front && d'[j] in s;
        FirstIndexOfFront(front, x, d'[i]);
        FirstIndexOfFront(front, x, d'[j]);
        if x in front {
          assert d'[j] == d[j] && d[j] in front;
        }
      }
    }
  }

  lemma {:induction false} FirstIndexOfFront<T>(front: seq<T>, x: T, y: T)
    ensures y in front ==> FirstIndex(front + [x], y) == FirstIndex(front, y)
    ensures y !in front && x == y ==> FirstIndex(front + [x], y) == |front|
  {
    var s := front + [x];
    if y in front {
      var i := FirstIndex(front, y);
      assert s[..i] == front[..i];
      FirstIndexUnique(s, y, i);
    } else if x == y {
      assert s[..|front|] == front;
      FirstIndexUnique(s, y, |front|);
    }
  }
}
