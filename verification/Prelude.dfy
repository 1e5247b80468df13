// Values shared by every module: optional results, finite sums over sets, and
// the sorted enumeration of a finite set that Python's `sorted` produces.

module Wrappers {

  datatype Option<+T> = None | Some(value: T)

  datatype Result<+R, +E> = Success(value: R) | Failure(error: E)
}

module Sums {

  /** The sum of `f` over a finite set. */
  ghost function SumSet<T>(s: set<T>, f: T -> real): real {
    if s == {} then 0.0 else
      var x :| x in s;
      f(x) + SumSet(s - {x}, f)
  }

  /** Any element can be taken out of the sum first. */
  lemma {:induction false} SumRemove<T>(s: set<T>, x: T, f: T -> real)
    requires x in s
    ensures SumSet(s, f) == f(x) + SumSet(s - {x}, f)
    decreases s
  {
    var y :| y in s && SumSet(s, f) == f(y) + SumSet(s - {y}, f);
    if y != x {
      SumRemove(s - {y}, x, f);
      SumRemove(s - {x}, y, f);
      assert s - {y} - {x} == s - {x} - {y};
    }
  }

  lemma SumAdd<T>(s: set<T>, x: T, f: T -> real)
    requires x !in s
    ensures SumSet(s + {x}, f) == f(x) + SumSet(s, f)
  {
    SumRemove(s + {x}, x, f);
    assert s + {x} - {x} == s;
  }

  /** Only the values of `f` on the set matter. */
  lemma {:induction false} SumCongruent<T>(s: set<T>, f: T -> real, g: T -> real)
    requires forall x | x in s :: f(x) == g(x)
    ensures SumSet(s, f) == SumSet(s, g)
    decreases s
  {
    if s != {} {
      var x :| x in s;
      SumRemove(s, x, f);
      SumRemove(s, x, g);
      SumCongruent(s - {x}, f, g);
    }
  }

  /** Elements on which `f` vanishes may be added or dropped. */
  lemma {:induction false} SumSupport<T>(s: set<T>, t: set<T>, f: T -> real)
    requires s <= t
    requires forall x | x in t - s :: f(x) == 0.0
    ensures SumSet(s, f) == SumSet(t, f)
    decreases t
  {
    if s == t {
      assert s == t;
    } else {
      assert !(t <= s);
      var x :| x in t && x !in s;
      SumRemove(t, x, f);
      SumSupport(s, t - {x}, f);
    }
  }

  lemma {:induction false} SumPlus<T>(s: set<T>, f: T -> real, g: T -> real, h: T -> real)
    requires forall x | x in s :: h(x) == f(x) + g(x)
    ensures SumSet(s, h) == SumSet(s, f) + SumSet(s, g)
    decreases s
  {
    if s != {} {
      var x :| x in s;
      SumRemove(s, x, f);
      SumRemove(s, x, g);
      SumRemove(s, x, h);
      SumPlus(s - {x}, f, g, h);
    }
  }

  /** The sum of `f` along a sequence, in order. */
  function SumSeq<T>(q: seq<T>, f: T -> real): real {
    if q == [] then 0.0 else SumSeq(q[..|q| - 1], f) + f(q[|q| - 1])
  }

  ghost predicate Distinct<T>(q: seq<T>) {
    forall i, j | 0 <= i < j < |q| :: q[i] != q[j]
  }

  /** A duplicate-free listing has the sum of the set it lists. */
  lemma {:induction false} SumSeqIsSumSet<T>(q: seq<T>, f: T -> real)
    requires Distinct(q)
    ensures SumSeq(q, f) == SumSet((set x | x in q), f)
  {
    if q == [] {
      assert (set x | x in q) == {};
    } else {
      var p, last := q[..|q| - 1], q[|q| - 1];
      SumSeqIsSumSet(p, f);
      var s := set x | x in p;
      assert q == p + [last] && last !in s;
      assert (set x | x in q) == s + {last};
      SumAdd(s, last, f);
    }
  }
}

module Sorting {

  ghost predicate TotalOrder<T(!new)>(leq: (T, T) -> bool) {
    && (forall a, b :: leq(a, b) || leq(b, a))
    && (forall a, b :: leq(a, b) && leq(b, a) ==> a == b)
    && (forall a, b, c :: leq(a, b) && leq(b, c) ==> leq(a, c))
  }

  ghost predicate Increasing<T>(q: seq<T>, leq: (T, T) -> bool) {
    forall i, j | 0 <= i < j < |q| :: leq(q[i], q[j]) && q[i] != q[j]
  }

  function AtMost(): (int, int) -> bool {
    (a, b) => a <= b
  }

  ghost predicate LowerBound<T>(m: T, s: set<T>, leq: (T, T) -> bool) {
    forall y | y in s :: leq(m, y)
  }

  lemma {:induction false} LeastExists<T(!new)>(s: set<T>, leq: (T, T) -> bool)
    requires s != {} && TotalOrder(leq)
    ensures exists m | m in s :: LowerBound(m, s, leq)
    decreases s
  {
    var x :| x in s;
    if s == {x} {
      assert LowerBound(x, s, leq);
    } else {
      var rest := s - {x};
      LeastExists(rest, leq);
      var m :| m in rest && LowerBound(m, rest, leq);
      assert LowerBound(if leq(x, m) then x else m, s, leq);
    }
  }

  function Least<T(!new)>(s: set<T>, leq: (T, T) -> bool): (m: T)
    requires s != {} && TotalOrder(leq)
    ensures m in s && LowerBound(m, s, leq)
  {
    LeastExists(s, leq);
    var m :| m in s && forall y | y in s :: leq(m, y);
    m
  }

  /** `sorted(s)`: the increasing listing of a finite set. */
  function Sorted<T(!new)>(s: set<T>, leq: (T, T) -> bool): seq<T>
    requires TotalOrder(leq)
  {
    if s == {} then [] else
      var m := Least(s, leq);
      [m] + Sorted(s - {m}, leq)
  }

  lemma {:induction false} SortedElements<T(!new)>(s: set<T>, leq: (T, T) -> bool)
    requires TotalOrder(leq)
    ensures forall x :: x in Sorted(s, leq) <==> x in s
    ensures |Sorted(s, leq)| == |s|
    decreases s
  {
    if s != {} {
      var m := Least(s, leq);
      SortedElements(s - {m}, leq);
    }
  }

  lemma {:induction false} SortedIncreasing<T(!new)>(s: set<T>, leq: (T, T) -> bool)
    requires TotalOrder(leq)
    ensures Increasing(Sorted(s, leq), leq)
    decreases s
  {
    if s != {} {
      var m := Least(s, leq);
      var rest := Sorted(s - {m}, leq);
      SortedIncreasing(s - {m}, leq);
      SortedElements(s - {m}, leq);
      forall j | 0 <= j < |rest| ensures leq(m, rest[j]) && m != rest[j] {
        assert rest[j] in rest;
      }
    }
  }
}
