// Feature keys, and the sorted listing of a set of them.

module FeatureKeys {
  import opened Sorting

  /** `(identifier, version)`, compared as Python compares tuples. */
  datatype Key = Key(identifier: string, version: int)

  predicate StringAtMost(a: string, b: string) {
    a == [] || (b != [] && (a[0] < b[0] || (a[0] == b[0] && StringAtMost(a[1..], b[1..]))))
  }

  predicate KeyAtMost(a: Key, b: Key) {
    if a.identifier == b.identifier then a.version <= b.version else StringAtMost(a.identifier, b.identifier)
  }

  /** `a` is smaller than `b` at `n`, where they first differ. */
  ghost predicate SmallerAt(a: string, b: string, n: nat) {
    n < |a| && n < |b| && a[..n] == b[..n] && a[n] < b[n]
  }

  /** `a` is a prefix of `b`, or smaller where they first differ. */
  ghost predicate NoGreater(a: string, b: string) {
    a <= b || exists n: nat :: SmallerAt(a, b, n)
  }

  lemma SmallerFurtherOn(a: string, b: string, n: nat)
    requires a != [] && b != []
    ensures SmallerAt(a, b, n + 1) <==> a[0] == b[0] && SmallerAt(a[1..], b[1..], n)
  {
    if n + 1 <= |a| && n + 1 <= |b| {
      assert a[..n + 1] == [a[0]] + a[1..][..n] && b[..n + 1] == [b[0]] + b[1..][..n];
    }
  }

  lemma NoGreaterFromTail(a: string, b: string)
    requires a != [] && b != [] && a[0] == b[0]
    ensures NoGreater(a, b) <==> NoGreater(a[1..], b[1..])
  {
    hide SmallerAt;
    assert a == [a[0]] + a[1..] && b == [b[0]] + b[1..];
    assert a <= b <==> a[1..] <= b[1..];
    if n: nat :| SmallerAt(a[1..], b[1..], n) {
      SmallerFurtherOn(a, b, n);
    }
    if n: nat :| SmallerAt(a, b, n) {
      SmallerNow(a, b, n);
      SmallerFurtherOn(a, b, n - 1);
    }
  }

  lemma SmallerNow(a: string, b: string, n: nat)
    ensures SmallerAt(a, b, n) && n > 0 ==> a[0] == b[0]
    ensures SmallerAt(a, b, 0) <==> a != [] && b != [] && a[0] < b[0]
  {
    if SmallerAt(a, b, n) && n > 0 {
      assert a[..n][0] == b[..n][0];
    }
  }

  lemma {:induction false} StringAtMostIs(a: string, b: string)
    ensures StringAtMost(a, b) <==> NoGreater(a, b)
  {
    hide SmallerAt;
    SmallerNow(a, b, 0);
    if a != [] && b != [] && a[0] == b[0] {
      StringAtMostIs(a[1..], b[1..]);
      NoGreaterFromTail(a, b);
    } else if n: nat :| SmallerAt(a, b, n) {
      SmallerNow(a, b, n);
      SmallerNonEmpty(a, b, n);
    }
  }

  lemma SmallerNonEmpty(a: string, b: string, n: nat)
    ensures SmallerAt(a, b, n) ==> a != [] && b != []
  {
  }

  /** Keys sort by identifier, character by character, and then by version. */
  lemma KeysSortAsTuples(a: Key, b: Key)
    ensures KeyAtMost(a, b) <==>
              if a.identifier == b.identifier then a.version <= b.version else NoGreater(a.identifier, b.identifier)
  {
    StringAtMostIs(a.identifier, b.identifier);
  }

  function KeyOrder(): (Key, Key) -> bool {
    (a, b) => KeyAtMost(a, b)
  }

  lemma {:induction false} StringTotal(a: string, b: string)
    ensures StringAtMost(a, b) || StringAtMost(b, a)
    ensures StringAtMost(a, b) && StringAtMost(b, a) ==> a == b
  {
    if a != [] && b != [] {
      StringTotal(a[1..], b[1..]);
      if a[0] == b[0] && a[1..] == b[1..] {
        assert a == [a[0]] + a[1..] && b == [b[0]] + b[1..];
      }
    }
  }

  lemma {:induction false} StringTransitive(a: string, b: string, c: string)
    requires StringAtMost(a, b) && StringAtMost(b, c)
    ensures StringAtMost(a, c)
  {
    if a != [] && a[0] == b[0] && b[0] == c[0] {
      StringTransitive(a[1..], b[1..], c[1..]);
    }
  }

  lemma KeysTotallyOrdered()
    ensures TotalOrder(KeyOrder())
  {
    var leq := KeyOrder();
    forall a: Key, b: Key
      ensures leq(a, b) || leq(b, a)
      ensures leq(a, b) && leq(b, a) ==> a == b
    {
      StringTotal(a.identifier, b.identifier);
    }
    forall a: Key, b: Key, c: Key | leq(a, b) && leq(b, c) ensures leq(a, c) {
      KeyTransitive(a, b, c);
    }
  }

  lemma KeyTransitive(a: Key, b: Key, c: Key)
    requires KeyAtMost(a, b) && KeyAtMost(b, c)
    ensures KeyAtMost(a, c)
  {
    if a.identifier != b.identifier && b.identifier != c.identifier {
      StringTransitive(a.identifier, b.identifier, c.identifier);
      StringTotal(a.identifier, b.identifier);
    }
  }

  /** `sorted(keys)`. */
  function SortedKeys(keys: set<Key>): (q: seq<Key>)
    ensures forall k :: k in q <==> k in keys
  {
    KeysTotallyOrdered();
    SortedElements(keys, KeyOrder());
    Sorted(keys, KeyOrder())
  }

  lemma SortedKeysIncrease(keys: set<Key>)
    ensures var q := SortedKeys(keys);
            forall i, j | 0 <= i < j < |q| :: KeyAtMost(q[i], q[j]) && q[i] != q[j]
  {
    KeysTotallyOrdered();
    SortedIncreasing(keys, KeyOrder());
    assert SortedKeys(keys) == Sorted(keys, KeyOrder());
    var q := SortedKeys(keys);
    forall i, j | 0 <= i < j < |q| ensures KeyAtMost(q[i], q[j]) && q[i] != q[j] {
      assert KeyOrder()(q[i], q[j]);
    }
  }
}
