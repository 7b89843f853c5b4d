/** Sums over dictionaries and walks over sets, in whatever order they come. */
module Dicts {

  ghost function AnyOf<T(!new)>(s: set<T>): (x: T)
    requires s != {}
    ensures x in s
  {
    var x :| x in s;
    x
  }

  /** The sum of the values of a dictionary. */
  lemma TwoOf<T(!new)>(s: set<T>) returns (a: T, b: T)
    requires |s| > 1
    ensures a in s && b in s && a != b
  {
    a := AnyOf(s);
    assert s == {a} + (s - {a});
    b := AnyOf(s - {a});
  }

  ghost function Sum(m: map<int, int>): int
    decreases |m|
  {
    if m == map[] then 0
    else
      assert m.Keys != {};
      var k := AnyOf(m.Keys);
      m[k] + Sum(m - {k})
  }

  lemma {:induction false} SumRemove(m: map<int, int>, k: int)
    requires k in m
    ensures Sum(m) == m[k] + Sum(m - {k})
    decreases |m|
  {
    assert m.Keys != {};
    var j := AnyOf(m.Keys);
    if j != k {
      SumRemove(m - {j}, k);
      SumRemove(m - {k}, j);
      assert m - {j} - {k} == m - {k} - {j};
    }
  }

  lemma SumUpdate(m: map<int, int>, k: int, v: int)
    requires k in m
    ensures Sum(m[k := v]) == Sum(m) - m[k] + v
  {
    SumRemove(m, k);
    SumRemove(m[k := v], k);
    assert m[k := v] - {k} == m - {k};
  }

  lemma {:induction false} SumOfEqual(m: map<int, int>, v: int)
    requires forall k | k in m :: m[k] == v
    ensures Sum(m) == |m| * v
    decreases |m|
  {
    if m != map[] {
      assert m.Keys != {};
      SumOfEqual(m - {AnyOf(m.Keys)}, v);
      assert |m| * v == v + (|m| - 1) * v;
    }
  }

  /** Some element: a dictionary or a set may be walked in any order. */
  method Pick<T(==)>(s: set<T>) returns (x: T)
    requires s != {}
    ensures x in s
  {
    x :| x in s;
  }

  /** `sum(d.values())`. */
  method Total(m: map<int, int>) returns (total: int)
    ensures total == Sum(m)
  {
    total := 0;
    var left := m;
    while left != map[]
      invariant total + Sum(left) == Sum(m)
      decreases |left|
    {
      assert left.Keys != {};
      var k := Pick(left.Keys);
      SumRemove(left, k);
      total := total + left[k];
      left := left - {k};
    }
  }
}
