/** Concatenation, for every module that builds sequences. */
module Sequences {

  lemma Regroup<T>(a: seq<T>, b: seq<T>, c: seq<T>)
    ensures a + b + c == a + (b + c)
  {
  }

  lemma AddNothing<T>(a: seq<T>)
    ensures [] + a == a && a + [] == a
  {
  }

  lemma WholeSlice<T>(a: seq<T>)
    ensures a[..|a|] == a
  {
  }

  lemma InFront<T>(all: seq<T>, a: seq<T>, b: seq<T>, i: nat)
    requires all == a + b && i < |a|
    ensures i < |all| && all[i] == a[i]
  {
  }

  lemma BehindHead<T>(all: seq<T>, head: T, rest: seq<T>, i: nat)
    requires all == [head] + rest
    ensures |all| == |rest| + 1 && all[0] == head && (0 < i <= |rest| ==> all[i] == rest[i - 1])
  {
  }

  // ----- Sequences of sequences -----

  function Flat<T>(parts: seq<seq<T>>): seq<T> {
    if parts == [] then [] else Flat(parts[..|parts| - 1]) + parts[|parts| - 1]
  }

  lemma FlatUpTo<T>(parts: seq<seq<T>>, k: nat)
    requires k < |parts|
    ensures Flat(parts[..k + 1]) == Flat(parts[..k]) + parts[k]
  {
    assert parts[..k + 1][..k] == parts[..k];
  }

  lemma {:induction false} FlatPrefix<T>(parts: seq<seq<T>>, k: nat)
    requires k <= |parts|
    ensures Flat(parts[..k]) <= Flat(parts)
    decreases |parts|
  {
    if k == |parts| {
      WholeSlice(parts);
    } else {
      var init := parts[..|parts| - 1];
      FlatPrefix(init, k);
      assert init[..k] == parts[..k];
    }
  }

  lemma FlatStep<T>(parts: seq<seq<T>>, k: nat)
    requires k < |parts|
    ensures Flat(parts[..k + 1]) == Flat(parts[..k]) + parts[k] && Flat(parts[..k]) + parts[k] <= Flat(parts)
  {
    FlatUpTo(parts, k);
    FlatPrefix(parts, k + 1);
  }

  lemma FlatOfOne<T>(a: seq<T>)
    ensures Flat([a]) == a
  {
    assert [a][..0] == [];
    AddNothing(a);
  }

  lemma FlatOfTwo<T>(a: seq<T>, b: seq<T>)
    ensures Flat([a, b]) == a + b
  {
    FlatOfOne(a);
    assert [a, b][..1] == [a];
  }
}
