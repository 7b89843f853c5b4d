/** `check_monotonic_read_invariant` (`testing/correctness_lite.py`): reads that went
    back, found with a single running maximum. */
module MonotonicReads {

  /** After write `iter`, the largest value read was `max`. */
  datatype Read = Read(iter: int, max: int)

  /** The evidence kept for one regression. */
  datatype Regression = Regression(previousIter: int, runningMax: int, iter: int, max: int)

  predicate NonDecreasing(obs: seq<Read>) {
    forall i, j | 0 <= i < j < |obs| :: obs[i].max <= obs[j].max
  }

  /** The largest of the first `n` reads. */
  function MaxOf(obs: seq<Read>, n: nat): (m: int)
    requires 0 < n <= |obs|
    ensures forall i | 0 <= i < n :: obs[i].max <= m
    ensures exists i | 0 <= i < n :: obs[i].max == m
  {
    if n == 1 then obs[0].max
    else
      var m := MaxOf(obs, n - 1);
      if obs[n - 1].max > m then obs[n - 1].max else m
  }

  /** Read `j` is smaller than an earlier one. */
  predicate GoesBack(obs: seq<Read>, j: nat) {
    0 < j < |obs| && exists i | 0 <= i < j :: obs[j].max < obs[i].max
  }

  /** What the loop keeps of the regression at read `j`. */
  function Evidence(obs: seq<Read>, j: nat): Regression
    requires 0 < j < |obs|
  {
    Regression(obs[j - 1].iter, MaxOf(obs, j), obs[j].iter, obs[j].max)
  }

  /** The evidence for each of the first `n` reads that goes back, in order. */
  function AllEvidence(obs: seq<Read>, n: nat): seq<Regression>
    requires n <= |obs|
  {
    if n == 0 then [] else AllEvidence(obs, n - 1) + (if GoesBack(obs, n - 1) then [Evidence(obs, n - 1)] else [])
  }

  lemma {:induction false} NoEvidenceIff(obs: seq<Read>, n: nat)
    requires n <= |obs|
    ensures AllEvidence(obs, n) == [] <==> NonDecreasing(obs[..n])
  {
    if n > 0 {
      NoEvidenceIff(obs, n - 1);
      assert obs[..n] == obs[..n - 1] + [obs[n - 1]];
    }
  }

  /** The single pass. */
  method Regressions(obs: seq<Read>) returns (found: seq<Regression>)
    ensures found == AllEvidence(obs, |obs|)
    ensures found == [] <==> NonDecreasing(obs)
  {
    NoEvidenceIff(obs, |obs|);
    assert obs[..|obs|] == obs;
    found := [];
    if obs == [] {
      return;
    }
    var previous, runningMax := obs[0], obs[0].max;
    for j := 1 to |obs|
      invariant previous == obs[j - 1] && runningMax == MaxOf(obs, j)
      invariant found == AllEvidence(obs, j)
    {
      var current := obs[j];
      assert current.max < runningMax <==> GoesBack(obs, j);
      if current.max < runningMax {
        found := found + [Regression(previous.iter, runningMax, current.iter, current.max)];
      }
      if current.max > runningMax {
        runningMax := current.max;
      }
      previous := current;
    }
  }

  method Largest(values: seq<int>) returns (m: int)
    requires values != []
    ensures m in values && forall v | v in values :: v <= m
  {
    m := values[0];
    for i := 1 to |values|
      invariant m in values && forall k | 0 <= k < i :: values[k] <= m
    {
      if values[i] > m {
        m := values[i];
      }
    }
  }

  /** The whole check: silent exactly when no read went back and the last read
      reached every acked write. */
  method CheckMonotonicReads(obs: seq<Read>, acked: seq<int>) returns (regressions: seq<Regression>, lost: bool)
    ensures regressions == [] && !lost <==>
            obs == [] || (NonDecreasing(obs) && forall v | v in acked :: v <= obs[|obs| - 1].max)
    ensures lost <==> obs != [] && exists v | v in acked :: forall i | 0 <= i < |obs| :: obs[i].max < v
  {
    regressions := Regressions(obs);
    lost := false;
    if obs != [] && acked != [] {
      var maxima := seq(|obs|, i requires 0 <= i < |obs| => obs[i].max);
      var finalMax := Largest(maxima);
      var maxAcked := Largest(acked);
      assert forall i | 0 <= i < |obs| :: maxima[i] in maxima && maxima[i] == obs[i].max;
      lost := finalMax < maxAcked;
    }
  }

  /** The evidence names a read that really showed the running maximum exactly when
      the read just before did. */
  lemma EvidenceIsARead(obs: seq<Read>, j: nat)
    requires GoesBack(obs, j)
    ensures obs[j - 1] == Read(Evidence(obs, j).previousIter, Evidence(obs, j).runningMax) <==> !GoesBack(obs, j - 1)
  {
    if j > 1 {
      assert GoesBack(obs, j - 1) <==> obs[j - 1].max < MaxOf(obs, j - 1);
    }
  }

  const DIP := [Read(1, 5), Read(2, 3), Read(3, 4)]

  /** Reads 5, 3, 4: the evidence for the last one says that read 2 had shown 5. */
  lemma EvidenceCanMislead()
    ensures GoesBack(DIP, 2) && Evidence(DIP, 2) == Regression(2, 5, 3, 4) && DIP[1] == Read(2, 3)
  {
    assert DIP[2].max < DIP[0].max;
    assert MaxOf(DIP, 1) == 5;
  }
}
