/** Splitting a sequence into maximal runs of adjacent elements that satisfy a
    predicate and join their neighbour. Two of the harness's oracles scan for
    such runs from left to right. */
module MaximalRuns {
  import opened Sequences

  datatype Span = Span(lo: nat, hi: nat)

  predicate IsRun<T>(s: seq<T>, p: T -> bool, joins: (T, T) -> bool, r: Span) {
    && r.lo < r.hi <= |s|
    && (forall k | r.lo <= k < r.hi :: p(s[k]))
    && (forall k | r.lo < k < r.hi :: joins(s[k - 1], s[k]))
  }

  /** Positions `k - 1` and `k` belong to one run. */
  predicate Linked<T>(s: seq<T>, p: T -> bool, joins: (T, T) -> bool, k: int)
    requires 0 <= k <= |s|
  {
    0 < k < |s| && p(s[k - 1]) && p(s[k]) && joins(s[k - 1], s[k])
  }

  predicate IsMaximalRun<T>(s: seq<T>, p: T -> bool, joins: (T, T) -> bool, r: Span) {
    IsRun(s, p, joins, r) && !Linked(s, p, joins, r.lo) && !Linked(s, p, joins, r.hi)
  }

  predicate Ordered(runs: seq<Span>) {
    forall i, j | 0 <= i < j < |runs| :: runs[i].hi <= runs[j].lo
  }

  ghost predicate Covers(runs: seq<Span>, k: nat) {
    exists r | r in runs :: r.lo <= k < r.hi
  }

  /** The maximal runs of `s`, all of them, from left to right. */
  ghost predicate AreTheRuns<T>(s: seq<T>, p: T -> bool, joins: (T, T) -> bool, runs: seq<Span>) {
    && (forall r | r in runs :: IsMaximalRun(s, p, joins, r))
    && Ordered(runs)
    && (forall k | 0 <= k < |s| && p(s[k]) :: Covers(runs, k))
  }

  // ----- There is only one such list -----

  lemma InsideIsLinked<T>(s: seq<T>, p: T -> bool, joins: (T, T) -> bool, r: Span, k: nat)
    requires IsRun(s, p, joins, r) && r.lo < k < r.hi
    ensures Linked(s, p, joins, k)
  {
  }

  lemma RunsNeverCross<T>(s: seq<T>, p: T -> bool, joins: (T, T) -> bool, a: Span, b: Span, k: nat)
    requires IsMaximalRun(s, p, joins, a) && IsMaximalRun(s, p, joins, b)
    requires a.lo <= k < a.hi && b.lo <= k < b.hi
    ensures a == b
  {
    if a.lo < b.lo {
      InsideIsLinked(s, p, joins, a, b.lo);
    } else if b.lo < a.lo {
      InsideIsLinked(s, p, joins, b, a.lo);
    } else if a.hi < b.hi {
      InsideIsLinked(s, p, joins, b, a.hi);
    } else if b.hi < a.hi {
      InsideIsLinked(s, p, joins, a, b.hi);
    }
  }

  lemma EveryRunIsListed<T>(s: seq<T>, p: T -> bool, joins: (T, T) -> bool, runs: seq<Span>, r: Span)
    requires AreTheRuns(s, p, joins, runs) && IsMaximalRun(s, p, joins, r)
    ensures r in runs
  {
    assert p(s[r.lo]) && Covers(runs, r.lo);
    var found :| found in runs && found.lo <= r.lo < found.hi;
    RunsNeverCross(s, p, joins, found, r, r.lo);
  }

  /** The list of maximal runs is determined by the sequence. */
  lemma {:induction false} RunsAreUnique<T>(s: seq<T>, p: T -> bool, joins: (T, T) -> bool, a: seq<Span>, b: seq<Span>)
    requires AreTheRuns(s, p, joins, a) && AreTheRuns(s, p, joins, b)
    ensures a == b
  {
    forall r ensures r in a <==> r in b {
      if r in a { EveryRunIsListed(s, p, joins, b, r); }
      if r in b { EveryRunIsListed(s, p, joins, a, r); }
    }
    SameSpansSameOrder(a, b);
  }

  lemma HasElement<T>(s: seq<T>)
    ensures s != [] ==> exists x :: x in s
  {
    if s != [] { assert s[0] in s; }
  }

  lemma {:induction false} SameSpansSameOrder(a: seq<Span>, b: seq<Span>)
    requires Ordered(a) && Ordered(b) && (forall r :: r in a <==> r in b)
    requires forall r | r in a :: r.lo < r.hi
    ensures a == b
  {
    if a != [] && b != [] {
      assert a[0] in b && b[0] in a;
      assert a[0] == b[0];
      forall r ensures r in a[1..] <==> r in b[1..] {
        assert r in a[1..] ==> r in a && r != a[0];
        assert r in b[1..] ==> r in b && r != b[0];
        assert r in a && r != a[0] ==> r in a[1..];
        assert r in b && r != b[0] ==> r in b[1..];
      }
      SameSpansSameOrder(a[1..], b[1..]);
      assert a == [a[0]] + a[1..] && b == [b[0]] + b[1..];
    } else {
      HasElement(a);
      HasElement(b);
    }
  }

  // ----- What lies between two runs -----

  lemma CoveredAt(runs: seq<Span>, k: nat) returns (i: nat)
    requires Covers(runs, k)
    ensures i < |runs| && runs[i].lo <= k < runs[i].hi
  {
    var r :| r in runs && r.lo <= k < r.hi;
    i :| 0 <= i < |runs| && runs[i] == r;
  }

  /** Neighbouring runs either touch without joining, or an element that does
      not satisfy `p` follows the first. */
  lemma RunsAreApart<T>(s: seq<T>, p: T -> bool, joins: (T, T) -> bool, runs: seq<Span>, k: nat)
    requires AreTheRuns(s, p, joins, runs) && 0 < k < |runs|
    ensures var a, b := runs[k - 1], runs[k];
            && 0 < a.hi <= b.lo < |s|
            && (a.hi < b.lo ==> !p(s[a.hi]))
            && (a.hi == b.lo ==> !joins(s[b.lo - 1], s[b.lo]))
  {
    var a, b := runs[k - 1], runs[k];
    assert a in runs && b in runs;
    assert p(s[b.lo]) && p(s[a.hi - 1]);
    if a.hi < b.lo && p(s[a.hi]) {
      var i := CoveredAt(runs, a.hi);
      OrderedAround(runs, i, k);
    }
  }

  lemma OrderedAround(runs: seq<Span>, i: nat, k: nat)
    requires Ordered(runs) && i < |runs| && 0 < k < |runs|
    requires forall r | r in runs :: r.lo < r.hi
    ensures runs[i].hi <= runs[k - 1].hi || runs[k].lo <= runs[i].lo
  {
    assert runs[k - 1] in runs && runs[k] in runs;
  }

  // ----- The left-to-right scan -----

  /** After `i` elements: `runs` are closed and the run under way is `start` up to `i`. */
  ghost predicate Scanned<T>(s: seq<T>, p: T -> bool, joins: (T, T) -> bool, runs: seq<Span>, start: nat, i: nat) {
    && start <= i <= |s|
    && (forall r | r in runs :: IsMaximalRun(s, p, joins, r) && r.hi <= start)
    && Ordered(runs)
    && (forall k | 0 <= k < start && p(s[k]) :: Covers(runs, k))
    && !Linked(s, p, joins, start)
    && (start < i ==> IsRun(s, p, joins, Span(start, i)))
  }

  lemma CoversMore(runs: seq<Span>, r: Span)
    ensures forall k: nat :: Covers(runs + [r], k) <==> Covers(runs, k) || r.lo <= k < r.hi
  {
    forall k: nat ensures Covers(runs + [r], k) <==> Covers(runs, k) || r.lo <= k < r.hi {
      if Covers(runs, k) {
        var found :| found in runs && found.lo <= k < found.hi;
        assert found in runs + [r];
      } else if r.lo <= k < r.hi {
        assert r in runs + [r];
      }
    }
  }

  /** Closing the run under way, at an element or an end it does not join. */
  lemma CloseRun<T>(s: seq<T>, p: T -> bool, joins: (T, T) -> bool, runs: seq<Span>, start: nat, i: nat)
    requires Scanned(s, p, joins, runs, start, i) && start < i && !Linked(s, p, joins, i)
    ensures Scanned(s, p, joins, runs + [Span(start, i)], i, i)
  {
    CoversMore(runs, Span(start, i));
  }

  lemma SkipElement<T>(s: seq<T>, p: T -> bool, joins: (T, T) -> bool, runs: seq<Span>, i: nat)
    requires Scanned(s, p, joins, runs, i, i) && i < |s| && !p(s[i])
    ensures Scanned(s, p, joins, runs, i + 1, i + 1)
  {
  }

  lemma ExtendRun<T>(s: seq<T>, p: T -> bool, joins: (T, T) -> bool, runs: seq<Span>, start: nat, i: nat)
    requires Scanned(s, p, joins, runs, start, i) && i < |s| && p(s[i])
    requires start < i ==> joins(s[i - 1], s[i])
    ensures Scanned(s, p, joins, runs, start, i + 1)
  {
  }

  lemma ScanDone<T>(s: seq<T>, p: T -> bool, joins: (T, T) -> bool, runs: seq<Span>)
    requires Scanned(s, p, joins, runs, |s|, |s|)
    ensures AreTheRuns(s, p, joins, runs)
  {
  }

  function CloseAt(start: nat, i: nat): seq<Span> {
    if start < i then [Span(start, i)] else []
  }

  /** The runs still to come when the run under way is `start` up to `i`. */
  function RunsFrom<T>(s: seq<T>, p: T -> bool, joins: (T, T) -> bool, start: nat, i: nat): seq<Span>
    requires start <= i <= |s|
    decreases |s| - i
  {
    if i == |s| then CloseAt(start, i)
    else if !p(s[i]) then CloseAt(start, i) + RunsFrom(s, p, joins, i + 1, i + 1)
    else if start < i && !joins(s[i - 1], s[i]) then CloseAt(start, i) + RunsFrom(s, p, joins, i, i + 1)
    else RunsFrom(s, p, joins, start, i + 1)
  }

  lemma {:induction false} RunsFromCompletes<T>(s: seq<T>, p: T -> bool, joins: (T, T) -> bool, runs: seq<Span>,
                                                start: nat, i: nat) returns (all: seq<Span>)
    requires Scanned(s, p, joins, runs, start, i)
    ensures AreTheRuns(s, p, joins, all) && all == runs + RunsFrom(s, p, joins, start, i)
    decreases |s| - i
  {
    if i < |s| && p(s[i]) && (start < i ==> joins(s[i - 1], s[i])) {
      ExtendRun(s, p, joins, runs, start, i);
      all := RunsFromCompletes(s, p, joins, runs, start, i + 1);
    } else {
      var closed := CloseIfOpen(s, p, joins, runs, start, i);
      all := RunsFromClosed(s, p, joins, closed, i);
      Regroup(runs, CloseAt(start, i), AfterClosing(s, p, joins, i));
      AddNothing(CloseAt(start, i));
    }
  }

  function AfterClosing<T>(s: seq<T>, p: T -> bool, joins: (T, T) -> bool, i: nat): seq<Span>
    requires i <= |s|
  {
    if i == |s| then [] else if p(s[i]) then RunsFrom(s, p, joins, i, i + 1) else RunsFrom(s, p, joins, i + 1, i + 1)
  }

  lemma CloseIfOpen<T>(s: seq<T>, p: T -> bool, joins: (T, T) -> bool, runs: seq<Span>,
                       start: nat, i: nat) returns (closed: seq<Span>)
    requires Scanned(s, p, joins, runs, start, i) && (start < i ==> !Linked(s, p, joins, i))
    ensures Scanned(s, p, joins, closed, i, i) && closed == runs + CloseAt(start, i)
  {
    closed := runs + CloseAt(start, i);
    if start < i {
      CloseRun(s, p, joins, runs, start, i);
    } else {
      assert closed == runs;
    }
  }

  lemma RunsFromClosed<T>(s: seq<T>, p: T -> bool, joins: (T, T) -> bool, runs: seq<Span>, i: nat)
    returns (all: seq<Span>)
    requires Scanned(s, p, joins, runs, i, i)
    ensures AreTheRuns(s, p, joins, all) && all == runs + AfterClosing(s, p, joins, i)
    decreases |s| - i, 0
  {
    if i == |s| {
      ScanDone(s, p, joins, runs);
      all := runs;
    } else if !p(s[i]) {
      SkipElement(s, p, joins, runs, i);
      all := RunsFromCompletes(s, p, joins, runs, i + 1, i + 1);
    } else {
      ExtendRun(s, p, joins, runs, i, i);
      all := RunsFromCompletes(s, p, joins, runs, i, i + 1);
    }
  }

  /** A left-to-right scan finds the maximal runs. */
  function Runs<T>(s: seq<T>, p: T -> bool, joins: (T, T) -> bool): seq<Span> {
    RunsFrom(s, p, joins, 0, 0)
  }

  lemma RunsAreTheRuns<T>(s: seq<T>, p: T -> bool, joins: (T, T) -> bool)
    ensures AreTheRuns(s, p, joins, Runs(s, p, joins))
  {
    ScanBegins(s, p, joins);
    var all := RunsFromCompletes(s, p, joins, [], 0, 0);
    AddNothing(Runs(s, p, joins));
  }

  lemma ScanBegins<T>(s: seq<T>, p: T -> bool, joins: (T, T) -> bool)
    ensures Scanned(s, p, joins, [], 0, 0)
  {
  }

  /** The scan is at `i` with `closed` behind it and `start` up to `i` under way. */
  ghost predicate Pending<T>(s: seq<T>, p: T -> bool, joins: (T, T) -> bool, closed: seq<Span>, start: nat, i: nat) {
    start <= i <= |s| && closed + RunsFrom(s, p, joins, start, i) == Runs(s, p, joins)
  }

  lemma PendingSkip<T>(s: seq<T>, p: T -> bool, joins: (T, T) -> bool, closed: seq<Span>, start: nat, i: nat)
    requires Pending(s, p, joins, closed, start, i) && i < |s| && !p(s[i])
    ensures Pending(s, p, joins, closed + CloseAt(start, i), i + 1, i + 1)
  {
    Regroup(closed, CloseAt(start, i), RunsFrom(s, p, joins, i + 1, i + 1));
  }

  lemma PendingBreak<T>(s: seq<T>, p: T -> bool, joins: (T, T) -> bool, closed: seq<Span>, start: nat, i: nat)
    requires Pending(s, p, joins, closed, start, i) && start < i < |s| && p(s[i]) && !joins(s[i - 1], s[i])
    ensures Pending(s, p, joins, closed + CloseAt(start, i), i, i + 1)
  {
    Regroup(closed, CloseAt(start, i), RunsFrom(s, p, joins, i, i + 1));
  }

  lemma PendingExtend<T>(s: seq<T>, p: T -> bool, joins: (T, T) -> bool, closed: seq<Span>, start: nat, i: nat)
    requires Pending(s, p, joins, closed, start, i) && i < |s| && p(s[i]) && (start < i ==> joins(s[i - 1], s[i]))
    ensures Pending(s, p, joins, closed, start, i + 1)
  {
  }

  // ----- Counting -----

  function Total(runs: seq<Span>): int {
    if runs == [] then 0 else Total(runs[..|runs| - 1]) + (runs[|runs| - 1].hi - runs[|runs| - 1].lo)
  }

  function Count<T>(s: seq<T>, p: T -> bool): nat {
    if s == [] then 0 else Count(s[..|s| - 1], p) + if p(s[|s| - 1]) then 1 else 0
  }

  /** The positions of the elements that satisfy `p`. */
  function Positions<T>(s: seq<T>, p: T -> bool): set<int> {
    set i | 0 <= i < |s| && p(s[i])
  }

  lemma {:induction false} CountIsSize<T>(s: seq<T>, p: T -> bool)
    ensures Count(s, p) == |Positions(s, p)|
  {
    if s == [] {
      assert Positions(s, p) == {};
    } else {
      var init, last := s[..|s| - 1], |s| - 1;
      CountIsSize(init, p);
      assert Positions(s, p) == Positions(init, p) + if p(s[last]) then {last} else {};
    }
  }

  lemma {:induction false} CountSplit<T>(s: seq<T>, p: T -> bool, n: nat)
    requires n <= |s|
    ensures Count(s, p) == Count(s[..n], p) + Count(s[n..], p)
    decreases |s|
  {
    if n == |s| {
      assert s[..n] == s;
    } else {
      CountSplit(s[..|s| - 1], p, n);
      assert s[..|s| - 1][..n] == s[..n] && s[n..][..|s| - n - 1] == s[..|s| - 1][n..];
    }
  }

  lemma {:induction false} CountUniform<T>(s: seq<T>, p: T -> bool, b: bool)
    requires forall k | 0 <= k < |s| :: p(s[k]) == b
    ensures Count(s, p) == if b then |s| else 0
  {
    if s != [] { CountUniform(s[..|s| - 1], p, b); }
  }

  predicate Holds<T>(s: seq<T>, p: T -> bool, r: Span) {
    r.lo < r.hi <= |s| && forall k | r.lo <= k < r.hi :: p(s[k])
  }

  lemma CountAround<T>(s: seq<T>, p: T -> bool, r: Span)
    requires Holds(s, p, r) && forall k | r.hi <= k < |s| :: !p(s[k])
    ensures Count(s, p) == Count(s[..r.lo], p) + (r.hi - r.lo)
  {
    NoneAfter(s, p, r.hi);
    CountSplit(s[..r.hi], p, r.lo);
    assert s[..r.hi][..r.lo] == s[..r.lo];
    CountUniform(s[..r.hi][r.lo..], p, true);
  }

  lemma NoneAfter<T>(s: seq<T>, p: T -> bool, n: nat)
    requires n <= |s| && forall k | n <= k < |s| :: !p(s[k])
    ensures Count(s, p) == Count(s[..n], p)
  {
    CountSplit(s, p, n);
    CountUniform(s[n..], p, false);
  }

  /** Ordered spans inside `s` that leave out no element satisfying `p`. */
  ghost predicate SpansOf<T>(s: seq<T>, p: T -> bool, runs: seq<Span>) {
    && Ordered(runs) && (forall r | r in runs :: Holds(s, p, r))
    && (forall k | 0 <= k < |s| && p(s[k]) :: Covers(runs, k))
  }

  lemma WithoutLastSpan<T>(s: seq<T>, p: T -> bool, init: seq<Span>, r: Span)
    requires SpansOf(s, p, init + [r])
    ensures Holds(s, p, r) && SpansOf(s[..r.lo], p, init)
    ensures forall k | r.hi <= k < |s| :: !p(s[k])
  {
    var runs := init + [r];
    assert runs[|init|] == r && r in runs;
    CoversMore(init, r);
    forall q | q in init ensures q.hi <= r.lo && Holds(s, p, q) {
      var i :| 0 <= i < |init| && init[i] == q;
      assert runs[i] == q && q in runs;
    }
    assert Ordered(init) by {
      assert forall i | 0 <= i < |init| :: runs[i] == init[i];
    }
  }

  /** They hold each element satisfying `p` exactly once. */
  lemma {:induction false} SpansCount<T>(s: seq<T>, p: T -> bool, runs: seq<Span>)
    requires SpansOf(s, p, runs)
    ensures Total(runs) == Count(s, p)
    decreases |runs|
  {
    if runs == [] {
      CountUniform(s, p, false);
    } else {
      var init, r := runs[..|runs| - 1], runs[|runs| - 1];
      assert runs == init + [r];
      WithoutLastSpan(s, p, init, r);
      SpansCount(s[..r.lo], p, init);
      CountAround(s, p, r);
    }
  }
}
