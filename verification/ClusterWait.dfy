/** `_wait_for_cluster` (`testing/ci_runner.py`): when a poll counts as converged, and
    how long the polls must have counted as converged before the wait returns. What
    the nodes answer and what the clock shows are given beforehand. */
module ClusterWait {
  import opened Dicts
  import opened MaximalRuns
  import opened Options
  import opened QuorumLeader

  datatype Goal = Goal(
    nodes: set<int>,            // the configured node ids
    expectedNodes: int, expectedLeaders: int,
    leaderNot: Option<int>, leaderEquals: Option<int>,
    requireAllVoters: bool, requireReplicationHealth: bool,
    minHealthyReplicas: int, live: int)

  /** The leader's metrics: one `pgbattery_replica_is_sync` value per replica. */
  datatype Metrics = Metrics(replicas: seq<real>, healthy: Option<int>)

  /** What a poll saw when no request of it failed. */
  datatype Observation = Observation(nodeCount: int, views: Views, leases: set<int>, voterCount: int,
                                     metrics: Option<Metrics>)

  /** The clock at the loop test, and at the two readings after a converged poll. */
  datatype Poll = Poll(guardAt: real, observed: Option<Observation>, heldAt: real, nowAt: real)

  datatype Judgement = Illegal | NotYet | Converged

  // ----- One poll -----

  predicate IsSync(v: real) { v >= 1.5 }
  predicate IsPotential(v: real) { 0.5 <= v < 1.5 }
  predicate IsAsync(v: real) { v < 0.5 }

  function Max(a: int, b: int): int { if a < b then b else a }

  function ExpectedSync(goal: Goal): int { if goal.live >= 2 then 1 else 0 }
  function ExpectedPotential(goal: Goal): int { if goal.live >= 3 then 1 else 0 }

  /** The nodes that name themselves and hold a valid lease. */
  function LeasedClaimants(o: Observation): set<int> {
    set node | node in o.views && o.views[node] == Some(node) && node in o.leases
  }

  predicate TopologyOk(goal: Goal, o: Observation, leader: Option<int>) {
    o.nodeCount == goal.expectedNodes && (if leader.Some? then 1 else 0) == goal.expectedLeaders
  }

  predicate LeaderOk(goal: Goal, leader: Option<int>) {
    && (goal.leaderNot.Some? ==> leader.Some? && leader != goal.leaderNot)
    && (goal.leaderEquals.Some? ==> leader == goal.leaderEquals)
  }

  predicate ViewsOk(goal: Goal, o: Observation, leader: Option<int>) {
    && |goal.nodes - o.views.Keys| <= goal.expectedNodes - goal.live
    && forall node | node in o.views :: o.views[node] == leader
  }

  predicate ReplicasIllegal(goal: Goal, m: Metrics) {
    Count(m.replicas, IsSync) > ExpectedSync(goal) || |m.replicas| > goal.expectedNodes - 1
  }

  predicate ReplicasOk(goal: Goal, m: Metrics) {
    && |m.replicas| == Max(0, goal.live - 1)
    && Count(m.replicas, IsSync) == ExpectedSync(goal)
    && Count(m.replicas, IsPotential) == ExpectedPotential(goal)
    && Count(m.replicas, IsAsync) == 0
    && (if m.healthy.Some? then m.healthy.value else 0) >= Max(0, goal.minHealthyReplicas)
  }

  /** The verdict on one poll whose majority leader is `leader`. */
  function Judge(goal: Goal, o: Observation, leader: Option<int>): Judgement {
    var inspects := goal.requireReplicationHealth && TopologyOk(goal, o, leader) && leader.Some?;
    if |LeasedClaimants(o)| > 1 then Illegal
    else if inspects && o.metrics.Some? && ReplicasIllegal(goal, o.metrics.value) then Illegal
    else if
      && TopologyOk(goal, o, leader) && LeaderOk(goal, leader)
      && (goal.requireAllVoters ==> o.voterCount == goal.expectedNodes)
      && (inspects ==> ViewsOk(goal, o, leader) && o.metrics.Some? && ReplicasOk(goal, o.metrics.value))
    then Converged
    else NotYet
  }

  /** The leader a majority of the configured nodes names, if there is one. */
  ghost function LeaderOf(goal: Goal, o: Observation): Option<int> {
    if exists l :: Certified(o.views, |goal.nodes|, l) then
      var l :| Certified(o.views, |goal.nodes|, l);
      Some(l)
    else None
  }

  ghost function JudgementOf(goal: Goal, o: Observation): Judgement {
    Judge(goal, o, LeaderOf(goal, o))
  }

  method JudgePoll(goal: Goal, o: Observation) returns (j: Judgement)
    requires o.views.Keys <= goal.nodes
    ensures j == JudgementOf(goal, o)
    ensures j == Illegal <==> Unlawful(goal, o)
    ensures j == Converged <==> !Unlawful(goal, o) && Fulfils(goal, o)
  {
    JudgementIff(goal, o);
    Subset(o.views.Keys, goal.nodes);
    assert |o.views| == |o.views.Keys|;
    var leader := MajorityLeader(o.views, |goal.nodes|);
    assert leader.Some? ==> Certified(o.views, |goal.nodes|, leader.value);
    assert leader == LeaderOf(goal, o);
    j := Judge(goal, o, leader);
  }

  // ----- What the judgement means -----

  /** Node `n` names itself and may write. */
  predicate Leads(o: Observation, n: int) {
    n in o.views && o.views[n] == Some(n) && n in o.leases
  }

  ghost predicate SplitBrain(o: Observation) {
    exists a, b :: a != b && Leads(o, a) && Leads(o, b)
  }

  /** A majority of the configured nodes names `l`. */
  ghost predicate Leader(goal: Goal, o: Observation, l: int) {
    2 * |set n | n in o.views && o.views[n] == Some(l)| > |goal.nodes|
  }

  /** The poll has the number of nodes and leaders that is asked for. */
  ghost predicate RightShape(goal: Goal, o: Observation) {
    && o.nodeCount == goal.expectedNodes
    && (goal.expectedLeaders == 1 || goal.expectedLeaders == 0)
    && (goal.expectedLeaders == 1 <==> exists l :: Leader(goal, o, l))
  }

  /** The replicas are looked at. */
  ghost predicate Inspected(goal: Goal, o: Observation) {
    goal.requireReplicationHealth && RightShape(goal, o) && goal.expectedLeaders == 1
  }

  /** The replicas with a value in a range, open at the top; a bound that is absent does not bind. */
  function Ranged(values: seq<real>, lo: Option<real>, hi: Option<real>): set<int> {
    set i | 0 <= i < |values| && (lo.Some? ==> lo.value <= values[i]) && (hi.Some? ==> values[i] < hi.value)
  }

  /** More synchronous replicas than one, or than none with fewer than two live nodes;
      or more replicas than there are other nodes. */
  ghost predicate TooMany(goal: Goal, m: Metrics) {
    || |Ranged(m.replicas, Some(1.5), None)| > (if goal.live < 2 then 0 else 1)
    || |m.replicas| >= goal.expectedNodes
  }

  /** Every live node but the leader is a replica, the first synchronous, the second potentially, and no other. */
  ghost predicate RightReplicas(goal: Goal, m: Metrics) {
    && |m.replicas| == (if goal.live < 1 then 0 else goal.live - 1)
    && |Ranged(m.replicas, Some(1.5), None)| == (if goal.live < 2 then 0 else 1)
    && |Ranged(m.replicas, Some(0.5), Some(1.5))| == (if goal.live < 3 then 0 else 1)
    && Ranged(m.replicas, None, Some(0.5)) == {}
    && (goal.minHealthyReplicas <= 0 || (m.healthy.Some? && m.healthy.value >= goal.minHealthyReplicas))
    && (m.healthy.Some? ==> m.healthy.value >= 0)
  }

  /** At most as many configured nodes are missing as are down, and those that answered all name the leader. */
  ghost predicate OneView(goal: Goal, o: Observation) {
    && |set n | n in goal.nodes && n !in o.views| <= goal.expectedNodes - goal.live
    && forall n | n in o.views :: o.views[n].Some? && Leader(goal, o, o.views[n].value)
  }

  ghost predicate Unlawful(goal: Goal, o: Observation) {
    SplitBrain(o) || (Inspected(goal, o) && o.metrics.Some? && TooMany(goal, o.metrics.value))
  }

  /** What a converged poll shows. */
  ghost predicate Fulfils(goal: Goal, o: Observation) {
    && RightShape(goal, o)
    && (goal.leaderNot.Some? ==> exists l :: Leader(goal, o, l) && l != goal.leaderNot.value)
    && (goal.leaderEquals.Some? ==> Leader(goal, o, goal.leaderEquals.value))
    && (goal.requireAllVoters ==> o.voterCount == goal.expectedNodes)
    && (Inspected(goal, o) ==> OneView(goal, o) && o.metrics.Some? && RightReplicas(goal, o.metrics.value))
  }

  lemma RangesCount(values: seq<real>)
    ensures Count(values, IsSync) == |Ranged(values, Some(1.5), None)|
    ensures Count(values, IsPotential) == |Ranged(values, Some(0.5), Some(1.5))|
    ensures Count(values, IsAsync) == |Ranged(values, None, Some(0.5))|
  {
    CountIsSize(values, IsSync);
    CountIsSize(values, IsPotential);
    CountIsSize(values, IsAsync);
    assert Positions(values, IsSync) == Ranged(values, Some(1.5), None);
    assert Positions(values, IsPotential) == Ranged(values, Some(0.5), Some(1.5));
    assert Positions(values, IsAsync) == Ranged(values, None, Some(0.5));
  }

  lemma LeaderIs(goal: Goal, o: Observation, l: int)
    requires o.views.Keys <= goal.nodes
    ensures Leader(goal, o, l) <==> LeaderOf(goal, o) == Some(l)
  {
    assert (set n | n in o.views && o.views[n] == Some(l)) == Voters(o.views, l);
    Subset(o.views.Keys, goal.nodes);
    assert |o.views| == |o.views.Keys|;
    if Certified(o.views, |goal.nodes|, l) {
      OnlyOneLeader(o.views, |goal.nodes|, l, LeaderOf(goal, o).value);
    }
  }

  lemma SplitBrainIff(o: Observation)
    ensures SplitBrain(o) <==> |LeasedClaimants(o)| > 1
  {
    var claimants := LeasedClaimants(o);
    if SplitBrain(o) {
      var a, b :| a != b && Leads(o, a) && Leads(o, b);
      Subset({a, b}, claimants);
    }
    if |claimants| > 1 {
      var a, b := TwoOf(claimants);
      assert Leads(o, a) && Leads(o, b);
    }
  }

  lemma ShapeIs(goal: Goal, o: Observation)
    requires o.views.Keys <= goal.nodes
    ensures RightShape(goal, o) <==> TopologyOk(goal, o, LeaderOf(goal, o))
    ensures RightShape(goal, o) ==> (LeaderOf(goal, o).Some? <==> goal.expectedLeaders == 1)
  {
    forall l ensures Leader(goal, o, l) <==> LeaderOf(goal, o) == Some(l) { LeaderIs(goal, o, l); }
    if LeaderOf(goal, o).Some? { assert Leader(goal, o, LeaderOf(goal, o).value); }
  }

  lemma ConditionsAre(goal: Goal, o: Observation)
    requires o.views.Keys <= goal.nodes
    ensures LeaderOk(goal, LeaderOf(goal, o)) <==>
            && (goal.leaderNot.Some? ==> exists l :: Leader(goal, o, l) && l != goal.leaderNot.value)
            && (goal.leaderEquals.Some? ==> Leader(goal, o, goal.leaderEquals.value))
    ensures LeaderOf(goal, o).Some? ==> (ViewsOk(goal, o, LeaderOf(goal, o)) <==> OneView(goal, o))
  {
    forall l ensures Leader(goal, o, l) <==> LeaderOf(goal, o) == Some(l) { LeaderIs(goal, o, l); }
    if LeaderOf(goal, o).Some? { assert Leader(goal, o, LeaderOf(goal, o).value); }
    assert (set n | n in goal.nodes && n !in o.views) == goal.nodes - o.views.Keys;
  }

  lemma ReplicasAre(goal: Goal, m: Metrics)
    ensures ReplicasIllegal(goal, m) <==> TooMany(goal, m)
    ensures ReplicasOk(goal, m) <==> RightReplicas(goal, m)
  {
    RangesCount(m.replicas);
  }

  /** A poll is illegal exactly for a split brain or too many replicas, and converged
      exactly if it is not illegal and shows all that the goal asks for. */
  lemma JudgementIff(goal: Goal, o: Observation)
    requires o.views.Keys <= goal.nodes
    ensures JudgementOf(goal, o) == Illegal <==> Unlawful(goal, o)
    ensures JudgementOf(goal, o) == Converged <==> !Unlawful(goal, o) && Fulfils(goal, o)
  {
    SplitBrainIff(o);
    ShapeIs(goal, o);
    ConditionsAre(goal, o);
    if o.metrics.Some? { ReplicasAre(goal, o.metrics.value); }
  }

  lemma {:induction false} EveryReplicaCounts(values: seq<real>)
    ensures Count(values, IsSync) + Count(values, IsPotential) + Count(values, IsAsync) == |values|
  {
    if values != [] { EveryReplicaCounts(values[..|values| - 1]); }
  }

  /** The replica shape the check asks for adds up only for up to three live nodes. */
  lemma HealthNeedsAtMostThree(goal: Goal, o: Observation, leader: Option<int>)
    requires goal.requireReplicationHealth && goal.expectedLeaders == 1 && Judge(goal, o, leader) == Converged
    ensures goal.live <= 3
  {
    EveryReplicaCounts(o.metrics.value.replicas);
  }

  /** The goals with one leader and healthy replication that can be met. */
  predicate CanBeMet(goal: Goal) {
    && goal.live <= 3 && goal.expectedNodes >= 1 && goal.nodes != {}
    && (goal.leaderEquals.Some? ==> goal.leaderEquals != goal.leaderNot)
  }

  function HealthyReplicas(live: int): seq<real> {
    if live >= 3 then [2.0, 1.0] else if live == 2 then [2.0] else []
  }

  lemma HealthyCounts()
    ensures Count([2.0], IsSync) == 1 && Count([2.0], IsPotential) == 0 && Count([2.0], IsAsync) == 0
    ensures Count([2.0, 1.0], IsSync) == 1 && Count([2.0, 1.0], IsPotential) == 1 && Count([2.0, 1.0], IsAsync) == 0
  {
    assert [2.0, 1.0][..1] == [2.0] && [2.0][..0] == [];
    forall p: real -> bool ensures Count([2.0], p) == if p(2.0) then 1 else 0 {
      assert [2.0][..0] == [];
    }
  }

  /** A whole cluster that names `leader`, with every replica in place. */
  function Healthy(goal: Goal, leader: int): Observation {
    Observation(goal.expectedNodes, map node | node in goal.nodes :: Some(leader), {}, goal.expectedNodes,
                Some(Metrics(HealthyReplicas(goal.live), Some(Max(0, goal.minHealthyReplicas)))))
  }

  lemma HealthyLeader(goal: Goal, leader: int)
    requires goal.nodes != {}
    ensures LeaderOf(goal, Healthy(goal, leader)) == Some(leader)
  {
    var views := Healthy(goal, leader).views;
    assert Voters(views, leader) == goal.nodes;
    forall l ensures Certified(views, |goal.nodes|, l) <==> l == leader {
      if l != leader { assert Voters(views, l) == {}; }
    }
    assert |goal.nodes| > 0 && Certified(views, |goal.nodes|, leader);
  }

  lemma HealthyConverges(goal: Goal, leader: int)
    requires 0 <= goal.live <= goal.expectedNodes && goal.expectedLeaders == 1 && CanBeMet(goal)
    requires LeaderOk(goal, Some(leader))
    ensures JudgementOf(goal, Healthy(goal, leader)) == Converged
  {
    HealthyLeader(goal, leader);
    HealthyCounts();
    var o := Healthy(goal, leader);
    assert LeasedClaimants(o) == {} && goal.nodes - o.views.Keys == {};
  }

  lemma LeaderNeedsNodes(goal: Goal, o: Observation)
    requires o.views.Keys <= goal.nodes && LeaderOf(goal, o).Some?
    ensures goal.nodes != {}
  {
    var l :| Certified(o.views, |goal.nodes|, l);
    assert Voters(o.views, l) <= goal.nodes;
  }

  ghost predicate SomePollConverges(goal: Goal) {
    exists o: Observation :: o.views.Keys <= goal.nodes && JudgementOf(goal, o) == Converged
  }

  /** With one leader expected and replication health required, some poll can count
      as converged if and only if at most three nodes are live and the goal does not
      contradict itself. */
  lemma HealthConvergesIff(goal: Goal)
    requires goal.requireReplicationHealth && goal.expectedLeaders == 1 && 0 <= goal.live <= goal.expectedNodes
    ensures SomePollConverges(goal) <==> CanBeMet(goal)
  {
    if SomePollConverges(goal) {
      var o: Observation :| o.views.Keys <= goal.nodes && JudgementOf(goal, o) == Converged;
      HealthNeedsAtMostThree(goal, o, LeaderOf(goal, o));
      LeaderNeedsNodes(goal, o);
    }
    if CanBeMet(goal) {
      var leader := if goal.leaderEquals.Some? then goal.leaderEquals.value
                    else if goal.leaderNot == Some(1) then 2 else 1;
      HealthyConverges(goal, leader);
      assert Healthy(goal, leader).views.Keys <= goal.nodes;
    }
  }

  lemma MetWhenConverged(goal: Goal, o: Observation)
    requires 0 <= goal.live <= goal.expectedNodes && o.views.Keys <= goal.nodes && JudgementOf(goal, o) == Converged
    ensures goal.requireReplicationHealth && goal.expectedLeaders == 1 ==> CanBeMet(goal)
  {
    if goal.requireReplicationHealth && goal.expectedLeaders == 1 {
      HealthConvergesIff(goal);
    }
  }

  // ----- The stability window -----

  /** A clock that never goes back, and a pause of two seconds between polls. */
  ghost predicate Clock(goal: Goal, polls: nat -> Poll) {
    forall k: nat ::
      && polls(k).guardAt <= polls(k).heldAt <= polls(k).nowAt && polls(k).nowAt + 2.0 <= polls(k + 1).guardAt
      && (polls(k).observed.Some? ==> polls(k).observed.value.views.Keys <= goal.nodes)
  }

  ghost predicate At(goal: Goal, polls: nat -> Poll, k: nat, j: Judgement) {
    polls(k).observed.Some? && JudgementOf(goal, polls(k).observed.value) == j
  }

  /** Poll `k` completed and was not converged. */
  ghost predicate Breaks(goal: Goal, polls: nat -> Poll, k: nat) {
    polls(k).observed.Some? && JudgementOf(goal, polls(k).observed.value) != Converged
  }

  /** From poll `first` to poll `k` every poll that completed was converged, the two
      ends did, and they are at least `stableFor` apart. */
  ghost predicate Window(goal: Goal, polls: nat -> Poll, stableFor: real, first: nat, k: nat) {
    && first <= k && At(goal, polls, first, Converged) && At(goal, polls, k, Converged)
    && (forall b: nat | first <= b <= k :: !Breaks(goal, polls, b))
    && polls(k).nowAt - polls(first).heldAt >= stableFor
  }

  ghost predicate Settled(goal: Goal, polls: nat -> Poll, stableFor: real, k: nat) {
    At(goal, polls, k, Converged) && (stableFor <= 0.0 || exists first :: Window(goal, polls, stableFor, first, k))
  }

  lemma {:induction false} LaterIsLater(goal: Goal, polls: nat -> Poll, i: nat, k: nat)
    requires Clock(goal, polls) && i <= k
    ensures polls(i).heldAt <= polls(k).heldAt
    decreases k - i
  {
    if i < k { LaterIsLater(goal, polls, i + 1, k); }
  }

  /** The run of converged polls that `stable_since` stands for, before poll `k`. */
  ghost predicate Tracks(goal: Goal, polls: nat -> Poll, k: nat, since: Option<nat>) {
    var from: nat := if since.Some? then since.value else k;
    && from <= k && (since.Some? ==> from < k && At(goal, polls, from, Converged))
    && (forall b: nat | from <= b < k :: !Breaks(goal, polls, b))
    && (forall j: nat | j < from && At(goal, polls, j, Converged) ::
          exists b: nat :: j < b < from && Breaks(goal, polls, b))
  }

  datatype Ending = Returned | RaisedIllegal | TimedOut | InvalidLive

  lemma TrackOneMore(goal: Goal, polls: nat -> Poll, k: nat, since: Option<nat>)
    requires Tracks(goal, polls, k, since)
    ensures At(goal, polls, k, Converged) ==> Tracks(goal, polls, k + 1, if since.Some? then since else Some(k))
    ensures Breaks(goal, polls, k) ==> Tracks(goal, polls, k + 1, None)
    ensures polls(k).observed == None ==> Tracks(goal, polls, k + 1, since)
  {
    var from: nat := if since.Some? then since.value else k;
    if Breaks(goal, polls, k) {
      forall j: nat | j < k + 1 && At(goal, polls, j, Converged)
        ensures exists b: nat :: j < b < k + 1 && Breaks(goal, polls, b)
      {
        if j < from {
          var b: nat :| j < b < from && Breaks(goal, polls, b);
        } else {
          assert j < k < k + 1 && Breaks(goal, polls, k);
        }
      }
    } else if since.None? {
      forall j: nat | j < k && At(goal, polls, j, Converged)
        ensures exists b: nat :: j < b < k + 1 && Breaks(goal, polls, b)
      {
        var b: nat :| j < b < from && Breaks(goal, polls, b);
      }
    }
  }

  /** The tracked run is the longest: if it is too short, every window is. */
  lemma TooShort(goal: Goal, polls: nat -> Poll, stableFor: real, k: nat, since: nat)
    requires Clock(goal, polls) && Tracks(goal, polls, k + 1, Some(since)) && stableFor > 0.0
    requires polls(k).nowAt - polls(since).heldAt < stableFor
    ensures !Settled(goal, polls, stableFor, k)
  {
    forall first: nat ensures !Window(goal, polls, stableFor, first, k) {
      if first < since && At(goal, polls, first, Converged) {
        var b: nat :| first < b < since && Breaks(goal, polls, b);
      } else if since <= first {
        LaterIsLater(goal, polls, since, first);
      }
    }
  }

  lemma LongEnough(goal: Goal, polls: nat -> Poll, stableFor: real, k: nat, since: nat)
    requires At(goal, polls, k, Converged) && Tracks(goal, polls, k + 1, Some(since))
    requires stableFor <= 0.0 || polls(k).nowAt - polls(since).heldAt >= stableFor
    ensures Settled(goal, polls, stableFor, k)
  {
    if stableFor > 0.0 { assert Window(goal, polls, stableFor, since, k); }
  }

  ghost predicate NothingYet(goal: Goal, polls: nat -> Poll, stableFor: real, n: nat) {
    forall k: nat | k < n :: !Settled(goal, polls, stableFor, k) && !At(goal, polls, k, Illegal)
  }

  /** The state of the loop before poll `n`: `stableSince` is when poll `since` was held. */
  ghost predicate Waiting(goal: Goal, polls: nat -> Poll, stableFor: real, n: nat, since: Option<nat>,
                          stableSince: Option<real>)
  {
    && NothingYet(goal, polls, stableFor, n) && Tracks(goal, polls, n, since)
    && stableSince == if since.Some? then Some(polls(since.value).heldAt) else None
  }

  lemma WaitOn(goal: Goal, polls: nat -> Poll, stableFor: real, n: nat, since: Option<nat>, stableSince: Option<real>)
    requires Waiting(goal, polls, stableFor, n, since, stableSince)
    ensures polls(n).observed == None ==> Waiting(goal, polls, stableFor, n + 1, since, stableSince)
    ensures At(goal, polls, n, NotYet) ==> Waiting(goal, polls, stableFor, n + 1, None, None)
  {
    TrackOneMore(goal, polls, n, since);
  }

  /** A converged poll settles the wait, or the wait goes on with the window open. */
  lemma WaitOnConverged(goal: Goal, polls: nat -> Poll, stableFor: real, n: nat, since: Option<nat>,
                        stableSince: Option<real>)
    requires Clock(goal, polls) && Waiting(goal, polls, stableFor, n, since, stableSince)
             && At(goal, polls, n, Converged)
    ensures var first := if since.Some? then since.value else n;
            var held := polls(first).heldAt;
            if stableFor <= 0.0 || polls(n).nowAt - held >= stableFor then Settled(goal, polls, stableFor, n)
            else Waiting(goal, polls, stableFor, n + 1, Some(first), Some(held))
  {
    TrackOneMore(goal, polls, n, since);
    var first := if since.Some? then since.value else n;
    if stableFor <= 0.0 || polls(n).nowAt - polls(first).heldAt >= stableFor {
      LongEnough(goal, polls, stableFor, n, first);
    } else {
      TooShort(goal, polls, stableFor, n, first);
    }
  }

  /** `_wait_for_cluster`. It looks at polls `0..n` and ends at the first that is
      settled or illegal, or at the first that begins past the deadline. A poll that
      raised neither extends nor breaks the window. */
  method WaitForCluster(goal: Goal, start: real, timeout: int, stableFor: real, polls: nat -> Poll)
    returns (r: Ending, n: nat)
    requires Clock(goal, polls)
    ensures r == InvalidLive <==> goal.live > goal.expectedNodes || goal.live < 0
    ensures r != InvalidLive ==> NothingYet(goal, polls, stableFor, n)
    ensures r == Returned ==> Settled(goal, polls, stableFor, n)
    ensures r == RaisedIllegal ==> At(goal, polls, n, Illegal)
    ensures r == TimedOut ==> polls(n).guardAt >= start + timeout as real
    ensures r == Returned || r == RaisedIllegal ==> polls(n).guardAt < start + timeout as real
    ensures r == Returned && goal.requireReplicationHealth && goal.expectedLeaders == 1 ==> CanBeMet(goal)
  {
    n := 0;
    if goal.live > goal.expectedNodes || goal.live < 0 {
      return InvalidLive, 0;
    }
    var deadline := start + timeout as real;
    var stableSince: Option<real> := None;
    ghost var since: Option<nat> := None;
    while polls(n).guardAt < deadline
      invariant Waiting(goal, polls, stableFor, n, since, stableSince)
      decreases (deadline - polls(n).guardAt).Floor
    {
      var poll := polls(n);
      WaitOn(goal, polls, stableFor, n, since, stableSince);
      if poll.observed.Some? {
        var j := JudgePoll(goal, poll.observed.value);
        if j == Illegal {
          return RaisedIllegal, n;
        }
        if j == Converged {
          WaitOnConverged(goal, polls, stableFor, n, since, stableSince);
          if stableSince == None {
            stableSince, since := Some(poll.heldAt), Some(n);
          }
          if stableFor <= 0.0 || poll.nowAt - stableSince.value >= stableFor {
            MetWhenConverged(goal, poll.observed.value);
            return Returned, n;
          }
        } else {
          stableSince, since := None, None;
        }
      }
      n := n + 1;
    }
    r := TimedOut;
  }
}
