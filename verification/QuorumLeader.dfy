/** Who a majority of the configured nodes names as leader: the three
    computations of `testing/ci_runner.py`, `testing/correctness_lite.py` and
    `testing/five_node_suite.py`. */
module QuorumLeader {
  import opened Dicts
  import opened Options

  /** Who each node that answered names. */
  type Views = map<int, Option<int>>

  function Voters(views: Views, leader: int): set<int> {
    set node | node in views && views[node] == Some(leader)
  }

  /** A strict majority of `n` configured nodes names `leader`. */
  predicate Certified(views: Views, n: nat, leader: int) {
    2 * |Voters(views, leader)| > n
  }

  // ----- The tally the three share -----

  ghost predicate IsTally(views: Views, tally: map<int, nat>) {
    forall leader :: |Voters(views, leader)| == if leader in tally then tally[leader] else 0
  }

  /** The counting loop. */
  method Tally(views: Views) returns (tally: map<int, nat>)
    ensures IsTally(views, tally)
    ensures forall leader | leader in tally :: tally[leader] > 0
  {
    tally := map[];
    var left := views.Keys;
    ghost var seen: Views := map[];
    while left != {}
      invariant left <= views.Keys && seen == map node | node in views && node !in left :: views[node]
      invariant IsTally(seen, tally)
      invariant forall leader | leader in tally :: tally[leader] > 0
      decreases |left|
    {
      var node := Pick(left);
      left := left - {node};
      ghost var before := seen;
      seen := map k | k in views && k !in left :: views[k];
      OneMoreView(before, node, views[node]);
      assert seen == before[node := views[node]];
      if views[node].Some? {
        var leader := views[node].value;
        tally := tally[leader := (if leader in tally then tally[leader] else 0) + 1];
      }
    }
    assert seen == views;
  }

  lemma OneMoreView(views: Views, node: int, view: Option<int>)
    requires node !in views
    ensures forall leader ::
              |Voters(views[node := view], leader)| == |Voters(views, leader)| + if view == Some(leader) then 1 else 0
  {
    forall leader
      ensures |Voters(views[node := view], leader)| == |Voters(views, leader)| + if view == Some(leader) then 1 else 0
    {
      OneMoreVoter(views, node, view, leader);
    }
  }

  lemma OneMoreVoter(views: Views, node: int, view: Option<int>, leader: int)
    requires node !in views
    ensures |Voters(views[node := view], leader)| == |Voters(views, leader)| + if view == Some(leader) then 1 else 0
  {
    var more, voters := Voters(views[node := view], leader), Voters(views, leader);
    if view == Some(leader) {
      assert more == voters + {node};
    } else {
      assert more == voters;
    }
  }

  /** `_quorum_leader`, and `quorum_leader` of the five-node suite with `n == 5`:
      the first tally entry that reaches the quorum. */
  method MajorityLeader(views: Views, n: nat) returns (leader: Option<int>)
    requires |views| <= n
    ensures forall l :: leader == Some(l) <==> Certified(views, n, l)
  {
    var quorum := n / 2 + 1;
    var tally := Tally(views);
    leader := None;
    var left := tally.Keys;
    while left != {}
      invariant left <= tally.Keys && leader == None
      invariant forall l | l in tally && l !in left :: tally[l] < quorum
      decreases |left|
    {
      var l := Pick(left);
      left := left - {l};
      if tally[l] >= quorum {
        forall other | Certified(views, n, other) ensures other == l {
          OnlyOneLeader(views, n, l, other);
        }
        return Some(l);
      }
    }
  }

  /** `LeaderPollRound.quorum_leader`: the most common answer, if a majority of
      all the ports polled gave it. */
  method MostCommonLeader(responses: Views) returns (leader: Option<int>)
    ensures forall l :: leader == Some(l) <==> Certified(responses, |responses|, l)
  {
    var tally := Tally(responses);
    if tally == map[] {
      return None;
    }
    assert tally.Keys != {};
    var best := Pick(tally.Keys);
    var left := tally.Keys - {best};
    while left != {}
      invariant left <= tally.Keys && best in tally
      invariant forall l | l in tally && l !in left :: tally[l] <= tally[best]
      decreases |left|
    {
      var l := Pick(left);
      left := left - {l};
      if tally[l] > tally[best] { best := l; }
    }
    leader := if tally[best] * 2 > |responses| then Some(best) else None;
    forall l | Certified(responses, |responses|, l) ensures leader == Some(l) {
      OnlyOneLeader(responses, |responses|, l, best);
    }
  }

  // ----- One leader, whoever asks -----

  lemma OnlyOneLeader(views: Views, n: nat, a: int, b: int)
    requires |views| <= n && Certified(views, n, a) && Certified(views, n, b)
    ensures a == b
  {
    if a != b {
      var va, vb := Voters(views, a), Voters(views, b);
      assert va !! vb && va + vb <= views.Keys;
      Subset(va + vb, views.Keys);
    }
  }

  lemma Subset(a: set<int>, b: set<int>)
    requires a <= b
    ensures |a| <= |b|
  {
    assert b == a + (b - a);
  }

  /** Two groups of configured nodes with no node in common cannot both certify a
      leader, not even the same one. */
  lemma DisjointGroupsCannotBothLead(nodes: set<int>, a: Views, b: Views, la: int, lb: int)
    requires a.Keys <= nodes && b.Keys <= nodes && a.Keys !! b.Keys
    requires Certified(a, |nodes|, la)
    ensures !Certified(b, |nodes|, lb)
  {
    var va, vb := Voters(a, la), Voters(b, lb);
    assert va !! vb && va + vb <= nodes;
    Subset(va + vb, nodes);
  }

  /** The answers of the nodes that were reached, with the others as `None`. */
  function FillIn(nodes: set<int>, views: Views): Views {
    map node | node in nodes :: if node in views then views[node] else None
  }

  /** The three computations certify the same leader on the same views. */
  lemma ComputationsAgree(nodes: set<int>, views: Views, leader: int)
    requires views.Keys <= nodes
    ensures |FillIn(nodes, views)| == |nodes|
    ensures Certified(views, |nodes|, leader) <==> Certified(FillIn(nodes, views), |FillIn(nodes, views)|, leader)
    ensures |nodes| == 5 ==> (Certified(views, |nodes|, leader) <==> |Voters(views, leader)| >= 3)
  {
    assert FillIn(nodes, views).Keys == nodes;
    assert Voters(FillIn(nodes, views), leader) == Voters(views, leader);
  }
}
