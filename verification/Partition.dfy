/** `partition_groups` and `_iptables` (`testing/five_node_suite.py`): who can hear
    whom after a partition, and after its heal. */
module Partition {
  import opened Sequences

  /** The DROP rules of each running node's INPUT chain, by the peer they name. */
  type Chains = map<int, seq<int>>

  /** The node a command is for, and the peer it names. */
  type Command = (int, int)

  function WithoutFirst(chain: seq<int>, peer: int): seq<int> {
    if chain == [] then [] else if chain[0] == peer then chain[1..] else [chain[0]] + WithoutFirst(chain[1..], peer)
  }

  /** How many rules on `node` drop the traffic of `peer`. */
  function Rules(chains: Chains, node: int, peer: int): nat {
    if node in chains then multiset(chains[node])[peer] else 0
  }

  /** `n` rules more, or `n` fewer as far as there are any. */
  function Shift(rules: nat, n: nat, insert: bool): nat {
    if insert then rules + n else if rules < n then 0 else rules - n
  }

  function One(b: bool): nat { if b then 1 else 0 }

  /** How many of the commands name `node` and `peer`. */
  function Count(commands: seq<Command>, node: int, peer: int): nat {
    if commands == [] then 0
    else Count(commands[..|commands| - 1], node, peer) + One(commands[|commands| - 1] == (node, peer))
  }

  lemma {:induction false} CountConcat(a: seq<Command>, b: seq<Command>, node: int, peer: int)
    ensures Count(a + b, node, peer) == Count(a, node, peer) + Count(b, node, peer)
  {
    if b == [] {
      assert a + b == a;
    } else {
      CountConcat(a, b[..|b| - 1], node, peer);
      assert (a + b)[..|a + b| - 1] == a + b[..|b| - 1];
    }
  }

  // ----- The commands, loop by loop -----

  function LinkCommands(a: int, b: int): seq<Command> {
    [(a, b), (b, a)]
  }

  function NodeParts(a: int, other: seq<int>): seq<seq<Command>> {
    seq(|other|, l requires 0 <= l < |other| => LinkCommands(a, other[l]))
  }

  function GroupParts(group: seq<int>, other: seq<int>): seq<seq<Command>> {
    seq(|group|, k requires 0 <= k < |group| => Flat(NodeParts(group[k], other)))
  }

  function LaterParts(groups: seq<seq<int>>, i: nat): seq<seq<Command>>
    requires i < |groups|
  {
    seq(|groups| - i - 1, j requires 0 <= j < |groups| - i - 1 => Flat(GroupParts(groups[i], groups[i + 1 + j])))
  }

  function Parts(groups: seq<seq<int>>): seq<seq<Command>> {
    seq(|groups|, i requires 0 <= i < |groups| => Flat(LaterParts(groups, i)))
  }

  /** Every command of a partition or a heal, in order. */
  function Commands(groups: seq<seq<int>>): seq<Command> {
    Flat(Parts(groups))
  }

  /** Every other command is followed by the one for the other direction. */
  predicate PairsUp(commands: seq<Command>) {
    |commands| % 2 == 0
    && forall k | 0 <= k < |commands| - 1 && k % 2 == 0 :: commands[k + 1] == (commands[k].1, commands[k].0)
  }

  lemma ConcatPairsUp(a: seq<Command>, b: seq<Command>)
    requires PairsUp(a) && PairsUp(b)
    ensures PairsUp(a + b)
  {
    var all: seq<Command> := a + b;
    forall k | 0 <= k < |all| - 1 && k % 2 == 0 ensures all[k + 1] == (all[k].1, all[k].0) {
      if |a| <= k {
        var m := k - |a|;
        assert all[k] == b[m] && all[k + 1] == b[m + 1] && m % 2 == 0;
      }
    }
  }

  lemma {:induction false} FlatPairsUp(parts: seq<seq<Command>>)
    requires forall i | 0 <= i < |parts| :: PairsUp(parts[i])
    ensures PairsUp(Flat(parts))
  {
    if parts != [] {
      FlatPairsUp(parts[..|parts| - 1]);
      ConcatPairsUp(Flat(parts[..|parts| - 1]), parts[|parts| - 1]);
    }
  }

  lemma GroupPairsUp(group: seq<int>, other: seq<int>)
    ensures PairsUp(Flat(GroupParts(group, other)))
  {
    forall k | 0 <= k < |group| ensures PairsUp(GroupParts(group, other)[k]) {
      FlatPairsUp(NodeParts(group[k], other));
    }
    FlatPairsUp(GroupParts(group, other));
  }

  /** No link is left cut in one direction only, unless a command fails. */
  lemma CommandsPairUp(groups: seq<seq<int>>)
    ensures PairsUp(Commands(groups))
  {
    forall i | 0 <= i < |groups| ensures PairsUp(Parts(groups)[i]) {
      forall j | 0 <= j < |LaterParts(groups, i)| ensures PairsUp(LaterParts(groups, i)[j]) {
        GroupPairsUp(groups[i], groups[i + 1 + j]);
      }
      FlatPairsUp(LaterParts(groups, i));
    }
    FlatPairsUp(Parts(groups));
  }

  // ----- What commands do to the rules -----

  /** The effect of `-A` and of `-D`. */
  function Edited(chains: Chains, node: int, peer: int, insert: bool): Chains {
    if node !in chains then chains
    else chains[node := if insert then chains[node] + [peer] else WithoutFirst(chains[node], peer)]
  }

  /** The effect of commands, one after the other. */
  function Edits(chains: Chains, commands: seq<Command>, insert: bool): Chains {
    if commands == [] then chains
    else
      var c := commands[|commands| - 1];
      Edited(Edits(chains, commands[..|commands| - 1], insert), c.0, c.1, insert)
  }

  lemma {:induction false} WithoutFirstRules(chain: seq<int>, peer: int)
    ensures multiset(WithoutFirst(chain, peer)) == multiset(chain) - multiset{peer}
  {
    if chain != [] {
      HeadAndTail(chain);
      if chain[0] != peer {
        var rest := WithoutFirst(chain[1..], peer);
        WithoutFirstRules(chain[1..], peer);
        assert multiset([chain[0]] + rest) == multiset{chain[0]} + multiset(rest);
      }
    }
  }

  lemma HeadAndTail(chain: seq<int>)
    requires chain != []
    ensures multiset(chain) == multiset{chain[0]} + multiset(chain[1..])
  {
    assert chain == [chain[0]] + chain[1..];
  }

  lemma EditedRules(chain: seq<int>, peer: int, insert: bool, y: int)
    ensures multiset(if insert then chain + [peer] else WithoutFirst(chain, peer))[y] ==
            Shift(multiset(chain)[y], One(y == peer), insert)
  {
    WithoutFirstRules(chain, peer);
  }

  /** Commands shift the rules of every pair by how many of them name it. */
  lemma {:induction false} EditsRules(chains: Chains, commands: seq<Command>, insert: bool, node: int, peer: int)
    ensures Edits(chains, commands, insert).Keys == chains.Keys
    ensures node in chains ==>
              Rules(Edits(chains, commands, insert), node, peer) ==
              Shift(Rules(chains, node, peer), Count(commands, node, peer), insert)
  {
    if commands != [] {
      var init, c := commands[..|commands| - 1], commands[|commands| - 1];
      EditsRules(chains, init, insert, node, peer);
      if node in chains && node == c.0 { EditedRules(Edits(chains, init, insert)[node], c.1, insert, peer); }
    }
  }

  lemma {:induction false} EditsConcat(chains: Chains, a: seq<Command>, b: seq<Command>, insert: bool)
    ensures Edits(chains, a + b, insert) == Edits(Edits(chains, a, insert), b, insert)
  {
    if b == [] {
      assert a + b == a;
    } else {
      EditsConcat(chains, a, b[..|b| - 1], insert);
      assert (a + b)[..|a + b| - 1] == a + b[..|b| - 1];
    }
  }

  // ----- A run of commands -----

  /** The `n`-th command goes through: a deletion always does, an insertion if it finds
      its node running and `works`. */
  predicate Succeeds(chains: Chains, c: Command, insert: bool, works: nat -> bool, n: nat) {
    !insert || (c.0 in chains && works(n))
  }

  /** All commands go through, of which the first is the `n`-th there is. */
  ghost predicate Went(before: Chains, n: nat, after: Chains, n': nat, commands: seq<Command>, insert: bool,
                       works: nat -> bool)
  {
    && n' == n + |commands| && after == Edits(before, commands, insert)
    && forall i | 0 <= i < |commands| :: Succeeds(before, commands[i], insert, works, n + i)
  }

  /** The commands are executed in order, up to the first that fails. */
  ghost predicate Ran(before: Chains, n: nat, after: Chains, n': nat, commands: seq<Command>, insert: bool,
                      works: nat -> bool, ok: bool)
  {
    if ok then Went(before, n, after, n', commands, insert, works)
    else
      && n < n' <= n + |commands| && Went(before, n, after, n' - 1, commands[..n' - 1 - n], insert, works)
      && !Succeeds(before, commands[n' - 1 - n], insert, works, n' - 1)
  }

  lemma WentThen(before: Chains, n: nat, mid: Chains, m: nat, after: Chains, n': nat, a: seq<Command>,
                 b: seq<Command>, insert: bool, works: nat -> bool)
    requires Went(before, n, mid, m, a, insert, works) && Went(mid, m, after, n', b, insert, works)
    ensures Went(before, n, after, n', a + b, insert, works)
  {
    EditsConcat(before, a, b, insert);
    EditsRules(before, a, insert, 0, 0);
    forall i | 0 <= i < |a + b| ensures Succeeds(before, (a + b)[i], insert, works, n + i) {
      if i < |a| {
        assert Succeeds(before, a[i], insert, works, n + i);
      } else {
        assert Succeeds(mid, b[i - |a|], insert, works, m + (i - |a|));
      }
    }
  }

  /** What comes after the command that failed does not matter. */
  lemma WentUntil(before: Chains, n: nat, mid: Chains, m: nat, after: Chains, n': nat, a: seq<Command>,
                  b: seq<Command>, all: seq<Command>, insert: bool, works: nat -> bool)
    requires Went(before, n, mid, m, a, insert, works) && Ran(mid, m, after, n', b, insert, works, false)
    requires a + b <= all
    ensures Ran(before, n, after, n', all, insert, works, false)
  {
    var made := n' - 1 - m;
    WentThen(before, n, mid, m, after, n' - 1, a, b[..made], insert, works);
    EditsRules(before, a, insert, 0, 0);
    assert all[..|a| + made] == a + b[..made] && all[|a| + made] == (a + b)[|a| + made];
  }

  lemma RanOne(chains: Chains, node: int, peer: int, insert: bool, works: nat -> bool, n: nat)
    ensures var ok := Succeeds(chains, (node, peer), insert, works, n);
            Ran(chains, n, if ok then Edited(chains, node, peer, insert) else chains, n + 1, [(node, peer)], insert,
                works, ok)
  {
    var c := [(node, peer)];
    assert c[..0] == [];
  }

  // ----- The nodes -----

  class Nodes {
    var chains: Chains
    var issued: nat    // how many commands there have been

    constructor (chains: Chains)
      ensures this.chains == chains && issued == 0
    {
      this.chains := chains;
      issued := 0;
    }

    /** `_iptables`: a deletion that finds nothing is no error, an insertion that
        fails, or finds no running node, is. */
    method Iptables(node: int, peer: int, insert: bool, works: nat -> bool) returns (ok: bool)
      modifies this
      ensures Ran(old(chains), old(issued), chains, issued, [(node, peer)], insert, works, ok)
    {
      ok := true;
      if insert {
        ok := node in chains && works(issued);
        if ok {
          chains := chains[node := chains[node] + [peer]];
        }
      } else if node in chains {
        chains := chains[node := WithoutFirst(chains[node], peer)];
      }
      issued := issued + 1;
      assert ok == Succeeds(old(chains), (node, peer), insert, works, old(issued));
      assert chains == if ok then Edited(old(chains), node, peer, insert) else old(chains);
      RanOne(old(chains), node, peer, insert, works, old(issued));
    }

    /** The two commands of the innermost loop. */
    method CutLink(a: int, b: int, insert: bool, works: nat -> bool) returns (ok: bool)
      modifies this
      ensures Ran(old(chains), old(issued), chains, issued, LinkCommands(a, b), insert, works, ok)
    {
      ok := Iptables(a, b, insert, works);
      if !ok {
        WentUntil(old(chains), old(issued), old(chains), old(issued), chains, issued, [], [(a, b)],
                  LinkCommands(a, b), insert, works);
        return;
      }
      ghost var mid, m := chains, issued;
      ok := Iptables(b, a, insert, works);
      if !ok {
        WentUntil(old(chains), old(issued), mid, m, chains, issued, [(a, b)], [(b, a)], LinkCommands(a, b), insert,
                  works);
        return;
      }
      WentThen(old(chains), old(issued), mid, m, chains, issued, [(a, b)], [(b, a)], insert, works);
      assert LinkCommands(a, b) == [(a, b)] + [(b, a)];
    }

    /** Node `a` from every node of a group: the innermost loop of `partition_groups`. */
    method CutNode(a: int, other: seq<int>, insert: bool, works: nat -> bool) returns (ok: bool)
      modifies this
      ensures Ran(old(chains), old(issued), chains, issued, Flat(NodeParts(a, other)), insert, works, ok)
    {
      ghost var parts := NodeParts(a, other);
      for l := 0 to |other|
        invariant Went(old(chains), old(issued), chains, issued, Flat(parts[..l]), insert, works)
      {
        ghost var mid, m := chains, issued;
        ok := CutLink(a, other[l], insert, works);
        FlatStep(parts, l);
        if !ok {
          WentUntil(old(chains), old(issued), mid, m, chains, issued, Flat(parts[..l]), parts[l], Flat(parts),
                    insert, works);
          return;
        }
        WentThen(old(chains), old(issued), mid, m, chains, issued, Flat(parts[..l]), parts[l], insert, works);
      }
      assert parts[..|parts|] == parts;
      return true;
    }

    /** Every link between two groups: the third loop of `partition_groups`. */
    method CutGroups(group: seq<int>, other: seq<int>, insert: bool, works: nat -> bool) returns (ok: bool)
      modifies this
      ensures Ran(old(chains), old(issued), chains, issued, Flat(GroupParts(group, other)), insert, works, ok)
    {
      ghost var parts := GroupParts(group, other);
      for k := 0 to |group|
        invariant Went(old(chains), old(issued), chains, issued, Flat(parts[..k]), insert, works)
      {
        ghost var mid, m := chains, issued;
        ok := CutNode(group[k], other, insert, works);
        FlatStep(parts, k);
        if !ok {
          WentUntil(old(chains), old(issued), mid, m, chains, issued, Flat(parts[..k]), parts[k], Flat(parts),
                    insert, works);
          return;
        }
        WentThen(old(chains), old(issued), mid, m, chains, issued, Flat(parts[..k]), parts[k], insert, works);
      }
      assert parts[..|parts|] == parts;
      return true;
    }

    /** Group `i` from every later group: the second loop of `partition_groups`. */
    method CutFromLater(groups: seq<seq<int>>, i: nat, insert: bool, works: nat -> bool) returns (ok: bool)
      requires i < |groups|
      modifies this
      ensures Ran(old(chains), old(issued), chains, issued, Flat(LaterParts(groups, i)), insert, works, ok)
    {
      ghost var parts := LaterParts(groups, i);
      for j := i + 1 to |groups|
        invariant Went(old(chains), old(issued), chains, issued, Flat(parts[..j - i - 1]), insert, works)
      {
        ghost var mid, m := chains, issued;
        ok := CutGroups(groups[i], groups[j], insert, works);
        FlatStep(parts, j - i - 1);
        if !ok {
          WentUntil(old(chains), old(issued), mid, m, chains, issued, Flat(parts[..j - i - 1]), parts[j - i - 1],
                    Flat(parts), insert, works);
          return;
        }
        WentThen(old(chains), old(issued), mid, m, chains, issued, Flat(parts[..j - i - 1]), parts[j - i - 1], insert,
                 works);
      }
      assert parts[..|parts|] == parts;
      return true;
    }

    /** `partition_groups`; `works` says, by number, which insertions succeed. The commands
        are executed up to the first that fails, which none of a heal does. */
    method PartitionGroups(groups: seq<seq<int>>, heal: bool, works: nat -> bool) returns (ok: bool)
      modifies this
      ensures Ran(old(chains), old(issued), chains, issued, Commands(groups), !heal, works, ok)
      ensures heal ==> ok
    {
      ghost var parts := Parts(groups);
      for i := 0 to |groups|
        invariant Went(old(chains), old(issued), chains, issued, Flat(parts[..i]), !heal, works)
      {
        ghost var mid, m := chains, issued;
        ok := CutFromLater(groups, i, !heal, works);
        FlatStep(parts, i);
        if !ok {
          WentUntil(old(chains), old(issued), mid, m, chains, issued, Flat(parts[..i]), parts[i], Flat(parts),
                    !heal, works);
          return;
        }
        WentThen(old(chains), old(issued), mid, m, chains, issued, Flat(parts[..i]), parts[i], !heal, works);
      }
      assert parts[..|parts|] == parts;
      return true;
    }
  }

  // ----- Heal undoes partition -----

  lemma CountParts(commands: seq<Command>, made: nat, node: int, peer: int)
    requires made <= |commands|
    ensures Count(commands, node, peer) == Count(commands[..made], node, peer) + Count(commands[made..], node, peer)
  {
    CountConcat(commands[..made], commands[made..], node, peer);
    assert commands == commands[..made] + commands[made..];
  }

  /** Healing restores every chain as a multiset, whatever it held before. */
  lemma HealRestores(before: Chains, commands: seq<Command>, node: int)
    ensures var healed := Edits(Edits(before, commands, true), commands, false);
            healed.Keys == before.Keys && (node in before ==> multiset(healed[node]) == multiset(before[node]))
  {
    assert commands[..|commands|] == commands;
    HealAfterFailureIff(before, commands, |commands|, node, 0);
    forall peer ensures Rules(Edits(Edits(before, commands, true), commands, false), node, peer) ==
                        Rules(before, node, peer)
    {
      HealAfterFailureIff(before, commands, |commands|, node, peer);
    }
    SameRules(before, Edits(Edits(before, commands, true), commands, false), node);
  }

  lemma SameRules(before: Chains, after: Chains, node: int)
    requires before.Keys == after.Keys && forall peer :: Rules(after, node, peer) == Rules(before, node, peer)
    ensures node in before ==> multiset(after[node]) == multiset(before[node])
  {
    if node in before {
      forall peer ensures multiset(after[node])[peer] == multiset(before[node])[peer] {
        assert Rules(after, node, peer) == Rules(before, node, peer);
      }
    }
  }

  /** A heal after a partition of which only the first `made` commands were executed
      gives a pair its rules back if and only if no later command names it or it had no
      rule before. It never leaves a rule too many. */
  lemma HealAfterFailureIff(before: Chains, commands: seq<Command>, made: nat, node: int, peer: int)
    requires made <= |commands|
    ensures var healed := Edits(Edits(before, commands[..made], true), commands, false);
            && healed.Keys == before.Keys && Rules(healed, node, peer) <= Rules(before, node, peer)
            && (Rules(healed, node, peer) == Rules(before, node, peer) <==>
                Count(commands[made..], node, peer) == 0 || Rules(before, node, peer) == 0)
  {
    EditsRules(before, commands[..made], true, node, peer);
    EditsRules(Edits(before, commands[..made], true), commands, false, node, peer);
    CountParts(commands, made, node, peer);
  }

  /** The heal after the first `made` commands restores all rules. */
  ghost predicate Restored(before: Chains, commands: seq<Command>, made: nat)
    requires made <= |commands|
  {
    forall node, peer ::
      Rules(Edits(Edits(before, commands[..made], true), commands, false), node, peer) == Rules(before, node, peer)
  }

  /** However far a partition comes, its heal restores all rules if and only if there was
      no rule for any pair that was to be cut. */
  lemma HealAlwaysRestoresIff(before: Chains, commands: seq<Command>)
    ensures (forall made: nat | made <= |commands| :: Restored(before, commands, made)) <==>
            (forall node, peer | Count(commands, node, peer) > 0 :: Rules(before, node, peer) == 0)
  {
    if forall made: nat | made <= |commands| :: Restored(before, commands, made) {
      assert Restored(before, commands, 0);
      forall node, peer | Count(commands, node, peer) > 0 ensures Rules(before, node, peer) == 0 {
        HealAfterFailureIff(before, commands, 0, node, peer);
        assert commands[0..] == commands;
      }
    } else {
      var made: nat :| made <= |commands| && !Restored(before, commands, made);
      var node, peer :| Rules(Edits(Edits(before, commands[..made], true), commands, false), node, peer) !=
                        Rules(before, node, peer);
      HealAfterFailureIff(before, commands, made, node, peer);
      CountParts(commands, made, node, peer);
    }
  }

  /** The first `made` insertions, counted from the `n`-th command on, went through and the next failed, if any. */
  ghost predicate Stopped(chains: Chains, n: nat, commands: seq<Command>, works: nat -> bool, ok: bool, made: nat) {
    && made <= |commands| && (ok <==> made == |commands|)
    && (forall i | 0 <= i < made :: Succeeds(chains, commands[i], true, works, n + i))
    && (!ok ==> !Succeeds(chains, commands[made], true, works, n + made))
  }

  /** Exactly the pairs that had a rule, and that a command from `made` on names, have lost rules. */
  ghost predicate Lost(before: Chains, healed: Chains, commands: seq<Command>, made: nat)
    requires made <= |commands|
  {
    && healed.Keys == before.Keys
    && forall node, peer ::
         && Rules(healed, node, peer) <= Rules(before, node, peer)
         && (Rules(healed, node, peer) < Rules(before, node, peer) <==>
             Count(commands[made..], node, peer) > 0 && Rules(before, node, peer) > 0)
  }

  lemma RanStops(before: Chains, n: nat, cut: Chains, m: nat, commands: seq<Command>, works: nat -> bool, ok: bool)
    requires Ran(before, n, cut, m, commands, true, works, ok)
    ensures n + One(!ok) <= m && Stopped(before, n, commands, works, ok, m - n - One(!ok))
    ensures cut == Edits(before, commands[..m - n - One(!ok)], true)
  {
    assert commands[..|commands|] == commands;
  }

  lemma HealLoses(before: Chains, commands: seq<Command>, made: nat)
    requires made <= |commands|
    ensures Lost(before, Edits(Edits(before, commands[..made], true), commands, false), commands, made)
  {
    var healed := Edits(Edits(before, commands[..made], true), commands, false);
    HealAfterFailureIff(before, commands, made, 0, 0);
    forall node, peer
      ensures Rules(healed, node, peer) <= Rules(before, node, peer)
      ensures Rules(healed, node, peer) < Rules(before, node, peer) <==>
              Count(commands[made..], node, peer) > 0 && Rules(before, node, peer) > 0
    {
      HealAfterFailureIff(before, commands, made, node, peer);
    }
  }

  lemma HealAfterRun(before: Chains, n: nat, cut: Chains, m: nat, healed: Chains, m': nat, commands: seq<Command>,
                     works: nat -> bool, ok: bool)
    requires Ran(before, n, cut, m, commands, true, works, ok) && Ran(cut, m, healed, m', commands, false, works, true)
    ensures n + One(!ok) <= m && Stopped(before, n, commands, works, ok, m - n - One(!ok))
    ensures Lost(before, healed, commands, m - n - One(!ok))
  {
    RanStops(before, n, cut, m, commands, works, ok);
    HealLoses(before, commands, m - n - One(!ok));
  }

  /** A partition, and its heal whether it went through or not. */
  method PartitionThenHeal(nodes: Nodes, groups: seq<seq<int>>, works: nat -> bool) returns (ok: bool, made: nat)
    modifies nodes
    ensures Stopped(old(nodes.chains), old(nodes.issued), Commands(groups), works, ok, made)
    ensures Lost(old(nodes.chains), nodes.chains, Commands(groups), made)
  {
    var first := nodes.issued;
    ok := nodes.PartitionGroups(groups, false, works);
    ghost var cut, m := nodes.chains, nodes.issued;
    made := nodes.issued - first - One(!ok);
    var healed := nodes.PartitionGroups(groups, true, works);
    HealAfterRun(old(nodes.chains), old(nodes.issued), cut, m, nodes.chains, nodes.issued, Commands(groups), works, ok);
  }

  lemma FailsAtOnce(before: Chains, healed: Chains, n: nat, commands: seq<Command>, works: nat -> bool, ok: bool,
                    made: nat, node: int, peer: int)
    requires !works(n) && Stopped(before, n, commands, works, ok, made) && Lost(before, healed, commands, made)
    requires Count(commands, node, peer) > 0 && Rules(before, node, peer) > 0
    ensures !ok && healed.Keys == before.Keys && Rules(healed, node, peer) < Rules(before, node, peer)
  {
    assert !Succeeds(before, commands[0], true, works, n + 0);
    assert commands[0..] == commands;
  }

  /** A partition whose first insertion fails, and its heal: any pair that was to be cut
      and had a rule loses one. */
  method HealTakesARule(nodes: Nodes, groups: seq<seq<int>>, node: int, peer: int) returns (ok: bool)
    requires Count(Commands(groups), node, peer) > 0 && Rules(nodes.chains, node, peer) > 0
    modifies nodes
    ensures !ok && nodes.chains.Keys == old(nodes.chains.Keys)
    ensures Rules(nodes.chains, node, peer) < Rules(old(nodes.chains), node, peer)
  {
    var works, made := (n: nat) => false, 0;
    ok, made := PartitionThenHeal(nodes, groups, works);
    FailsAtOnce(old(nodes.chains), nodes.chains, old(nodes.issued), Commands(groups), works, ok, made, node, peer);
  }

  lemma TwoNodes(groups: seq<seq<int>>)
    requires groups == [[1], [2]]
    ensures Count(Commands(groups), 1, 2) > 0
  {
    FlatOfOne(LinkCommands(1, 2));
    assert NodeParts(1, [2]) == [LinkCommands(1, 2)];
    assert GroupParts([1], [2]) == [LinkCommands(1, 2)];
    assert LaterParts(groups, 0) == [LinkCommands(1, 2)] && LaterParts(groups, 1) == [];
    FlatOfTwo(LinkCommands(1, 2), []);
    assert Parts(groups) == [LinkCommands(1, 2), []];
    AddNothing(LinkCommands(1, 2));
    CountLink(1, 2, 1, 2);
  }

  /** Node 1, which is to be cut from node 2, drops its traffic to begin with. */
  method HealTakesTheRuleOfNode1() returns (before: seq<int>, ok: bool, after: seq<int>)
    ensures before == [2] && !ok && 2 !in after
  {
    var groups := [[1], [2]];
    TwoNodes(groups);
    before := [2];
    var nodes := new Nodes(map[1 := before, 2 := []]);
    assert Rules(nodes.chains, 1, 2) == 1;
    ok := HealTakesARule(nodes, groups, 1, 2);
    after := nodes.chains[1];
    assert multiset(after)[2] == Rules(nodes.chains, 1, 2);
  }

  // ----- How many commands name `x` and `y` -----

  function ForLink(a: int, b: int, x: int, y: int): nat {
    One(x == a && y == b) + One(x == b && y == a)
  }

  function ForNode(a: int, other: seq<int>, n: nat, x: int, y: int): nat
    requires n <= |other|
  {
    if n == 0 then 0 else ForNode(a, other, n - 1, x, y) + ForLink(a, other[n - 1], x, y)
  }

  function ForGroups(group: seq<int>, other: seq<int>, n: nat, x: int, y: int): nat
    requires n <= |group|
  {
    if n == 0 then 0 else ForGroups(group, other, n - 1, x, y) + ForNode(group[n - 1], other, |other|, x, y)
  }

  function ForLater(groups: seq<seq<int>>, i: nat, n: nat, x: int, y: int): nat
    requires i < n <= |groups|
  {
    if n == i + 1 then 0 else ForLater(groups, i, n - 1, x, y) + ForGroups(groups[i], groups[n - 1], |groups[i]|, x, y)
  }

  function ForAll(groups: seq<seq<int>>, n: nat, x: int, y: int): nat
    requires n <= |groups|
  {
    if n == 0 then 0 else ForAll(groups, n - 1, x, y) + ForLater(groups, n - 1, |groups|, x, y)
  }

  lemma CountLink(a: int, b: int, x: int, y: int)
    ensures Count(LinkCommands(a, b), x, y) == ForLink(a, b, x, y)
  {
    var link := LinkCommands(a, b);
    assert link[..1] == [(a, b)] && [(a, b)][..0] == [];
    assert Count([(a, b)], x, y) == Count([], x, y) + One((a, b) == (x, y));
    assert Count(link, x, y) == Count(link[..1], x, y) + One((b, a) == (x, y));
  }

  lemma {:induction false} CountNode(a: int, other: seq<int>, n: nat, x: int, y: int)
    requires n <= |other|
    ensures Count(Flat(NodeParts(a, other)[..n]), x, y) == ForNode(a, other, n, x, y)
  {
    if n > 0 {
      CountNode(a, other, n - 1, x, y);
      CountStep(NodeParts(a, other), n - 1, x, y);
      CountLink(a, other[n - 1], x, y);
    }
  }

  lemma {:induction false} CountGroups(group: seq<int>, other: seq<int>, n: nat, x: int, y: int)
    requires n <= |group|
    ensures Count(Flat(GroupParts(group, other)[..n]), x, y) == ForGroups(group, other, n, x, y)
  {
    if n > 0 {
      CountGroups(group, other, n - 1, x, y);
      CountStep(GroupParts(group, other), n - 1, x, y);
      CountNode(group[n - 1], other, |other|, x, y);
      WholeSlice(NodeParts(group[n - 1], other));
    }
  }

  lemma CountLaterPart(groups: seq<seq<int>>, i: nat, j: nat, x: int, y: int)
    requires i < j < |groups|
    ensures Count(LaterParts(groups, i)[j - i - 1], x, y) == ForGroups(groups[i], groups[j], |groups[i]|, x, y)
  {
    CountGroups(groups[i], groups[j], |groups[i]|, x, y);
    WholeSlice(GroupParts(groups[i], groups[j]));
  }

  lemma {:induction false} CountLater(groups: seq<seq<int>>, i: nat, n: nat, x: int, y: int)
    requires i < n <= |groups|
    ensures Count(Flat(LaterParts(groups, i)[..n - i - 1]), x, y) == ForLater(groups, i, n, x, y)
  {
    if n > i + 1 {
      CountLater(groups, i, n - 1, x, y);
      CountStep(LaterParts(groups, i), n - i - 2, x, y);
      CountLaterPart(groups, i, n - 1, x, y);
    }
  }

  lemma {:induction false} CountAll(groups: seq<seq<int>>, n: nat, x: int, y: int)
    requires n <= |groups|
    ensures Count(Flat(Parts(groups)[..n]), x, y) == ForAll(groups, n, x, y)
  {
    if n > 0 {
      CountAll(groups, n - 1, x, y);
      CountStep(Parts(groups), n - 1, x, y);
      CountLater(groups, n - 1, |groups|, x, y);
      WholeSlice(LaterParts(groups, n - 1));
    }
  }

  lemma CountStep(parts: seq<seq<Command>>, k: nat, x: int, y: int)
    requires k < |parts|
    ensures Count(Flat(parts[..k + 1]), x, y) == Count(Flat(parts[..k]), x, y) + Count(parts[k], x, y)
  {
    FlatStep(parts, k);
    CountConcat(Flat(parts[..k]), parts[k], x, y);
  }

  // ----- Disjoint groups -----

  predicate NoRepeats(s: seq<int>) {
    forall x, y | 0 <= x < y < |s| :: s[x] != s[y]
  }

  predicate NoneShared(a: seq<int>, b: seq<int>) {
    forall node | node in a :: node !in b
  }

  /** No node is listed twice, in one group or in two. */
  predicate Disjoint(groups: seq<seq<int>>) {
    && (forall i {:trigger NoRepeats(groups[i])} | 0 <= i < |groups| :: NoRepeats(groups[i]))
    && (forall i, j {:trigger NoneShared(groups[i], groups[j])} | 0 <= i < j < |groups| ::
        NoneShared(groups[i], groups[j]))
  }

  predicate InGroup(groups: seq<seq<int>>, i: nat, node: int) {
    i < |groups| && node in groups[i]
  }

  /** In different groups. */
  ghost predicate Apart(groups: seq<seq<int>>, a: int, b: int) {
    exists i: nat, j: nat :: i != j && InGroup(groups, i, a) && InGroup(groups, j, b)
  }

  /** `x` is among the first `n`. */
  predicate Has(s: seq<int>, n: nat, x: int)
    requires n <= |s|
  {
    n > 0 && (Has(s, n - 1, x) || s[n - 1] == x)
  }

  lemma {:induction false} HasIff(s: seq<int>, n: nat, x: int)
    requires n <= |s|
    ensures Has(s, n, x) <==> x in s[..n]
  {
    if n > 0 {
      HasIff(s, n - 1, x);
      assert s[..n] == s[..n - 1] + [s[n - 1]];
    }
  }

  lemma HasAll(s: seq<int>, x: int)
    ensures Has(s, |s|, x) <==> x in s
  {
    HasIff(s, |s|, x);
    assert s[..|s|] == s;
  }

  lemma OnlyNow(s: seq<int>, n: nat, x: int)
    requires 0 < n <= |s| && NoRepeats(s)
    ensures Has(s, n - 1, x) ==> x != s[n - 1] && x in s
  {
    HasIff(s, n - 1, x);
  }

  lemma {:induction false} NodeCount(a: int, other: seq<int>, n: nat, x: int, y: int)
    requires n <= |other| && NoRepeats(other) && a !in other
    ensures ForNode(a, other, n, x, y) == One((x == a && Has(other, n, y)) || (y == a && Has(other, n, x)))
  {
    if n > 0 {
      NodeCount(a, other, n - 1, x, y);
      OnlyNow(other, n, x);
      OnlyNow(other, n, y);
    }
  }

  lemma {:induction false} GroupsCount(group: seq<int>, other: seq<int>, n: nat, x: int, y: int)
    requires n <= |group| && NoRepeats(group) && NoRepeats(other) && NoneShared(group, other)
    ensures ForGroups(group, other, n, x, y) ==
            One((Has(group, n, x) && y in other) || (Has(group, n, y) && x in other))
  {
    if n > 0 {
      GroupsCount(group, other, n - 1, x, y);
      NodeCount(group[n - 1], other, |other|, x, y);
      HasAll(other, x);
      HasAll(other, y);
      OnlyNow(group, n, x);
      OnlyNow(group, n, y);
    }
  }

  /** One of the two is in group `i`, the other in group `j`. */
  predicate Pair(groups: seq<seq<int>>, i: nat, j: nat, x: int, y: int) {
    (InGroup(groups, i, x) && InGroup(groups, j, y)) || (InGroup(groups, i, y) && InGroup(groups, j, x))
  }

  lemma PairCount(groups: seq<seq<int>>, i: nat, j: nat, x: int, y: int)
    requires i < j < |groups| && Disjoint(groups)
    ensures ForGroups(groups[i], groups[j], |groups[i]|, x, y) == One(Pair(groups, i, j, x, y))
  {
    assert NoRepeats(groups[i]) && NoRepeats(groups[j]) && NoneShared(groups[i], groups[j]);
    GroupsCount(groups[i], groups[j], |groups[i]|, x, y);
    HasAll(groups[i], x);
    HasAll(groups[i], y);
  }

  lemma InOneGroup(groups: seq<seq<int>>, i: nat, j: nat, x: int)
    requires Disjoint(groups) && InGroup(groups, i, x) && InGroup(groups, j, x)
    ensures i == j
  {
    assert i < j ==> NoneShared(groups[i], groups[j]);
    assert j < i ==> NoneShared(groups[j], groups[i]);
  }

  lemma PairIsUnique(groups: seq<seq<int>>, i: nat, j: nat, i': nat, j': nat, x: int, y: int)
    requires Disjoint(groups) && i < j && i' < j' && Pair(groups, i, j, x, y) && Pair(groups, i', j', x, y)
    ensures i == i' && j == j'
  {
    var straight := InGroup(groups, i, x) && InGroup(groups, j, y);
    var ix, iy := if straight then i else j, if straight then j else i;
    if InGroup(groups, i', x) && InGroup(groups, j', y) {
      InOneGroup(groups, ix, i', x);
      InOneGroup(groups, iy, j', y);
    } else {
      InOneGroup(groups, ix, j', x);
      InOneGroup(groups, iy, i', y);
    }
  }

  predicate PairFrom(groups: seq<seq<int>>, i: nat, n: nat, x: int, y: int) {
    exists j: nat :: i < j < n && Pair(groups, i, j, x, y)
  }

  predicate PairUpTo(groups: seq<seq<int>>, n: nat, x: int, y: int) {
    exists i: nat :: i < n && PairFrom(groups, i, |groups|, x, y)
  }

  lemma {:induction false} LaterCount(groups: seq<seq<int>>, i: nat, n: nat, x: int, y: int)
    requires i < n <= |groups| && Disjoint(groups)
    ensures ForLater(groups, i, n, x, y) == One(PairFrom(groups, i, n, x, y))
  {
    if n > i + 1 {
      LaterCount(groups, i, n - 1, x, y);
      PairCount(groups, i, n - 1, x, y);
      if PairFrom(groups, i, n - 1, x, y) {
        var j: nat :| i < j < n - 1 && Pair(groups, i, j, x, y);
        assert i < j < n;
        if Pair(groups, i, n - 1, x, y) { PairIsUnique(groups, i, j, i, n - 1, x, y); }
      } else if Pair(groups, i, n - 1, x, y) {
        assert i < n - 1 < n;
      }
    }
  }

  lemma {:induction false} AllCount(groups: seq<seq<int>>, n: nat, x: int, y: int)
    requires n <= |groups| && Disjoint(groups)
    ensures ForAll(groups, n, x, y) == One(PairUpTo(groups, n, x, y))
  {
    if n > 0 {
      AllCount(groups, n - 1, x, y);
      LaterCount(groups, n - 1, |groups|, x, y);
      if PairUpTo(groups, n - 1, x, y) {
        var i: nat :| i < n - 1 && PairFrom(groups, i, |groups|, x, y);
        assert i < n;
        if PairFrom(groups, n - 1, |groups|, x, y) {
          var j: nat :| i < j < |groups| && Pair(groups, i, j, x, y);
          var j': nat :| n - 1 < j' < |groups| && Pair(groups, n - 1, j', x, y);
          PairIsUnique(groups, i, j, n - 1, j', x, y);
        }
      } else if PairFrom(groups, n - 1, |groups|, x, y) {
        assert n - 1 < n;
      }
    }
  }

  lemma PairsAreApart(groups: seq<seq<int>>, x: int, y: int)
    ensures PairUpTo(groups, |groups|, x, y) <==> Apart(groups, x, y)
  {
    if PairUpTo(groups, |groups|, x, y) {
      var i: nat :| i < |groups| && PairFrom(groups, i, |groups|, x, y);
      var j: nat :| i < j < |groups| && Pair(groups, i, j, x, y);
    }
    if Apart(groups, x, y) {
      var i: nat, j: nat :| i != j && InGroup(groups, i, x) && InGroup(groups, j, y);
      if i < j { assert Pair(groups, i, j, x, y); } else { assert Pair(groups, j, i, x, y); }
      assert PairFrom(groups, if i < j then i else j, |groups|, x, y);
    }
  }

  /** Partitioning disjoint groups gives one rule for each ordered pair of nodes in
      different groups and none for any other pair. */
  lemma OneCommandForEachPairApart(groups: seq<seq<int>>, node: int, peer: int)
    requires Disjoint(groups)
    ensures Count(Commands(groups), node, peer) == One(Apart(groups, node, peer))
  {
    CountAll(groups, |groups|, node, peer);
    WholeSlice(Parts(groups));
    AllCount(groups, |groups|, node, peer);
    PairsAreApart(groups, node, peer);
  }

  /** `node` hears `peer`. */
  predicate Hears(chains: Chains, node: int, peer: int) {
    node in chains && peer !in chains[node]
  }

  /** From rule-free chains, traffic is dropped exactly between different groups, in
      both directions; after the heal everybody hears everybody again. */
  lemma PartitionCutsExactlyApart(before: Chains, groups: seq<seq<int>>, node: int, peer: int)
    requires Disjoint(groups) && node in before && forall n | n in before :: before[n] == []
    ensures var cut := Edits(before, Commands(groups), true);
            && (Hears(cut, node, peer) <==> !Apart(groups, node, peer))
            && Hears(Edits(cut, Commands(groups), false), node, peer)
  {
    var commands := Commands(groups);
    OneCommandForEachPairApart(groups, node, peer);
    EditsRules(before, commands, true, node, peer);
    HealRestores(before, commands, node);
    assert Hears(before, node, peer);
  }
}
