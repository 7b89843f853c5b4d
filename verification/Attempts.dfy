/** How one psql invocation is classified (`classify_attempt` in
    `testing/correctness_lite.py`), and what each class is taken to prove. */
module Attempts {

  datatype Class = Acked | RoutingRejected | Rejected | Indeterminate

  const SERVER_REJECTION_PATTERNS := [
    "violates check constraint", "violates unique constraint", "duplicate key value",
    "current transaction is aborted", "syntax error at or near"]

  const REJECTION_PATTERNS := ["read-only", "cannot execute", "connection refused", "not accept", "read_only"]

  function Lower(s: string): string {
    seq(|s|, i requires 0 <= i < |s| => if 'A' <= s[i] <= 'Z' then s[i] - 'A' + 'a' else s[i])
  }

  predicate Contains(s: string, pattern: string) {
    pattern <= s || (s != "" && Contains(s[1..], pattern))
  }

  predicate Matches(s: string, patterns: seq<string>) {
    patterns != [] && (Contains(s, patterns[0]) || Matches(s, patterns[1..]))
  }

  /** Exit status 0 is an ack; a recognised refusal is a definite non-commit;
      everything else, catalogued or not, is indeterminate. */
  function Classify(returncode: int, output: string): Class {
    if returncode == 0 then Acked
    else if Matches(Lower(output), SERVER_REJECTION_PATTERNS) then Rejected
    else if Matches(Lower(output), REJECTION_PATTERNS) then RoutingRejected
    else Indeterminate
  }

  // ----- What a class means -----

  /** Letter for letter, an upper-case ASCII letter counting as its lower-case one. */
  predicate SameLetter(c: char, d: char) {
    c == d || ('A' <= c <= 'Z' && d as int == c as int + 32)
  }

  /** `pattern` stands at position `i`. */
  predicate StandsAt(s: string, pattern: string, i: nat) {
    i + |pattern| <= |s| && forall j | 0 <= j < |pattern| :: SameLetter(s[i + j], pattern[j])
  }

  ghost predicate Mentions(s: string, patterns: seq<string>) {
    exists pattern, i: nat :: pattern in patterns && StandsAt(s, pattern, i)
  }

  predicate NoCapitals(s: string) {
    forall j | 0 <= j < |s| :: !('A' <= s[j] <= 'Z')
  }

  lemma {:induction false} ContainsIff(s: string, pattern: string)
    ensures Contains(s, pattern) <==> exists i: nat :: i <= |s| && pattern <= s[i..]
  {
    if s != "" {
      ContainsIff(s[1..], pattern);
      if pattern <= s {
        assert s[0..] == s;
      }
      forall i: nat | i <= |s| - 1 ensures s[1..][i..] == s[i + 1..] {}
      forall i: nat | 0 < i <= |s| ensures s[i..] == s[1..][i - 1..] {}
      if Contains(s[1..], pattern) {
        var i: nat :| i <= |s[1..]| && pattern <= s[1..][i..];
        assert pattern <= s[i + 1..];
      }
      if i: nat :| i <= |s| && pattern <= s[i..] {
        if i == 0 { assert s[0..] == s; } else { assert pattern <= s[1..][i - 1..]; }
      }
    } else {
      assert s[0..] == s;
    }
  }

  lemma LowerStandsAt(s: string, pattern: string, i: nat)
    requires NoCapitals(pattern) && i <= |s|
    ensures pattern <= Lower(s)[i..] <==> StandsAt(s, pattern, i)
  {
    var lower := Lower(s);
    if StandsAt(s, pattern, i) {
      forall j | 0 <= j < |pattern| ensures lower[i..][j] == pattern[j] {
        assert SameLetter(s[i + j], pattern[j]);
      }
    }
    if pattern <= lower[i..] {
      forall j | 0 <= j < |pattern| ensures SameLetter(s[i + j], pattern[j]) {
        assert lower[i..][j] == pattern[j];
      }
    }
  }

  lemma ContainsMentions(s: string, pattern: string)
    requires NoCapitals(pattern)
    ensures Contains(Lower(s), pattern) <==> exists i: nat :: StandsAt(s, pattern, i)
  {
    ContainsIff(Lower(s), pattern);
    forall i: nat | i <= |s| ensures pattern <= Lower(s)[i..] <==> StandsAt(s, pattern, i) {
      LowerStandsAt(s, pattern, i);
    }
  }

  lemma {:induction false} MatchesMentions(s: string, patterns: seq<string>)
    requires forall pattern | pattern in patterns :: NoCapitals(pattern)
    ensures Matches(Lower(s), patterns) <==> Mentions(s, patterns)
  {
    if patterns != [] {
      ContainsMentions(s, patterns[0]);
      MatchesMentions(s, patterns[1..]);
      assert patterns == [patterns[0]] + patterns[1..];
    }
  }

  lemma ConstraintPatternsAreLower()
    ensures NoCapitals("violates check constraint") && NoCapitals("violates unique constraint")
  {
  }

  lemma OtherServerPatternsAreLower()
    ensures NoCapitals("duplicate key value") && NoCapitals("current transaction is aborted")
    ensures NoCapitals("syntax error at or near")
  {
  }

  lemma ServerPatternsAreLower()
    ensures forall pattern | pattern in SERVER_REJECTION_PATTERNS :: NoCapitals(pattern)
  {
    ConstraintPatternsAreLower();
    OtherServerPatternsAreLower();
  }

  lemma RoutingPatternsAreLower()
    ensures forall pattern | pattern in REJECTION_PATTERNS :: NoCapitals(pattern)
  {
    assert NoCapitals("read-only");
    assert NoCapitals("cannot execute");
    assert NoCapitals("connection refused");
    assert NoCapitals("not accept");
    assert NoCapitals("read_only");
  }

  /** What psql gave back, if it came back in time. */
  datatype Answer = Answer(returncode: int, output: string) | TimedOut

  function ClassOf(a: Answer): Class {
    if a.TimedOut? then Indeterminate else Classify(a.returncode, a.output)
  }

  /** An ack is exit status 0 and nothing else. A refusal by the server, or by the
      routing, is a failure that says so somewhere, in letters of either case; the
      server's word wins. A failure that says neither, or a timeout, is indeterminate. */
  lemma ClassifyIff(returncode: int, output: string)
    ensures ClassOf(TimedOut) == Indeterminate
    ensures var c := ClassOf(Answer(returncode, output));
            var server, routing := Mentions(output, SERVER_REJECTION_PATTERNS), Mentions(output, REJECTION_PATTERNS);
            && (c == Acked <==> returncode == 0)
            && (c == Rejected <==> returncode != 0 && server)
            && (c == RoutingRejected <==> returncode != 0 && routing && !server)
            && (c == Indeterminate <==> returncode != 0 && !routing && !server)
  {
    ServerPatternsAreLower();
    RoutingPatternsAreLower();
    MatchesMentions(output, SERVER_REJECTION_PATTERNS);
    MatchesMentions(output, REJECTION_PATTERNS);
  }

  function Classes(answers: seq<Answer>): seq<Class> {
    seq(|answers|, p requires 0 <= p < |answers| => ClassOf(answers[p]))
  }

  /** What a client loop does with the answer of one gateway port. */
  datatype Decision = Return(outcome: Outcome) | TryNextPort

  datatype Outcome = Committed | Refused | Unknown

  /** The three `if`s in the body of the port loops of `try_insert` and
      `bank_transfer`: only a routing refusal moves on to another port. */
  function Decide(c: Class): Decision {
    match c
    case Acked => Return(Committed)
    case Indeterminate => Return(Unknown)
    case Rejected => Return(Refused)
    case RoutingRejected => TryNextPort
  }

  /** How a port loop ends, given the class each port would answer with: the
      outcome, and how many ports were asked. */
  function LoopOutcome(classes: seq<Class>, p: nat): (Outcome, nat)
    requires p <= |classes|
    decreases |classes| - p
  {
    if p == |classes| then (Refused, p)
    else match Decide(classes[p])
      case Return(o) => (o, p + 1)
      case TryNextPort => LoopOutcome(classes, p + 1)
  }

  /** The ports from `p` on before port `k` would all refuse to route the statement. */
  predicate NoneRoutes(classes: seq<Class>, p: nat, k: nat)
    requires k <= |classes|
  {
    forall j | p <= j < k :: classes[j] == RoutingRejected
  }

  /** A port is asked exactly when every port before it refused to route the statement,
      so that at most the last attempt can have committed. The outcome is the last
      port's own answer; it is a refusal if that port rejected the statement or if no
      port would route it. */
  lemma {:induction false} OnlyTheLastAttemptCounts(classes: seq<Class>, p: nat)
    requires p <= |classes|
    ensures var (o, n) := LoopOutcome(classes, p);
            && p <= n <= |classes| && (n == p ==> p == |classes|)
            && (forall k | p <= k < |classes| :: k < n <==> NoneRoutes(classes, p, k))
            && (forall k | p <= k < n - 1 :: classes[k] == RoutingRejected)
            && (o == Committed <==> n > p && classes[n - 1] == Acked)
            && (o == Unknown <==> n > p && classes[n - 1] == Indeterminate)
            && (o == Refused <==> (n > p && classes[n - 1] == Rejected) || NoneRoutes(classes, p, |classes|))
    decreases |classes| - p
  {
    if p < |classes| && classes[p] == RoutingRejected {
      OnlyTheLastAttemptCounts(classes, p + 1);
      forall k | p + 1 <= k <= |classes| ensures NoneRoutes(classes, p, k) <==> NoneRoutes(classes, p + 1, k) {}
    }
  }
}
