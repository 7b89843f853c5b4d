/** The scenario runner (`testing/ci_runner.py`): one case, and a suite whose cases
    share a cluster. What every effect does (a step, a snapshot, a file written) is
    given beforehand as a Boolean, `false` where the Python raises. */
module SuiteRunner {
  import opened Sequences

  // ----- What happens -----

  datatype Case = Case(
    id: string,
    settled: bool,             // the convergence barrier before the case, from the second case on
    before: bool,              // the snapshot before
    actions: seq<bool>, assertions: seq<bool>,
    recordsPass: bool,         // result.txt and the snapshot after a pass
    recordsFailure: bool,      // result.txt, snapshot and logs after a failure
    cleanup: seq<bool>,
    recordsResidue: bool)      // file, snapshot and logs after a failed cleanup

  /** `counted`: the lines could be counted; `kept`: a log over budget could be saved. */
  datatype NodeLog = NodeLog(name: string, lines: nat, counted: bool, kept: bool)

  const LOG_LINES_PER_SERVICE_BUDGET := 250_000

  // ----- What is reported -----

  datatype Detail = Elapsed | ErrorText | NotRun(stoppedAt: string) | LogVolume(lines: nat)

  datatype Status = PASS | FAIL | ERROR

  datatype CaseSummary = CaseSummary(caseId: string, passed: bool, detail: Detail, cleanupFailures: seq<nat>) {
    function Status(): Status {
      if !passed then FAIL else if cleanupFailures != [] then ERROR else PASS
    }
  }

  datatype Phase = Action | Assert | Cleanup

  /** One executed step. */
  datatype Attempt = Attempt(caseId: string, phase: Phase, index: nat)

  datatype Result<+T> = Completed(value: T) | Raised

  // ----- One case, seen from outside -----

  predicate AllOk(steps: seq<bool>) {
    steps == [] || (AllOk(steps[..|steps| - 1]) && steps[|steps| - 1])
  }

  lemma {:induction false} AllOkIff(steps: seq<bool>)
    ensures AllOk(steps) <==> forall i | 0 <= i < |steps| :: steps[i]
  {
    if steps != [] { AllOkIff(steps[..|steps| - 1]); }
  }

  lemma {:induction false} FailsEarly(steps: seq<bool>, i: nat)
    requires i < |steps| && !steps[i]
    ensures !AllOk(steps)
  {
    AllOkIff(steps);
  }

  function Failures(steps: seq<bool>, n: nat): seq<nat>
    requires n <= |steps|
  {
    if n == 0 then [] else Failures(steps, n - 1) + (if steps[n - 1] then [] else [n - 1])
  }

  function FirstAttempts(caseId: string, phase: Phase, n: nat): seq<Attempt> {
    seq(n, i requires 0 <= i < n => Attempt(caseId, phase, i))
  }

  /** How many steps of a list are executed: those up to the first that fails. */
  function Reached(steps: seq<bool>, n: nat): nat
    requires n <= |steps|
    decreases |steps| - n
  {
    if n == |steps| then n else if !steps[n] then n + 1 else Reached(steps, n + 1)
  }

  predicate Passes(c: Case) { AllOk(c.actions) && AllOk(c.assertions) }

  /** An exception leaves `_run_case`, and no entry is written. */
  predicate Escapes(c: Case) {
    || !c.before
    || (!(Passes(c) && c.recordsPass) && !c.recordsFailure)
    || (!AllOk(c.cleanup) && !c.recordsResidue)
  }

  function Entry(c: Case): CaseSummary {
    CaseSummary(c.id, Passes(c), if Passes(c) && c.recordsPass then Elapsed else ErrorText,
                Failures(c.cleanup, |c.cleanup|))
  }

  /** The suite goes on after the case. */
  predicate Good(c: Case) { Passes(c) && AllOk(c.cleanup) }

  predicate MarksFailed(c: Case) { !Good(c) || !c.recordsPass }

  function Attempts(c: Case): seq<Attempt> {
    FirstAttempts(c.id, Action, Reached(c.actions, 0))
    + (if AllOk(c.actions) then FirstAttempts(c.id, Assert, Reached(c.assertions, 0)) else [])
    + FirstAttempts(c.id, Cleanup, |c.cleanup|)
  }

  lemma {:induction false} ReachedIff(steps: seq<bool>, n: nat, i: nat)
    requires n <= |steps| && n <= i
    ensures i < Reached(steps, n) <==> i < |steps| && forall j | n <= j < i :: steps[j]
    decreases |steps| - n
  {
    if n < |steps| && steps[n] { ReachedIff(steps, n + 1, if n < i then i else n + 1); }
  }

  /** A step is attempted exactly if every step before it succeeded; an assertion only
      after all actions did, and a cleanup step always. */
  lemma AttemptedIff(c: Case, phase: Phase, i: nat)
    ensures Attempt(c.id, phase, i) in Attempts(c) <==>
            match phase
            case Action => i < |c.actions| && forall j | 0 <= j < i :: c.actions[j]
            case Assert =>
              && (forall j | 0 <= j < |c.actions| :: c.actions[j])
              && i < |c.assertions| && forall j | 0 <= j < i :: c.assertions[j]
            case Cleanup => i < |c.cleanup|
  {
    ReachedIff(c.actions, 0, i);
    ReachedIff(c.assertions, 0, i);
    AllOkIff(c.actions);
    InFirstAttempts(c.id, Action, Reached(c.actions, 0), Attempt(c.id, phase, i));
    InFirstAttempts(c.id, Assert, Reached(c.assertions, 0), Attempt(c.id, phase, i));
    InFirstAttempts(c.id, Cleanup, |c.cleanup|, Attempt(c.id, phase, i));
  }

  lemma InFirstAttempts(caseId: string, phase: Phase, n: nat, a: Attempt)
    ensures a in FirstAttempts(caseId, phase, n) <==> a.caseId == caseId && a.phase == phase && a.index < n
  {
    if a.caseId == caseId && a.phase == phase && a.index < n { assert FirstAttempts(caseId, phase, n)[a.index] == a; }
  }

  lemma {:induction false} FailuresAreTheFailed(steps: seq<bool>, n: nat)
    requires n <= |steps|
    ensures forall i :: i in Failures(steps, n) <==> 0 <= i < n && !steps[i]
    ensures Failures(steps, n) == [] <==> AllOk(steps[..n])
  {
    if n > 0 {
      FailuresAreTheFailed(steps, n - 1);
      assert steps[..n][..n - 1] == steps[..n - 1];
    }
  }

  lemma CleanMeansNoFailures(c: Case)
    ensures Failures(c.cleanup, |c.cleanup|) == [] <==> AllOk(c.cleanup)
  {
    FailuresAreTheFailed(c.cleanup, |c.cleanup|);
    assert c.cleanup[..|c.cleanup|] == c.cleanup;
  }

  /** All steps of the list succeed. */
  predicate Every(steps: seq<bool>) {
    forall i | 0 <= i < |steps| :: steps[i]
  }

  /** A case passes if every action and assertion succeeds, and is good if every cleanup
      step does as well. No entry is written exactly if the snapshot before it, or a
      record that became necessary, could not be made. The entry tells the three
      outcomes apart and lists the cleanup steps that failed. */
  lemma CaseIs(c: Case)
    ensures var passes, clean, e := Every(c.actions) && Every(c.assertions), Every(c.cleanup), Entry(c);
            && (Good(c) <==> passes && clean)
            && (Escapes(c) <==>
                !(c.before && ((passes && c.recordsPass) || c.recordsFailure) && (clean || c.recordsResidue)))
            && e.caseId == c.id && (e.detail == Elapsed <==> passes && c.recordsPass)
            && (e.Status() == PASS <==> passes && clean) && (e.Status() == FAIL <==> !passes)
            && (forall i :: i in e.cleanupFailures <==> 0 <= i < |c.cleanup| && !c.cleanup[i])
  {
    AllOkIff(c.actions);
    AllOkIff(c.assertions);
    AllOkIff(c.cleanup);
    CleanMeansNoFailures(c);
    FailuresAreTheFailed(c.cleanup, |c.cleanup|);
  }

  // ----- The suite, seen from outside: what happens from case `k` on -----

  function NotRunEntries(cases: seq<Case>, from: nat, stoppedAt: string): seq<CaseSummary>
    requires from <= |cases|
    decreases |cases| - from
  {
    if from == |cases| then []
    else [CaseSummary(cases[from].id, false, NotRun(stoppedAt), [])] + NotRunEntries(cases, from + 1, stoppedAt)
  }

  /** `list.index`, from case `k` on. */
  function FirstIndex(cases: seq<Case>, id: string, k: nat): (first: nat)
    requires k <= |cases|
    ensures k <= first <= |cases|
    decreases |cases| - k
  {
    if k == |cases| || cases[k].id == id then k else FirstIndex(cases, id, k + 1)
  }

  function CasesNotReached(cases: seq<Case>, stoppedAt: string): seq<CaseSummary> {
    var first := FirstIndex(cases, stoppedAt, 0);
    if first < |cases| then NotRunEntries(cases, first + 1, stoppedAt) else []
  }

  function Summary(cases: seq<Case>, k: nat): seq<CaseSummary>
    requires k <= |cases|
    decreases |cases| - k
  {
    if k == |cases| then []
    else [Entry(cases[k])] + (if Good(cases[k]) then Summary(cases, k + 1) else CasesNotReached(cases, cases[k].id))
  }

  function AllAttempts(cases: seq<Case>, k: nat): seq<Attempt>
    requires k <= |cases|
    decreases |cases| - k
  {
    if k == |cases| then [] else Attempts(cases[k]) + (if Good(cases[k]) then AllAttempts(cases, k + 1) else [])
  }

  predicate SomeMarksFailed(cases: seq<Case>, k: nat)
    requires k <= |cases|
    decreases |cases| - k
  {
    k < |cases| && (MarksFailed(cases[k]) || (Good(cases[k]) && SomeMarksFailed(cases, k + 1)))
  }

  /** No exception leaves the loop over the cases. */
  predicate CasesComplete(cases: seq<Case>, k: nat)
    requires k <= |cases|
    decreases |cases| - k
  {
    k == |cases|
    || ((k == 0 || cases[k].settled) && !Escapes(cases[k]) && (Good(cases[k]) ==> CasesComplete(cases, k + 1)))
  }

  /** Something marks the run failed. */
  predicate SomethingFailed(cases: seq<Case>, logs: seq<NodeLog>) {
    SomeMarksFailed(cases, 0) || LogEntries(logs, |logs|) != []
  }

  /** The case at which the suite stops; the length when it does not. */
  function StopsAt(cases: seq<Case>, k: nat): (stop: nat)
    requires k <= |cases|
    ensures k <= stop <= |cases|
    decreases |cases| - k
  {
    if k == |cases| || !Good(cases[k]) then k else StopsAt(cases, k + 1)
  }

  function LogEntry(log: NodeLog): CaseSummary {
    CaseSummary("log-volume:" + log.name, false, LogVolume(log.lines), [])
  }

  function LogEntries(logs: seq<NodeLog>, n: nat): seq<CaseSummary>
    requires n <= |logs|
  {
    if n == 0 then []
    else
      var within := logs[n - 1].lines <= LOG_LINES_PER_SERVICE_BUDGET;
      LogEntries(logs, n - 1) + (if within then [] else [LogEntry(logs[n - 1])])
  }

  predicate LogsCanBeChecked(logs: seq<NodeLog>) {
    forall i | 0 <= i < |logs| :: logs[i].counted && (logs[i].lines <= LOG_LINES_PER_SERVICE_BUDGET || logs[i].kept)
  }

  lemma {:induction false} FirstIndexIs(cases: seq<Case>, id: string, k: nat, first: nat)
    requires k <= first < |cases| && cases[first].id == id && forall i | k <= i < first :: cases[i].id != id
    ensures FirstIndex(cases, id, k) == first
    decreases |cases| - k
  {
    if k < first { FirstIndexIs(cases, id, k + 1, first); }
  }

  lemma {:induction false} FirstIndexFinds(cases: seq<Case>, id: string, k: nat, i: nat)
    requires k <= i < |cases| && cases[i].id == id
    ensures FirstIndex(cases, id, k) <= i && cases[FirstIndex(cases, id, k)].id == id
    decreases |cases| - k
  {
    if cases[k].id != id { FirstIndexFinds(cases, id, k + 1, i); }
  }

  // ----- The runner -----

  class Runner {
    const selected: seq<Case>
    const logs: seq<NodeLog>
    const starts: bool          // the cluster comes up
    const stops: bool           // the cluster can be torn down
    const keepOnFailure: bool
    var summary: seq<CaseSummary>
    var failed: bool
    var attempts: seq<Attempt>

    constructor (selected: seq<Case>, logs: seq<NodeLog>, starts: bool, stops: bool, keepOnFailure: bool)
      ensures this.selected == selected && this.logs == logs && this.starts == starts && this.stops == stops
      ensures this.keepOnFailure == keepOnFailure && summary == [] && !failed && attempts == []
    {
      this.selected, this.logs, this.starts, this.stops := selected, logs, starts, stops;
      this.keepOnFailure, summary, failed, attempts := keepOnFailure, [], false, [];
    }

    /** `_execute_step_list`: up to the first step that raises. */
    method ExecuteStepList(caseId: string, phase: Phase, steps: seq<bool>) returns (raised: bool)
      modifies this`attempts
      ensures raised <==> !AllOk(steps)
      ensures attempts == old(attempts) + FirstAttempts(caseId, phase, Reached(steps, 0))
    {
      for index := 0 to |steps|
        invariant AllOk(steps[..index]) && Reached(steps, index) == Reached(steps, 0)
        invariant attempts == old(attempts) + FirstAttempts(caseId, phase, index)
      {
        attempts := attempts + [Attempt(caseId, phase, index)];
        assert FirstAttempts(caseId, phase, index + 1) ==
               FirstAttempts(caseId, phase, index) + [Attempt(caseId, phase, index)];
        assert steps[..index + 1][..index] == steps[..index];
        if !steps[index] {
          FailsEarly(steps, index);
          return true;
        }
      }
      assert steps[..|steps|] == steps;
      return false;
    }

    /** `_run_cleanup`: every step, whatever the others did. */
    method RunCleanup(caseId: string, steps: seq<bool>) returns (failures: seq<nat>)
      modifies this`attempts
      ensures failures == Failures(steps, |steps|)
      ensures attempts == old(attempts) + FirstAttempts(caseId, Cleanup, |steps|)
    {
      failures := [];
      for index := 0 to |steps|
        invariant failures == Failures(steps, index)
        invariant attempts == old(attempts) + FirstAttempts(caseId, Cleanup, index)
      {
        attempts := attempts + [Attempt(caseId, Cleanup, index)];
        assert FirstAttempts(caseId, Cleanup, index + 1) ==
               FirstAttempts(caseId, Cleanup, index) + [Attempt(caseId, Cleanup, index)];
        if !steps[index] {
          failures := failures + [index];
        }
      }
    }

    /** The `try` block of `_run_case`. */
    method RunBody(c: Case) returns (passed: bool, raised: bool)
      modifies this`attempts
      ensures passed <==> Passes(c)
      ensures raised <==> !(Passes(c) && c.recordsPass)
      ensures attempts == old(attempts) + FirstAttempts(c.id, Action, Reached(c.actions, 0))
                + (if AllOk(c.actions) then FirstAttempts(c.id, Assert, Reached(c.assertions, 0)) else [])
    {
      passed := false;
      raised := ExecuteStepList(c.id, Action, c.actions);
      if !raised {
        raised := ExecuteStepList(c.id, Assert, c.assertions);
        if !raised {
          passed := true;
          raised := !c.recordsPass;
        }
      }
    }

    /** `try`, `except` and `finally` of `_run_case`; an exception may still be pending. */
    method RunToCleanup(c: Case) returns (passed: bool, raised: bool, pending: bool, cleanupFailures: seq<nat>)
      modifies this`failed, this`attempts
      ensures passed <==> Passes(c)
      ensures raised <==> !(Passes(c) && c.recordsPass)
      ensures pending <==> raised && !c.recordsFailure
      ensures cleanupFailures == Failures(c.cleanup, |c.cleanup|)
      ensures failed == (old(failed) || raised)
      ensures attempts == old(attempts) + Attempts(c)
    {
      passed, raised := RunBody(c);
      if raised {
        failed := true;
      }
      pending := raised && !c.recordsFailure;
      cleanupFailures := RunCleanup(c.id, c.cleanup);
    }

    /** `_run_case`. */
    method RunCase(c: Case) returns (r: Result<bool>)
      modifies this`summary, this`failed, this`attempts
      ensures r == if Escapes(c) then Raised else Completed(Good(c))
      ensures summary == if Escapes(c) then old(summary) else old(summary) + [Entry(c)]
      ensures !Escapes(c) ==> failed == (old(failed) || MarksFailed(c))
      ensures attempts == if c.before then old(attempts) + Attempts(c) else old(attempts)
    {
      if !c.before {
        return Raised;
      }
      var passed, raised, pending, cleanupFailures := RunToCleanup(c);
      CleanMeansNoFailures(c);
      if pending {
        return Raised;
      }
      if cleanupFailures != [] {
        failed := true;
        if !c.recordsResidue {
          return Raised;
        }
      }
      summary := summary + [CaseSummary(c.id, passed, if raised then ErrorText else Elapsed, cleanupFailures)];
      r := Completed(passed && cleanupFailures == []);
    }

    /** `_record_cases_not_reached`. */
    method RecordCasesNotReached(stoppedAt: string)
      requires exists i | 0 <= i < |selected| :: selected[i].id == stoppedAt
      modifies this`summary
      ensures summary == old(summary) + CasesNotReached(selected, stoppedAt)
    {
      var first := 0;
      while selected[first].id != stoppedAt
        invariant first < |selected| && forall i | 0 <= i < first :: selected[i].id != stoppedAt
        decreases |selected| - first
      {
        first := first + 1;
      }
      FirstIndexIs(selected, stoppedAt, 0, first);
      var i := first + 1;
      ghost var all := summary + NotRunEntries(selected, i, stoppedAt);
      while i < |selected|
        invariant first < i <= |selected| && summary + NotRunEntries(selected, i, stoppedAt) == all
      {
        Regroup(summary, [CaseSummary(selected[i].id, false, NotRun(stoppedAt), [])],
                NotRunEntries(selected, i + 1, stoppedAt));
        summary := summary + [CaseSummary(selected[i].id, false, NotRun(stoppedAt), [])];
        i := i + 1;
      }
      assert summary + [] == summary;
    }

    /** `_check_log_budget`. */
    method CheckLogBudget() returns (raised: bool)
      modifies this`summary, this`failed
      ensures raised <==> !LogsCanBeChecked(logs)
      ensures !raised ==> summary == old(summary) + LogEntries(logs, |logs|)
      ensures !raised ==> failed == (old(failed) || LogEntries(logs, |logs|) != [])
    {
      for i := 0 to |logs|
        invariant LogsCanBeChecked(logs[..i])
        invariant summary == old(summary) + LogEntries(logs, i)
        invariant failed == (old(failed) || LogEntries(logs, i) != [])
      {
        assert logs[..i + 1] == logs[..i] + [logs[i]];
        if !logs[i].counted {
          return true;
        }
        if logs[i].lines > LOG_LINES_PER_SERVICE_BUDGET {
          failed := true;
          summary := summary + [LogEntry(logs[i])];
          if !logs[i].kept {
            return true;
          }
        }
      }
      assert logs[..|logs|] == logs;
      return false;
    }

    /** What is recorded so far and what the cases from `n` on add make the whole. */
    ghost predicate Along(n: nat)
      reads this
      requires n <= |selected|
    {
      && CasesComplete(selected, n) == CasesComplete(selected, 0)
      && summary + Summary(selected, n) == Summary(selected, 0)
      && attempts + AllAttempts(selected, n) == AllAttempts(selected, 0)
      && (failed || SomeMarksFailed(selected, n)) == SomeMarksFailed(selected, 0)
    }

    ghost predicate Ended()
      reads this
    {
      && CasesComplete(selected, 0) && summary == Summary(selected, 0) && attempts == AllAttempts(selected, 0)
      && failed == SomeMarksFailed(selected, 0)
    }

    /** One turn of the loop over the cases of a suite that shares one cluster. */
    method RunNext(n: nat) returns (raised: bool, goOn: bool)
      requires n < |selected| && Along(n)
      modifies this`summary, this`failed, this`attempts
      ensures raised ==> !CasesComplete(selected, 0)
      ensures !raised ==> if goOn then Along(n + 1) else Ended()
    {
      var c := selected[n];
      if n > 0 && !c.settled {
        return true, false;
      }
      ghost var was, did := summary, attempts;
      var r := RunCase(c);
      if r.Raised? {
        return true, false;
      }
      if r.value {
        Regroup(was, [Entry(c)], Summary(selected, n + 1));
        Regroup(did, Attempts(c), AllAttempts(selected, n + 1));
      } else {
        RecordCasesNotReached(c.id);
        Regroup(was, [Entry(c)], CasesNotReached(selected, c.id));
        assert Attempts(c) + [] == Attempts(c);
      }
      return false, r.value;
    }

    method RunCases() returns (raised: bool)
      requires summary == [] && !failed && attempts == []
      modifies this`summary, this`failed, this`attempts
      ensures raised ==> !CasesComplete(selected, 0)
      ensures !raised ==> Ended()
    {
      for n := 0 to |selected|
        invariant Along(n)
      {
        var goOn;
        raised, goOn := RunNext(n);
        if raised || !goOn {
          return;
        }
      }
      assert summary + [] == summary && attempts + [] == attempts;
      return false;
    }

    /** `run`, with `reuse_cluster`: the exit code, unless an exception leaves it. */
    method Run() returns (r: Result<int>)
      requires summary == [] && !failed && attempts == []
      modifies this`summary, this`failed, this`attempts
      ensures r.Completed? <==>
              && starts && CasesComplete(selected, 0) && LogsCanBeChecked(logs)
              && (stops || (keepOnFailure && SomethingFailed(selected, logs)))
      ensures r.Completed? ==> IsRun(selected, logs, summary, attempts, r.value)
    {
      if !starts {
        return Raised;
      }
      var raised := RunCases();
      var budgetRaised := CheckLogBudget();
      if budgetRaised {
        return Raised;
      }
      if !(failed && keepOnFailure) && !stops {
        return Raised;
      }
      if raised {
        return Raised;
      }
      r := Completed(if failed then 1 else 0);
    }
  }

  /** The result of a run that completes. */
  ghost predicate IsRun(cases: seq<Case>, logs: seq<NodeLog>, summary: seq<CaseSummary>, attempts: seq<Attempt>,
                        exitCode: int)
  {
    && CasesComplete(cases, 0)
    && summary == Summary(cases, 0) + LogEntries(logs, |logs|)
    && attempts == AllAttempts(cases, 0)
    && exitCode == if SomethingFailed(cases, logs) then 1 else 0
  }

  // ----- What a completed run tells -----

  /** The entries name the cases from `k` on, once each, in order. */
  predicate NamesEachOnce(summary: seq<CaseSummary>, cases: seq<Case>, k: nat)
    requires k <= |cases|
  {
    |summary| == |cases| - k && forall i | 0 <= i < |summary| :: summary[i].caseId == cases[k + i].id
  }

  lemma NamesStep(e: CaseSummary, rest: seq<CaseSummary>, cases: seq<Case>, k: nat)
    requires k < |cases| && e.caseId == cases[k].id
    ensures NamesEachOnce([e] + rest, cases, k) <==> NamesEachOnce(rest, cases, k + 1)
  {
    var all := [e] + rest;
    if NamesEachOnce(all, cases, k) {
      forall i | 0 <= i < |rest| ensures rest[i].caseId == cases[k + 1 + i].id { assert all[i + 1] == rest[i]; }
    }
  }

  lemma {:induction false} NotRunNames(cases: seq<Case>, k: nat, id: string)
    requires k <= |cases|
    ensures NamesEachOnce(NotRunEntries(cases, k, id), cases, k)
    decreases |cases| - k
  {
    if k < |cases| {
      NotRunNames(cases, k + 1, id);
      NamesStep(CaseSummary(cases[k].id, false, NotRun(id), []), NotRunEntries(cases, k + 1, id), cases, k);
    }
  }

  /** The entries name the selected cases once each, in order, exactly when the suite
      does not stop or the case it stops at is the first of that id. */
  lemma {:induction false} EntriesNameTheCasesIff(cases: seq<Case>, k: nat)
    requires k <= |cases|
    ensures var stop := StopsAt(cases, k);
            NamesEachOnce(Summary(cases, k), cases, k) <==>
              (stop < |cases| ==> FirstIndex(cases, cases[stop].id, 0) == stop)
    decreases |cases| - k
  {
    if k < |cases| {
      var c := cases[k];
      if Good(c) {
        EntriesNameTheCasesIff(cases, k + 1);
        NamesStep(Entry(c), Summary(cases, k + 1), cases, k);
      } else {
        FirstIndexFinds(cases, c.id, 0, k);
        var first := FirstIndex(cases, c.id, 0);
        NotRunNames(cases, first + 1, c.id);
        NamesStep(Entry(c), CasesNotReached(cases, c.id), cases, k);
      }
    }
  }

  predicate DistinctIds(cases: seq<Case>) {
    forall i, j | 0 <= i < j < |cases| :: cases[i].id != cases[j].id
  }

  /** With distinct ids the summary covers the whole suite, whichever case fails. */
  lemma SummaryCoversTheSuite(cases: seq<Case>, logs: seq<NodeLog>, summary: seq<CaseSummary>, attempts: seq<Attempt>,
                              exitCode: int)
    requires DistinctIds(cases) && IsRun(cases, logs, summary, attempts, exitCode)
    ensures |summary| >= |cases| && NamesEachOnce(summary[..|cases|], cases, 0)
  {
    var stop := StopsAt(cases, 0);
    if stop < |cases| { FirstIndexIs(cases, cases[stop].id, 0, stop); }
    EntriesNameTheCasesIff(cases, 0);
    assert summary[..|cases|] == Summary(cases, 0);
  }

  /** The suite stops at the first case that is not good. */
  lemma {:induction false} StopsAtFirst(cases: seq<Case>, k: nat)
    requires k <= |cases|
    ensures var stop := StopsAt(cases, k);
            (forall i | k <= i < stop :: Good(cases[i])) && (stop < |cases| ==> !Good(cases[stop]))
    decreases |cases| - k
  {
    if k < |cases| && Good(cases[k]) { StopsAtFirst(cases, k + 1); }
  }

  /** The cases go through without an exception exactly if every case that is run settles,
      but for the first, and writes its entry. */
  lemma {:induction false} CompleteIff(cases: seq<Case>, k: nat)
    requires k <= |cases|
    ensures CasesComplete(cases, k) <==>
            forall i | k <= i < |cases| && i <= StopsAt(cases, k) :: (i == 0 || cases[i].settled) && !Escapes(cases[i])
    decreases |cases| - k
  {
    if k < |cases| && Good(cases[k]) { CompleteIff(cases, k + 1); }
  }

  lemma {:induction false} NotRunEntryAt(cases: seq<Case>, from: nat, stoppedAt: string, i: nat)
    requires from <= i < |cases|
    ensures |NotRunEntries(cases, from, stoppedAt)| == |cases| - from
    ensures NotRunEntries(cases, from, stoppedAt)[i - from] == CaseSummary(cases[i].id, false, NotRun(stoppedAt), [])
    decreases |cases| - from
  {
    if from < i {
      NotRunEntryAt(cases, from + 1, stoppedAt, i);
    } else if from + 1 < |cases| {
      NotRunEntryAt(cases, from + 1, stoppedAt, from + 1);
    }
  }

  /** Entry `i` when the suite stops at case `stop`. */
  function EntryAt(cases: seq<Case>, stop: nat, i: nat): CaseSummary
    requires stop <= |cases| && i < |cases|
  {
    if i <= stop then Entry(cases[i]) else CaseSummary(cases[i].id, false, NotRun(cases[stop].id), [])
  }

  lemma StoppedSummary(cases: seq<Case>, k: nat)
    requires DistinctIds(cases) && k < |cases| && !Good(cases[k])
    ensures Summary(cases, k) == [Entry(cases[k])] + NotRunEntries(cases, k + 1, cases[k].id)
  {
    FirstIndexIs(cases, cases[k].id, 0, k);
  }

  lemma StoppedSummaryAt(cases: seq<Case>, k: nat, i: nat)
    requires DistinctIds(cases) && k <= i < |cases| && !Good(cases[k])
    ensures |Summary(cases, k)| == |cases| - k && Summary(cases, k)[i - k] == EntryAt(cases, k, i)
  {
    var rest := NotRunEntries(cases, k + 1, cases[k].id);
    StoppedSummary(cases, k);
    BehindHead(Summary(cases, k), Entry(cases[k]), rest, i - k);
    if k + 1 < |cases| { NotRunEntryAt(cases, k + 1, cases[k].id, if k < i then i else k + 1); }
  }

  lemma GoodSummaryAt(cases: seq<Case>, k: nat, i: nat)
    requires k <= i < |cases| && Good(cases[k]) && |Summary(cases, k + 1)| == |cases| - k - 1
    ensures |Summary(cases, k)| == |cases| - k
    ensures Summary(cases, k)[i - k] == if i == k then Entry(cases[k]) else Summary(cases, k + 1)[i - k - 1]
  {
  }

  lemma {:induction false} SummaryAt(cases: seq<Case>, k: nat, i: nat)
    requires DistinctIds(cases) && k <= i < |cases|
    ensures |Summary(cases, k)| == |cases| - k && Summary(cases, k)[i - k] == EntryAt(cases, StopsAt(cases, k), i)
    decreases |cases| - k
  {
    if !Good(cases[k]) {
      StoppedSummaryAt(cases, k, i);
    } else {
      if k + 1 < |cases| { SummaryAt(cases, k + 1, if k < i then i else k + 1); }
      GoodSummaryAt(cases, k, i);
    }
  }

  /** With distinct ids, entry `i` is the result of case `i` up to the case at which the
      suite stops, and after it says that the case was not run because of that one. */
  lemma EntriesAre(cases: seq<Case>, logs: seq<NodeLog>, summary: seq<CaseSummary>, attempts: seq<Attempt>,
                   exitCode: int, i: nat)
    requires DistinctIds(cases) && IsRun(cases, logs, summary, attempts, exitCode) && i < |cases|
    ensures i < |summary|
    ensures summary[i] == EntryAt(cases, StopsAt(cases, 0), i)
  {
    SummaryFrom0(cases, i);
    InFront(summary, Summary(cases, 0), LogEntries(logs, |logs|), i);
  }

  lemma SummaryFrom0(cases: seq<Case>, i: nat)
    requires DistinctIds(cases) && i < |cases|
    ensures |Summary(cases, 0)| == |cases| && Summary(cases, 0)[i] == EntryAt(cases, StopsAt(cases, 0), i)
  {
    SummaryAt(cases, 0, i);
  }

  /** A node is listed for its log exactly if it has more than 250,000 lines. */
  lemma {:induction false} LogEntriesIff(logs: seq<NodeLog>, n: nat, e: CaseSummary)
    requires n <= |logs|
    ensures e in LogEntries(logs, n) <==> exists i | 0 <= i < n :: logs[i].lines > 250_000 && e == LogEntry(logs[i])
  {
    if n > 0 { LogEntriesIff(logs, n - 1, e); }
  }

  lemma {:induction false} AttemptsOfCase(cases: seq<Case>, k: nat, i: nat, a: Attempt)
    requires k <= i < |cases| && i <= StopsAt(cases, k) && a in Attempts(cases[i])
    ensures a in AllAttempts(cases, k)
    decreases |cases| - k
  {
    if k < i { AttemptsOfCase(cases, k + 1, i, a); }
  }

  lemma CleanupIsAttempted(c: Case, step: nat)
    requires step < |c.cleanup|
    ensures Attempt(c.id, Cleanup, step) in Attempts(c)
  {
    assert FirstAttempts(c.id, Cleanup, |c.cleanup|)[step] == Attempt(c.id, Cleanup, step);
  }

  /** Every cleanup step of every executed case is attempted, whatever failed. */
  lemma EveryCleanupIsAttempted(cases: seq<Case>, logs: seq<NodeLog>, summary: seq<CaseSummary>,
                                attempts: seq<Attempt>, exitCode: int,
                                i: nat, step: nat)
    requires IsRun(cases, logs, summary, attempts, exitCode)
    requires i < |cases| && i <= StopsAt(cases, 0) && step < |cases[i].cleanup|
    ensures Attempt(cases[i].id, Cleanup, step) in attempts
  {
    CleanupIsAttempted(cases[i], step);
    AttemptsOfCase(cases, 0, i, Attempt(cases[i].id, Cleanup, step));
  }

  predicate AllPass(summary: seq<CaseSummary>) {
    forall i | 0 <= i < |summary| :: summary[i].Status() == PASS
  }

  lemma PassMeansGood(c: Case)
    ensures Entry(c).Status() == PASS <==> Good(c)
  {
    CleanMeansNoFailures(c);
  }

  lemma AllPassParts(xs: seq<CaseSummary>, ys: seq<CaseSummary>)
    ensures AllPass(xs + ys) <==> AllPass(xs) && AllPass(ys)
  {
    if AllPass(xs + ys) {
      forall i | 0 <= i < |xs| ensures xs[i].Status() == PASS { assert (xs + ys)[i] == xs[i]; }
      forall i | 0 <= i < |ys| ensures ys[i].Status() == PASS { assert (xs + ys)[|xs| + i] == ys[i]; }
    }
  }

  lemma AllPassStep(cases: seq<Case>, k: nat)
    requires k < |cases|
    ensures AllPass(Summary(cases, k)) <==> Good(cases[k]) && AllPass(Summary(cases, k + 1))
  {
    var c := cases[k];
    PassMeansGood(c);
    assert [Entry(c)][0] == Entry(c);
    AllPassParts([Entry(c)], if Good(c) then Summary(cases, k + 1) else CasesNotReached(cases, c.id));
  }

  /** Every case that ran, from case `k` on, wrote its pass down. */
  predicate AllRecorded(cases: seq<Case>, k: nat)
    requires k <= |cases|
  {
    forall i | k <= i < |cases| && i <= StopsAt(cases, k) :: cases[i].recordsPass
  }

  lemma AllRecordedStep(cases: seq<Case>, k: nat)
    requires k < |cases| && Good(cases[k])
    ensures AllRecorded(cases, k) <==> cases[k].recordsPass && AllRecorded(cases, k + 1)
  {
  }

  /** From case `k` on, nothing marks the run failed exactly when every entry is a
      PASS and every case wrote its pass down. */
  lemma {:induction false} UnmarkedIff(cases: seq<Case>, k: nat)
    requires k <= |cases|
    ensures !SomeMarksFailed(cases, k) <==> AllPass(Summary(cases, k)) && AllRecorded(cases, k)
    ensures AllPass(Summary(cases, k)) ==> StopsAt(cases, k) == |cases|
    decreases |cases| - k
  {
    if k < |cases| {
      AllPassStep(cases, k);
      if Good(cases[k]) {
        AllRecordedStep(cases, k);
        UnmarkedIff(cases, k + 1);
      }
    }
  }

  lemma {:induction false} LogEntriesFail(logs: seq<NodeLog>, n: nat)
    requires n <= |logs|
    ensures AllPass(LogEntries(logs, n)) <==> LogEntries(logs, n) == []
  {
    if n > 0 {
      LogEntriesFail(logs, n - 1);
      AllPassParts(LogEntries(logs, n - 1), [LogEntry(logs[n - 1])]);
      assert [LogEntry(logs[n - 1])][0].Status() == FAIL;
      assert LogEntries(logs, n - 1) + [] == LogEntries(logs, n - 1);
    }
  }

  /** The exit code is 0 exactly when every entry is PASS and no executed case
      failed to write its pass down. */
  lemma ExitZeroIff(cases: seq<Case>, logs: seq<NodeLog>, summary: seq<CaseSummary>, attempts: seq<Attempt>,
                    exitCode: int)
    requires IsRun(cases, logs, summary, attempts, exitCode)
    ensures exitCode == 0 <==>
            AllPass(summary) && AllRecorded(cases, 0)
  {
    UnmarkedIff(cases, 0);
    LogEntriesFail(logs, |logs|);
    AllPassParts(Summary(cases, 0), LogEntries(logs, |logs|));
  }

  lemma {:induction false} GoodBeforeStop(cases: seq<Case>, k: nat, i: nat)
    requires k <= |cases| && k <= i < StopsAt(cases, k)
    ensures Good(cases[i])
    decreases |cases| - k
  {
    if k < i { GoodBeforeStop(cases, k + 1, i); }
  }

  lemma {:induction false} AllReached(steps: seq<bool>, n: nat)
    requires n <= |steps| && AllOk(steps)
    ensures Reached(steps, n) == |steps|
    decreases |steps| - n
  {
    AllOkIff(steps);
    if n < |steps| { AllReached(steps, n + 1); }
  }

  function EveryStep(c: Case): seq<Attempt> {
    FirstAttempts(c.id, Action, |c.actions|) + FirstAttempts(c.id, Assert, |c.assertions|)
      + FirstAttempts(c.id, Cleanup, |c.cleanup|)
  }

  /** Green means everything really ran: exit code 0 only if every entry is PASS, one
      for each case, and every step of every case was attempted and succeeded. */
  lemma GreenMeansAllRan(cases: seq<Case>, logs: seq<NodeLog>, summary: seq<CaseSummary>, attempts: seq<Attempt>,
                         i: nat, a: Attempt)
    requires IsRun(cases, logs, summary, attempts, 0)
    ensures NamesEachOnce(summary, cases, 0) && AllPass(summary)
    ensures i < |cases| ==> Good(cases[i]) && (a in EveryStep(cases[i]) ==> a in attempts)
  {
    ExitZeroIff(cases, logs, summary, attempts, 0);
    UnmarkedIff(cases, 0);
    EntriesNameTheCasesIff(cases, 0);
    assert summary == Summary(cases, 0);
    if i < |cases| {
      GoodBeforeStop(cases, 0, i);
      AllReached(cases[i].actions, 0);
      AllReached(cases[i].assertions, 0);
      if a in EveryStep(cases[i]) { AttemptsOfCase(cases, 0, i, a); }
    }
  }

  const UNWRITTEN_PASS := Case("case", true, true, [true], [true], false, true, [], true)

  /** A case that passed but could not write its result down is reported as PASS
      in a run that exits 1. */
  lemma PassCanExitOne(summary: seq<CaseSummary>, attempts: seq<Attempt>, exitCode: int)
    requires IsRun([UNWRITTEN_PASS], [], summary, attempts, exitCode)
    ensures AllPass(summary) && exitCode == 1
  {
    AllOkIff(UNWRITTEN_PASS.actions);
    AllOkIff(UNWRITTEN_PASS.assertions);
    assert Good(UNWRITTEN_PASS) && [UNWRITTEN_PASS][0] == UNWRITTEN_PASS;
    PassMeansGood(UNWRITTEN_PASS);
    assert Summary([UNWRITTEN_PASS], 1) == [];
    assert summary == [Entry(UNWRITTEN_PASS)];
  }
}
