/** What accepting a generation receipt establishes, and that an honestly produced one is accepted. */
module ReceiptReplay {
  import opened Text
  import opened Wire
  import opened AgentCandidates
  import opened Journal
  import opened JsonChecks
  import opened Reports
  import opened Receipt

  // ----- counting in the traces alone

  predicate TracedPass(t: Trace, candidate: Name) {
    var v := VerdictFor(t.results, candidate);
    v.Some? && v.value.passed
  }

  predicate TracedFailure(t: Trace, candidate: Name) {
    var v := VerdictFor(t.results, candidate);
    v.Some? && !v.value.safe
  }

  /** Cases the evaluator says the candidate passed. */
  function TracedPasses(traces: seq<Trace>, candidate: Name): nat {
    if traces == [] then 0
    else TracedPasses(traces[..|traces| - 1], candidate) + if TracedPass(traces[|traces| - 1], candidate) then 1 else 0
  }

  /** Cases in which the evaluator says the candidate was unsafe. */
  function TracedFailures(traces: seq<Trace>, candidate: Name): nat {
    if traces == [] then 0
    else TracedFailures(traces[..|traces| - 1], candidate) + if TracedFailure(traces[|traces| - 1], candidate) then 1
      else 0
  }

  /** Case by case, the report repeats the traced verdict on the candidate. */
  ghost predicate Repeats(cases: seq<ReportCase>, traces: seq<Trace>, candidate: Name) {
    |cases| == |traces| && forall i :: 0 <= i < |cases| ==>
      var v := VerdictFor(traces[i].results, candidate);
      v.Some? && cases[i].passed == v.value.passed && cases[i].safe == v.value.safe
  }

  lemma {:induction false} CountsAgree(cases: seq<ReportCase>, traces: seq<Trace>, candidate: Name)
    requires Repeats(cases, traces, candidate)
    ensures Passed(cases) == TracedPasses(traces, candidate)
    ensures Unsafe(cases) == TracedFailures(traces, candidate)
  {
    hide VerdictFor;
    if cases != [] {
      CountsAgree(cases[..|cases| - 1], traces[..|traces| - 1], candidate);
    }
  }

  lemma AcceptedRepeats(sha: Sha, q: Request, g: Generation)
    requires Accepts(sha, q, g)
    ensures Repeats(g.incumbent.cases, g.traces, ParentId(sha, g))
    ensures Repeats(g.challenger.cases, g.traces, ChildId(sha, g))
  {
    hide VerdictFor, TraceBinds, Forecast, CandidatesHold, ReportHolds, SelectTaskReports, Comparable, ParentId,
      ChildId,
      RequestHolds;
    forall i | 0 <= i < |g.traces|
      ensures VerdictFor(g.traces[i].results, ParentId(sha, g)).Some?
      ensures VerdictFor(g.traces[i].results, ChildId(sha, g)).Some?
    {
      assert TraceAgrees(sha, q, g.traces[i], q.tasks[i], ParentId(sha, g), ChildId(sha, g), g.incumbent.cases[i],
        g.challenger.cases[i]);
    }
  }

  /** The evaluator's verdicts in the traces, and the policy, decide the next parent. */
  lemma TracesDecideNextParent(sha: Sha, q: Request, g: Generation)
    requires Accepts(sha, q, g)
    ensures var parent, child := ParentId(sha, g), ChildId(sha, g);
      && parent != child
      && NextId(sha, g) ==
         if Promotes(q.policy, TracedPasses(g.traces, parent), TracedFailures(g.traces, parent),
                     TracedPasses(g.traces, child), TracedFailures(g.traces, child))
         then child else parent
  {
    AcceptedRepeats(sha, q, g);
    CountsAgree(g.incumbent.cases, g.traces, ParentId(sha, g));
    CountsAgree(g.challenger.cases, g.traces, ChildId(sha, g));
    AcceptedReports(sha, q, g);
    hide Accepts, SelectTaskReports, Comparable, TracedPasses, TracedFailures, ParentId, ChildId, NextId, Repeats,
      Passed, Unsafe;
  }

  lemma AcceptedReports(sha: Sha, q: Request, g: Generation)
    requires Accepts(sha, q, g)
    ensures ParentId(sha, g) != ChildId(sha, g)
    ensures g.incumbent.candidate == ParentId(sha, g) && g.challenger.candidate == ChildId(sha, g)
    ensures NextId(sha, g) ==
      if Promotes(q.policy, Passed(g.incumbent.cases), Unsafe(g.incumbent.cases), Passed(g.challenger.cases),
        Unsafe(g.challenger.cases))
      then g.challenger.candidate else g.incumbent.candidate
  {
    hide CandidatesHold, TracesAgree, RequestHolds, Passed, Unsafe, ParentId, ChildId, NextId, Verifies,
      WellFormedCase, PythonEqual;
    Identities(sha, q, g);
  }

  /** For both candidates, every report case names its task and repeats the traced verdict, and its probability is
      the one that run forecast for the observed outcome; both summaries count the traced verdicts. */
  lemma AcceptedReportsFollowTraces(sha: Sha, q: Request, g: Generation, i: nat)
    requires Accepts(sha, q, g) && i < |q.tasks|
    ensures |g.traces| == |q.tasks| == |g.incumbent.cases| == |g.challenger.cases|
    ensures var t, kept := g.traces[i], VerdictFor(g.traces[i].results, ParentId(sha, g));
      kept.Some? && CaseAgrees(g.incumbent.cases[i], t.incumbentRun, q.tasks[i], kept.value)
    ensures var t, tried := g.traces[i], VerdictFor(g.traces[i].results, ChildId(sha, g));
      tried.Some? && CaseAgrees(g.challenger.cases[i], t.challengerRun, q.tasks[i], tried.value)
    ensures PythonEqual(g.incumbent.summary,
      Summary(|q.tasks|, TracedPasses(g.traces, ParentId(sha, g)), TracedFailures(g.traces, ParentId(sha, g))))
    ensures PythonEqual(g.challenger.summary,
      Summary(|q.tasks|, TracedPasses(g.traces, ChildId(sha, g)), TracedFailures(g.traces, ChildId(sha, g))))
  {
    AcceptedRepeats(sha, q, g);
    CountsAgree(g.incumbent.cases, g.traces, ParentId(sha, g));
    CountsAgree(g.challenger.cases, g.traces, ChildId(sha, g));
    hide VerdictFor, TraceBinds, CaseAgrees, CandidatesHold, SelectTaskReports, Comparable, ParentId, ChildId,
      RequestHolds,
      TracedPasses, TracedFailures,
      PythonEqual, Summary, Repeats, Passed, Unsafe;
    assert TraceAgrees(sha, q, g.traces[i], q.tasks[i], ParentId(sha, g), ChildId(sha, g), g.incumbent.cases[i],
      g.challenger.cases[i]);
  }

  // ----- what an accepted receipt says, item by item

  /** The candidates of an accepted receipt: the requested parent, another child, and the one the reports promote. */
  lemma AcceptedCandidates(sha: Sha, q: Request, g: Generation)
    requires Accepts(sha, q, g)
    ensures var parent, child, next := CandidateOf(sha, g.parent), CandidateOf(sha, g.child),
      CandidateOf(sha, g.nextParent);
      && parent.Some? && child.Some? && next.Some?
      && CandidateRecord(sha, q.parentArtifact) == Some(RecordOf(sha, parent.value))
      && CandidateId(sha, child.value) != CandidateId(sha, parent.value)
      && g.incumbent.candidate == CandidateId(sha, parent.value)
      && g.challenger.candidate == CandidateId(sha, child.value)
      && CandidateId(sha, next.value) ==
           (if Promotes(q.policy, Passed(g.incumbent.cases), Unsafe(g.incumbent.cases), Passed(g.challenger.cases),
              Unsafe(g.challenger.cases)) then CandidateId(sha, child.value) else CandidateId(sha, parent.value))
  {
    hide TracesAgree, RequestHolds, Comparable, Passed, Unsafe, Summary, PythonEqual, CandidateId, WellFormedCase;
  }

  /** And what it answers: a request with tasks and two commands, for the same named evaluation. */
  lemma AcceptedRequest(sha: Sha, q: Request, g: Generation)
    requires Accepts(sha, q, g)
    ensures q.tasks != [] && q.runner.Arr? && q.evaluator.Arr? && q.evaluation.Str? && q.evaluation.s != []
    ensures g.evaluation == q.evaluation && g.incumbent.evaluation == g.challenger.evaluation == q.evaluation.s
    ensures g.proposal.Str? && IsSha256(g.proposal.s)
  {
    hide TracesAgree, CandidatesHold, Comparable, Passed, Unsafe, Summary, CandidateId, WellFormedCase, IsSha256;
  }

  /** A traced task is this task. */
  predicate IsTask(t: Task, task: Task) {
    t.caseId == task.caseId && PythonEqual(t.input, task.input)
  }

  /** The report case repeats this verdict, with the probability the run gave to its outcome and to no other entry. */
  ghost predicate RepeatsVerdict(c: ReportCase, v: Verdict, run: Run) {
    && c.evidence == v.evidence && c.outcome == v.outcome && c.passed == v.passed && c.safe == v.safe
    && (exists chance :: chance in run.chances && chance.outcome == v.outcome)
    && forall chance :: chance in run.chances && chance.outcome == v.outcome ==> chance.probability == c.probability
  }

  /** Every trace of an accepted receipt: who ran, which task, on which adapters, judged by whom, and how both report
      cases come from the two verdicts. */
  lemma AcceptedTraceIs(sha: Sha, q: Request, g: Generation, i: nat)
    requires Accepts(sha, q, g) && i < |q.tasks|
    ensures |g.traces| == |q.tasks| == |g.incumbent.cases| == |g.challenger.cases|
    ensures CandidateOf(sha, g.parent).Some? && CandidateOf(sha, g.child).Some?
    ensures var t, parent, child := g.traces[i], CandidateOf(sha, g.parent).value, CandidateOf(sha, g.child).value;
      && t.incumbentRun.candidate == CandidateId(sha, parent) && t.challengerRun.candidate == CandidateId(sha, child)
      && IsTask(t.task, q.tasks[i]) && IsTask(t.incumbentRun.task, q.tasks[i])
           && IsTask(t.challengerRun.task, q.tasks[i])
      && t.incumbentRun.adapter == sha(Print(Obj(map[Key("command") := q.runner])))
      && t.challengerRun.adapter == sha(Print(Obj(map[Key("command") := q.runner])))
      && t.evaluator == sha(Print(Obj(map[Key("command") := q.evaluator])))
      && Str(t.evaluation) == q.evaluation && t.caseId == q.tasks[i].caseId
      && |t.results| == 2
      && forall v :: v in t.results ==>
           || (v.candidate == CandidateId(sha, parent) && RepeatsVerdict(g.incumbent.cases[i], v, t.incumbentRun))
           || (v.candidate == CandidateId(sha, child) && RepeatsVerdict(g.challenger.cases[i], v, t.challengerRun))
    ensures g.incumbent.cases[i].caseId == g.challenger.cases[i].caseId == q.tasks[i].caseId
  {
    hide PythonEqual, RequestHolds, SelectTaskReports, Comparable, ReportHolds, CandidateId, Print, WellFormedTask,
      WellFormedVerdict, WellFormedForecast, IsSha256, IsName, VerdictFor, CandidateOf, CandidateRecord, RecordOf;
    var t := g.traces[i];
    var parent, child := ParentId(sha, g), ChildId(sha, g);
    assert TraceAgrees(sha, q, t, q.tasks[i], parent, child, g.incumbent.cases[i], g.challenger.cases[i]);
    assert parent in {t.results[0].candidate, t.results[1].candidate};
    assert child in {t.results[0].candidate, t.results[1].candidate};
    VerdictOfTwo(t.results, parent);
    VerdictOfTwo(t.results, child);
    forall v | v in t.results
      ensures v == VerdictFor(t.results, parent).value || v == VerdictFor(t.results, child).value
    {
      OnlyVerdicts(t.results, parent, child, v);
    }
  }

  lemma OnlyVerdicts(results: seq<Verdict>, a: Name, b: Name, v: Verdict)
    requires |results| == 2 && results[0].candidate != results[1].candidate && v in results
    requires {results[0].candidate, results[1].candidate} == {a, b}
    ensures VerdictFor(results, a).Some? && VerdictFor(results, b).Some?
    ensures v == VerdictFor(results, a).value || v == VerdictFor(results, b).value
  {
    assert a in {results[0].candidate, results[1].candidate};
    assert b in {results[0].candidate, results[1].candidate};
    assert results[0].candidate in {a, b} && results[1].candidate in {a, b};
    assert results[..1] == [results[0]];
  }

  // ----- an honest generation

  /** The report is the assay of these runs and verdicts. */
  ghost predicate AssayedReport(report: Report, candidate: Name, evaluation: Name, assayed: seq<Assayed>,
      tasks: seq<Task>) {
    && Assayable(candidate, evaluation, assayed)
    && report == MeasuredReport(candidate, evaluation, assayed)
    && |assayed| == |tasks| && forall i :: 0 <= i < |tasks| ==> assayed[i].caseId == tasks[i].caseId
  }

  lemma ProbabilityIsForecast(chances: seq<Chance>, outcome: Name)
    requires WellFormedForecast(chances) && Foresees(chances, outcome)
    ensures Forecast(chances, outcome, Probability(chances, outcome))
  {
    hide IsName;
    var p := Probability(chances, outcome);
    var k :| 0 <= k < |chances| && chances[k].outcome == outcome && chances[k].probability == p;
    assert chances[k] in chances;
  }

  /** A case the assay measured agrees with the run and the verdict it was measured from. */
  lemma MeasuredCaseAgrees(candidate: Name, a: Assayed, run: Run, task: Task)
    requires AssayableCase(candidate, a) && run.chances == a.chances && task.caseId == a.caseId
    ensures CaseAgrees(MeasuredCase(candidate, a), run, task, a.verdict)
  {
    ProbabilityIsForecast(a.chances, a.verdict.outcome);
    hide Forecast, WellFormedForecast, WellFormedVerdict, IsName;
  }

  /** Traces that bind the right runs and evaluator, with reports assayed from them. */
  ghost predicate Produced(sha: Sha, q: Request, g: Generation, parents: seq<Assayed>, children: seq<Assayed>) {
    && CandidatesHold(sha, q, g) && RequestHolds(q)
    && |g.traces| == |q.tasks| == |parents| == |children|
    && (forall i :: 0 <= i < |q.tasks| ==>
          TraceBinds(sha, q, g.traces[i], q.tasks[i], ParentId(sha, g), ChildId(sha, g)))
    && (forall i :: 0 <= i < |q.tasks| ==>
          && parents[i].chances == g.traces[i].incumbentRun.chances
          && VerdictFor(g.traces[i].results, ParentId(sha, g)) == Some(parents[i].verdict)
          && children[i].chances == g.traces[i].challengerRun.chances
          && VerdictFor(g.traces[i].results, ChildId(sha, g)) == Some(children[i].verdict))
    && AssayedReport(g.incumbent, ParentId(sha, g), q.evaluation.s, parents, q.tasks)
    && AssayedReport(g.challenger, ChildId(sha, g), q.evaluation.s, children, q.tasks)
  }

  /** A generation whose reports were assayed from its own traces, and whose selection and next parent are the
      gate's, is accepted. */
  lemma HonestGenerationAccepted(sha: Sha, q: Request, g: Generation, parents: seq<Assayed>, children: seq<Assayed>)
    requires Produced(sha, q, g, parents, children)
    requires g.evaluation == q.evaluation && Sha256String(g.proposal)
    requires SelectTaskReports(q.policy, g.incumbent, g.challenger) == Some(g.selection)
      && g.selection.selected == NextId(sha, g)
    ensures Accepts(sha, q, g)
  {
    hide CandidatesHold, TraceBinds, VerdictFor, ParentId, ChildId, NextId, SelectTaskReports, Comparable, Assayable,
      AssayableCase,
      CaseAgrees, PythonEqual, ReportHolds, MeasuredReport, Accepts, MeasuredCase, Passed, Unsafe, IsSha256;
    MeasuredReportsHold(ParentId(sha, g), q.evaluation.s, parents, q.tasks);
    MeasuredReportsHold(ChildId(sha, g), q.evaluation.s, children, q.tasks);
    PythonEqualSelf(q.evaluation);
    MeasuredRows(ParentId(sha, g), q.evaluation.s, parents);
    MeasuredRows(ChildId(sha, g), q.evaluation.s, children);
    forall i | 0 <= i < |q.tasks|
      ensures TraceAgrees(sha, q, g.traces[i], q.tasks[i], ParentId(sha, g), ChildId(sha, g), g.incumbent.cases[i],
        g.challenger.cases[i])
    {
      MeasuredCaseAgrees(ParentId(sha, g), parents[i], g.traces[i].incumbentRun, q.tasks[i]);
      MeasuredCaseAgrees(ChildId(sha, g), children[i], g.traces[i].challengerRun, q.tasks[i]);
    }
    Assembled(sha, q, g);
  }

  lemma MeasuredRows(candidate: Name, evaluation: Name, cases: seq<Assayed>)
    requires Assayable(candidate, evaluation, cases)
    ensures var report := MeasuredReport(candidate, evaluation, cases);
      |report.cases| == |cases| && forall i :: 0 <= i < |cases| ==>
        AssayableCase(candidate, cases[i]) && report.cases[i] == MeasuredCase(candidate, cases[i])
  {
    hide AssayableCase, MeasuredCase, Summary, Passed, Unsafe;
  }

  lemma Assembled(sha: Sha, q: Request, g: Generation)
    requires PythonEqual(g.evaluation, q.evaluation) && CandidatesHold(sha, q, g) && RequestHolds(q)
    requires SelectTaskReports(q.policy, g.incumbent, g.challenger) == Some(g.selection)
      && g.selection.selected == NextId(sha, g)
    requires ReportHolds(g.incumbent, ParentId(sha, g), q.tasks, q.evaluation.s)
    requires ReportHolds(g.challenger, ChildId(sha, g), q.tasks, q.evaluation.s)
    requires TracesAgree(sha, q, g, |q.tasks|) && Sha256String(g.proposal)
    ensures Accepts(sha, q, g)
  {
    hide PythonEqual, CandidatesHold, RequestHolds, SelectTaskReports, Comparable, NextId, ReportHolds, TracesAgree,
      ParentId,
      ChildId;
  }
}
