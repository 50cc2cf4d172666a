/** A whole generation put together from two artifacts, the tasks, the forecasts and the verdicts, as the generation
    runner does it: its receipt is accepted. */
module ReceiptHonest {
  import opened Text
  import opened Wire
  import opened Journal
  import opened JsonChecks
  import opened AgentProtocol
  import opened AgentCandidates
  import opened Reports
  import opened Receipt
  import opened ReceiptReplay

  /** What one generation is put together from. `kept` and `tried` are the cases of the parent and of the child. */
  datatype Made = Made(evaluation: Name, parent: Artifact, child: Artifact, tasks: seq<Task>, runner: seq<Json>,
    evaluator: seq<Json>, policy: Policy, kept: seq<Assayed>, tried: seq<Assayed>, proposal: Name)

  /** Two different candidates, each assayable on well-formed tasks. */
  ghost predicate Makes(sha: Sha, m: Made) {
    && Normal(m.parent) && Normal(m.child) && CandidateId(sha, m.parent) != CandidateId(sha, m.child)
    && m.tasks != [] && |m.tasks| == |m.kept| == |m.tried| && m.policy.minimum >= 1
    && (forall i :: 0 <= i < |m.tasks| ==> WellFormedTask(m.tasks[i]))
    && (forall i :: 0 <= i < |m.tasks| ==> m.kept[i].caseId == m.tasks[i].caseId == m.tried[i].caseId)
    && Assayable(CandidateId(sha, m.parent), m.evaluation, m.kept)
    && Assayable(CandidateId(sha, m.child), m.evaluation, m.tried)
    && IsSha256(m.proposal)
  }

  function RequestOf(m: Made): Request {
    Request(Str(m.evaluation), Document(m.parent), m.tasks, Arr(m.runner), Arr(m.evaluator), m.policy)
  }

  function CommandDigest(sha: Sha, command: seq<Json>): Name {
    sha(Print(Obj(map[Key("command") := Arr(command)])))
  }

  function TraceOf(sha: Sha, m: Made, i: nat): Trace
    requires i < |m.tasks| && i < |m.kept| && i < |m.tried|
  {
    var task, runner := m.tasks[i], CommandDigest(sha, m.runner);
    Trace(task, Run(CandidateId(sha, m.parent), task, runner, m.kept[i].chances),
      Run(CandidateId(sha, m.child), task, runner, m.tried[i].chances),
      CommandDigest(sha, m.evaluator), m.evaluation, task.caseId, [m.kept[i].verdict, m.tried[i].verdict])
  }

  function TracesOf(sha: Sha, m: Made): (traces: seq<Trace>)
    requires |m.tasks| == |m.kept| == |m.tried|
    ensures |traces| == |m.tasks| && forall i :: 0 <= i < |traces| ==> traces[i] == TraceOf(sha, m, i)
  {
    seq(|m.tasks|, i requires 0 <= i < |m.tasks| => TraceOf(sha, m, i))
  }

  ghost function GenerationOf(sha: Sha, m: Made): Generation
    requires Makes(sha, m)
  {
    var incumbent := MeasuredReport(CandidateId(sha, m.parent), m.evaluation, m.kept);
    var challenger := MeasuredReport(CandidateId(sha, m.child), m.evaluation, m.tried);
    ReportsCompare(sha, m);
    var selection := SelectTaskReports(m.policy, incumbent, challenger).value;
    var next := if selection.selected == challenger.candidate then m.child else m.parent;
    Generation(Str(m.evaluation), RecordOf(sha, m.parent), RecordOf(sha, m.child), RecordOf(sha, next), incumbent,
      challenger, selection, TracesOf(sha, m), Str(m.proposal))
  }

  lemma MeasuredVerifies(candidate: Name, evaluation: Name, cases: seq<Assayed>)
    requires Assayable(candidate, evaluation, cases)
    ensures Verifies(MeasuredReport(candidate, evaluation, cases))
    ensures CaseIds(MeasuredReport(candidate, evaluation, cases)) == Ids(cases)
  {
    hide AssayableCase, WellFormedCase, PythonEqual, Summary, IsName, IsSha256;
    var report := MeasuredReport(candidate, evaluation, cases);
    PythonEqualSelf(report.summary);
    forall i | 0 <= i < |cases| ensures WellFormedCase(report.cases[i]) && report.cases[i].caseId == cases[i].caseId {
      MeasuredCaseWellFormed(candidate, cases[i]);
    }
  }

  lemma SameIds(kept: seq<Assayed>, tried: seq<Assayed>)
    requires |kept| == |tried| && forall i :: 0 <= i < |kept| ==> kept[i].caseId == tried[i].caseId
    ensures Ids(kept) == Ids(tried)
  {
  }

  lemma ReportsCompare(sha: Sha, m: Made)
    requires Makes(sha, m)
    ensures Comparable(m.policy, MeasuredReport(CandidateId(sha, m.parent), m.evaluation, m.kept),
      MeasuredReport(CandidateId(sha, m.child), m.evaluation, m.tried))
  {
    hide Verifies, CandidateId, Normal, WellFormedTask, CaseIds, Ids, Assayable, IsSha256;
    MeasuredVerifies(CandidateId(sha, m.parent), m.evaluation, m.kept);
    MeasuredVerifies(CandidateId(sha, m.child), m.evaluation, m.tried);
    MeasuredSays(CandidateId(sha, m.parent), m.evaluation, m.kept);
    MeasuredSays(CandidateId(sha, m.child), m.evaluation, m.tried);
    SameIds(m.kept, m.tried);
  }

  lemma MeasuredSays(candidate: Name, evaluation: Name, cases: seq<Assayed>)
    requires Assayable(candidate, evaluation, cases)
    ensures var report := MeasuredReport(candidate, evaluation, cases);
      report.candidate == candidate && report.evaluation == evaluation
  {
  }

  lemma RecordDecodes(sha: Sha, a: Artifact)
    requires HexOutput(sha) && Normal(a)
    ensures CandidateOf(sha, RecordOf(sha, a)) == Some(a)
    ensures CandidateRecord(sha, Document(a)) == Some(RecordOf(sha, a))
  {
    InOrder(a);
    DecodesUpToOrder(Document(a), a);
    RecordKeysDiffer();
    hide DecodeArtifact, UpToOrder, Document, Print, Normal, Key, Identified, IsSha256;
    assert IsSha256(CandidateId(sha, a));
  }

  /** Both cases of one task. */
  lemma MadeCase(sha: Sha, m: Made, i: nat)
    requires HexOutput(sha) && Makes(sha, m) && i < |m.tasks|
    ensures WellFormedTask(m.tasks[i]) && IsName(m.tasks[i].caseId) && IsName(m.evaluation)
    ensures AssayableCase(CandidateId(sha, m.parent), m.kept[i]) && AssayableCase(CandidateId(sha, m.child), m.tried[i])
  {
    hide Normal, CandidateId, IsName, IsSha256, AssayableCase;
  }

  lemma TraceIsWellFormed(sha: Sha, m: Made, i: nat)
    requires HexOutput(sha) && Makes(sha, m) && i < |m.tasks|
    ensures WellFormedTrace(TraceOf(sha, m, i))
  {
    MadeCase(sha, m, i);
    hide Normal, IsName, WellFormedTask, WellFormedForecast, IsSha256, Print, Identified, Assayable, Foresees,
      Encodable;
    assert IsSha256(CandidateId(sha, m.parent)) && IsSha256(CandidateId(sha, m.child));
    assert IsSha256(CommandDigest(sha, m.runner)) && IsSha256(CommandDigest(sha, m.evaluator));
  }

  lemma TwoVerdicts(a: Verdict, b: Verdict)
    requires a.candidate != b.candidate
    ensures VerdictFor([a, b], a.candidate) == Some(a) && VerdictFor([a, b], b.candidate) == Some(b)
  {
    assert [a, b][..1] == [a];
  }

  lemma TraceIsBound(sha: Sha, m: Made, i: nat)
    requires HexOutput(sha) && Makes(sha, m) && i < |m.tasks|
    ensures TraceBinds(sha, RequestOf(m), TraceOf(sha, m, i), m.tasks[i], CandidateId(sha, m.parent),
      CandidateId(sha, m.child))
    ensures VerdictFor(TraceOf(sha, m, i).results, CandidateId(sha, m.parent)) == Some(m.kept[i].verdict)
    ensures VerdictFor(TraceOf(sha, m, i).results, CandidateId(sha, m.child)) == Some(m.tried[i].verdict)
  {
    TraceIsWellFormed(sha, m, i);
    MadeCase(sha, m, i);
    PythonEqualSelf(m.tasks[i].input);
    hide Normal, IsName, WellFormedTask, WellFormedTrace, WellFormedForecast, WellFormedVerdict, Print, CandidateId,
      Assayable, Foresees, PythonEqual, VerdictFor, HexOutput;
    TwoVerdicts(m.kept[i].verdict, m.tried[i].verdict);
  }

  lemma MadeCandidates(sha: Sha, m: Made)
    requires HexOutput(sha) && Makes(sha, m)
    ensures var g := GenerationOf(sha, m);
      && CandidatesHold(sha, RequestOf(m), g)
      && ParentId(sha, g) == CandidateId(sha, m.parent) && ChildId(sha, g) == CandidateId(sha, m.child)
      && g.selection.selected == NextId(sha, g)
  {
    var g := GenerationOf(sha, m);
    RecordDecodes(sha, m.parent);
    RecordDecodes(sha, m.child);
    ReportsCompare(sha, m);
    MeasuredSays(CandidateId(sha, m.parent), m.evaluation, m.kept);
    MeasuredSays(CandidateId(sha, m.child), m.evaluation, m.tried);
    hide Document, Assayable, Comparable, CandidateId, CandidateOf, CandidateRecord, MeasuredReport, RecordOf,
      WellFormedTask, Normal, IsSha256, TracesOf;
  }

  lemma MadeRequest(sha: Sha, m: Made)
    requires Makes(sha, m)
    ensures RequestHolds(RequestOf(m))
  {
    hide WellFormedTask, Normal, CandidateId;
    assert Assayable(CandidateId(sha, m.parent), m.evaluation, m.kept);
  }

  lemma MadeReports(sha: Sha, m: Made)
    requires Makes(sha, m)
    ensures var g := GenerationOf(sha, m);
      && AssayedReport(g.incumbent, CandidateId(sha, m.parent), m.evaluation, m.kept, m.tasks)
      && AssayedReport(g.challenger, CandidateId(sha, m.child), m.evaluation, m.tried, m.tasks)
      && SelectTaskReports(m.policy, g.incumbent, g.challenger) == Some(g.selection)
  {
    hide WellFormedTask, Normal, CandidateId, Assayable, MeasuredReport, Comparable, RecordOf, TracesOf, IsSha256;
    ReportsCompare(sha, m);
  }

  lemma MadeTraces(sha: Sha, m: Made, i: nat)
    requires HexOutput(sha) && Makes(sha, m) && i < |m.tasks|
    ensures var t, parent, child := GenerationOf(sha, m).traces[i], CandidateId(sha, m.parent),
      CandidateId(sha, m.child);
      && TraceBinds(sha, RequestOf(m), t, m.tasks[i], parent, child)
      && VerdictFor(t.results, parent) == Some(m.kept[i].verdict) && t.incumbentRun.chances == m.kept[i].chances
      && VerdictFor(t.results, child) == Some(m.tried[i].verdict) && t.challengerRun.chances == m.tried[i].chances
  {
    hide TraceBinds, VerdictFor, Makes;
    TraceIsBound(sha, m, i);
  }

  lemma MadeFields(sha: Sha, m: Made)
    requires Makes(sha, m)
    ensures var g := GenerationOf(sha, m);
      |g.traces| == |m.tasks| && g.evaluation == Str(m.evaluation) && Sha256String(g.proposal)
    ensures |m.tasks| == |m.kept| == |m.tried|
  {
  }

  /** Whatever two different candidates, tasks, forecasts and verdicts it is made from. */
  lemma MadeGenerationAccepted(sha: Sha, m: Made)
    requires HexOutput(sha) && Makes(sha, m)
    ensures Accepts(sha, RequestOf(m), GenerationOf(sha, m))
  {
    hide Makes, HexOutput, Document, IsSha256, CandidateId, Sha256String, TraceBinds, VerdictFor, Accepts,
      GenerationOf, AssayedReport, CandidatesHold, RequestHolds, SelectTaskReports, ParentId, ChildId, NextId;
    var q, g := RequestOf(m), GenerationOf(sha, m);
    MadeCandidates(sha, m);
    MadeRequest(sha, m);
    MadeReports(sha, m);
    MadeFields(sha, m);
    forall i | 0 <= i < |m.tasks|
      ensures TraceBinds(sha, q, g.traces[i], m.tasks[i], ParentId(sha, g), ChildId(sha, g))
      ensures m.kept[i].chances == g.traces[i].incumbentRun.chances
      ensures m.tried[i].chances == g.traces[i].challengerRun.chances
      ensures VerdictFor(g.traces[i].results, ParentId(sha, g)) == Some(m.kept[i].verdict)
      ensures VerdictFor(g.traces[i].results, ChildId(sha, g)) == Some(m.tried[i].verdict)
    {
      MadeTraces(sha, m, i);
    }
    HonestGenerationAccepted(sha, q, g, m.kept, m.tried);
  }
}
