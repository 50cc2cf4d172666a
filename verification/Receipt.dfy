/** `contract.validate_agent_generation_receipt`: one generation replayed against its evaluator traces. */
module Receipt {
  import opened Text
  import opened Wire
  import opened WireRoundTrip
  import opened WireCanonical
  import opened Journal
  import opened JsonChecks
  import opened AgentProtocol
  import opened AgentCandidates
  import opened Reports

  datatype Run = Run(candidate: Name, task: Task, adapter: Name, chances: seq<Chance>)

  datatype Trace = Trace(task: Task, incumbentRun: Run, challengerRun: Run,
    evaluator: Name, evaluation: Name, caseId: Name, results: seq<Verdict>)

  datatype Request = Request(evaluation: Json, parentArtifact: Json, tasks: seq<Task>, runner: Json, evaluator: Json,
      policy: Policy)

  datatype Generation = Generation(evaluation: Json, parent: Json, child: Json, nextParent: Json,
    incumbent: Report, challenger: Report, selection: Selection, traces: seq<Trace>, proposal: Json)

  datatype Accepted = Accepted(parent: Artifact, child: Artifact, next: Artifact, parentEvidence: Evidence,
      childEvidence: Evidence)

  // ----- decoding

  /** The artifact of a decoded candidate record. */
  function CandidateOf(sha: Sha, v: Json): (a: Option<Artifact>)
    ensures a.Some? <==> DecodeCandidate(sha, v).Some?
    ensures a.Some? ==> DecodeCandidate(sha, v) == Some(RecordOf(sha, a.value))
  {
    if DecodeCandidate(sha, v).None? then None else DecodeArtifact(v.fields[ARTIFACT_KEY])
  }

  predicate WellFormedRun(r: Run) {
    IsSha256(r.candidate) && IsSha256(r.adapter) && WellFormedTask(r.task) && WellFormedForecast(r.chances)
  }

  /** `decode_task`, `decode_candidate_run` and `decode_observer_evaluation`: two results, of different candidates. */
  predicate WellFormedTrace(t: Trace) {
    && WellFormedTask(t.task) && WellFormedRun(t.incumbentRun) && WellFormedRun(t.challengerRun)
    && IsSha256(t.evaluator) && IsName(t.evaluation) && IsName(t.caseId)
    && |t.results| == 2 && WellFormedVerdict(t.results[0]) && WellFormedVerdict(t.results[1])
    && t.results[0].candidate != t.results[1].candidate
  }

  function AdapterId(sha: Sha, command: Json): Name {
    Digest(sha, map[Key("command") := command])
  }

  // ----- one report case against its trace

  function CaseDocument(caseId: Name, evidence: Json, outcome: Name, passed: bool, safe: bool): Json {
    Obj(map[Key("case_id") := Str(caseId), Key("evidence") := evidence, Key("outcome") := Str(outcome),
      Key("passed") := Bool(passed), Key("safety_passed") := Bool(safe)])
  }

  /** The verdict of one candidate in a trace. */
  function VerdictFor(results: seq<Verdict>, candidate: Name): Option<Verdict> {
    if results == [] then None
    else if results[|results| - 1].candidate == candidate then Some(results[|results| - 1])
    else VerdictFor(results[..|results| - 1], candidate)
  }

  function Matching(chances: seq<Chance>, outcome: Name): seq<Chance> {
    if chances == [] then []
    else if chances[0].outcome == outcome then [chances[0]] + Matching(chances[1..], outcome)
    else Matching(chances[1..], outcome)
  }

  /** The report case is the evaluator's verdict, and its probability is what the run forecast for that outcome. */
  ghost predicate CaseAgrees(c: ReportCase, run: Run, task: Task, verdict: Verdict) {
    && c.caseId == task.caseId
    && c.evidence == verdict.evidence && c.outcome == verdict.outcome
    && c.passed == verdict.passed && c.safe == verdict.safe
    && Forecast(run.chances, verdict.outcome, c.probability)
  }

  /** What the code compares: two canonical texts, and the one matching forecast outcome. */
  predicate CaseMatches(c: ReportCase, run: Run, task: Task, verdict: Verdict) {
    var matching := Matching(run.chances, verdict.outcome);
    && Print(CaseDocument(c.caseId, c.evidence, c.outcome, c.passed, c.safe))
       == Print(CaseDocument(task.caseId, verdict.evidence, verdict.outcome, verdict.passed, verdict.safe))
    && |matching| == 1 && matching[0].probability == c.probability
  }

  lemma CaseKeysDiffer()
    ensures Key("case_id") !in {Key("evidence"), Key("outcome"), Key("passed"), Key("safety_passed")}
    ensures Key("evidence") !in {Key("outcome"), Key("passed"), Key("safety_passed")}
    ensures Key("outcome") !in {Key("passed"), Key("safety_passed")}
    ensures Key("passed") != Key("safety_passed")
  {
    assert |Key("case_id")| == 7 && |Key("evidence")| == 8 && |Key("outcome")| == 7 && |Key("passed")| == 6
      && |Key("safety_passed")| == 13;
    assert Key("case_id")[0] == 'c' as int && Key("outcome")[0] == 'o' as int;
  }

  lemma {:induction false} EncodableClean(v: Json)
    requires Encodable(v)
    ensures Clean(v)
  {
    match v
    case Str(s) => EncodableIsClean(s);
    case Arr(items) =>
      forall i | 0 <= i < |items| ensures Clean(items[i]) { EncodableClean(items[i]); }
    case Obj(fields) =>
      forall k | k in fields ensures CleanString(k) && Clean(fields[k]) {
        EncodableIsClean(k);
        EncodableClean(fields[k]);
      }
    case _ =>
  }

  lemma CaseClean(caseId: Name, evidence: Json, outcome: Name, passed: bool, safe: bool)
    requires IsName(caseId) && Encodable(evidence) && IsName(outcome)
    ensures Clean(CaseDocument(caseId, evidence, outcome, passed, safe))
  {
    EncodableIsClean(caseId);
    EncodableIsClean(outcome);
    EncodableClean(evidence);
    KeyIsClean("case_id");
    KeyIsClean("evidence");
    KeyIsClean("outcome");
    KeyIsClean("passed");
    KeyIsClean("safety_passed");
    hide Key, CleanString, Encodable, EncodableString;
    ObjectClean(CaseDocument(caseId, evidence, outcome, passed, safe).fields);
  }

  lemma CaseDocumentInjective(a: ReportCase, task: Task, v: Verdict)
    requires CaseDocument(a.caseId, a.evidence, a.outcome, a.passed, a.safe)
      == CaseDocument(task.caseId, v.evidence, v.outcome, v.passed, v.safe)
    ensures a.caseId == task.caseId && a.evidence == v.evidence && a.outcome == v.outcome && a.passed == v.passed
      && a.safe == v.safe
  {
    CaseKeysDiffer();
    hide Key;
    var f := CaseDocument(a.caseId, a.evidence, a.outcome, a.passed, a.safe).fields;
    var g := CaseDocument(task.caseId, v.evidence, v.outcome, v.passed, v.safe).fields;
    assert f[Key("case_id")] == g[Key("case_id")] && f[Key("evidence")] == g[Key("evidence")]
      && f[Key("outcome")] == g[Key("outcome")];
    assert f[Key("passed")] == g[Key("passed")] && f[Key("safety_passed")] == g[Key("safety_passed")];
  }

  lemma {:induction false} MatchingMeans(chances: seq<Chance>, outcome: Name)
    requires forall i, j :: 0 <= i < j < |chances| ==> chances[i].outcome != chances[j].outcome
    ensures |Matching(chances, outcome)| <= 1
    ensures forall c :: c in Matching(chances, outcome) <==> c in chances && c.outcome == outcome
  {
    if chances != [] {
      MatchingMeans(chances[1..], outcome);
      assert chances == [chances[0]] + chances[1..];
      var rest := Matching(chances[1..], outcome);
      assert forall c :: c in chances[1..] ==> c.outcome != chances[0].outcome;
      assert rest != [] ==> rest[0] in chances[1..] && rest[0].outcome == outcome;
    }
  }

  lemma TextsAgree(c: ReportCase, task: Task, verdict: Verdict)
    requires WellFormedCase(c) && WellFormedTask(task) && WellFormedVerdict(verdict)
    ensures (Print(CaseDocument(c.caseId, c.evidence, c.outcome, c.passed, c.safe))
             == Print(CaseDocument(task.caseId, verdict.evidence, verdict.outcome, verdict.passed, verdict.safe)))
      <==>
      && c.caseId == task.caseId && c.evidence == verdict.evidence && c.outcome == verdict.outcome
      && c.passed == verdict.passed && c.safe == verdict.safe
  {
    hide Print, CaseDocument, Clean, Encodable, IsName, IsSha256;
    CaseClean(c.caseId, c.evidence, c.outcome, c.passed, c.safe);
    CaseClean(task.caseId, verdict.evidence, verdict.outcome, verdict.passed, verdict.safe);
    var a := CaseDocument(c.caseId, c.evidence, c.outcome, c.passed, c.safe);
    var b := CaseDocument(task.caseId, verdict.evidence, verdict.outcome, verdict.passed, verdict.safe);
    if Print(a) == Print(b) {
      PrintInjective(a, b);
      CaseDocumentInjective(c, task, verdict);
    }
  }

  /** What the run forecast for the outcome: exactly one entry, with this probability. */
  ghost predicate Forecast(chances: seq<Chance>, outcome: Name, p: real) {
    && (exists c :: c in chances && c.outcome == outcome)
    && forall c :: c in chances && c.outcome == outcome ==> c.probability == p
  }

  lemma MatchingForecast(chances: seq<Chance>, outcome: Name, p: real)
    requires WellFormedForecast(chances)
    ensures var matching := Matching(chances, outcome);
      |matching| == 1 && matching[0].probability == p <==> Forecast(chances, outcome, p)
  {
    MatchingMeans(chances, outcome);
    hide Matching, IsName;
    var matching := Matching(chances, outcome);
    if |matching| == 1 {
      assert matching[0] in matching;
      forall c | c in chances && c.outcome == outcome ensures c == matching[0] {
        assert c in matching;
      }
    }
    if Forecast(chances, outcome, p) {
      var c :| c in chances && c.outcome == outcome;
      assert c in matching;
      assert matching == [c];
    }
  }

  /** Comparing texts and filtering the forecast decides exactly the agreement. */
  lemma MatchesIffAgrees(c: ReportCase, run: Run, task: Task, verdict: Verdict)
    requires WellFormedCase(c) && WellFormedRun(run) && WellFormedTask(task) && WellFormedVerdict(verdict)
    ensures CaseMatches(c, run, task, verdict) <==> CaseAgrees(c, run, task, verdict)
  {
    hide Print, CaseDocument, Matching, WellFormedCase, WellFormedTask, WellFormedVerdict, WellFormedForecast, Forecast;
    TextsAgree(c, task, verdict);
    MatchingForecast(run.chances, verdict.outcome, c.probability);
  }

  // ----- the traces

  /** Python's `==` on two decoded tasks. */
  predicate SameTask(a: Task, b: Task) {
    a.caseId == b.caseId && PythonEqual(a.input, b.input)
  }

  /** Who ran what: everything in a trace except the results. */
  predicate TraceBinds(sha: Sha, q: Request, t: Trace, task: Task, parent: Name, child: Name) {
    && WellFormedTrace(t)
    && SameTask(t.task, task)
    && t.incumbentRun.candidate == parent && t.challengerRun.candidate == child
    && SameTask(t.incumbentRun.task, task) && SameTask(t.challengerRun.task, task)
    && t.incumbentRun.adapter == AdapterId(sha, q.runner) && t.challengerRun.adapter == AdapterId(sha, q.runner)
    && t.evaluator == AdapterId(sha, q.evaluator)
    && Str(t.evaluation) == q.evaluation
    && t.caseId == task.caseId
    && {t.results[0].candidate, t.results[1].candidate} == {parent, child}
  }

  lemma VerdictOfTwo(results: seq<Verdict>, id: Name)
    requires |results| == 2 && id in {results[0].candidate, results[1].candidate}
    ensures var v := VerdictFor(results, id);
      v.Some? && v.value.candidate == id && v.value in results
  {
    assert results[..1] == [results[0]];
  }

  lemma BindsVerdicts(sha: Sha, q: Request, t: Trace, task: Task, parent: Name, child: Name)
    requires TraceBinds(sha, q, t, task, parent, child)
    ensures var v := VerdictFor(t.results, parent); v.Some? && WellFormedVerdict(v.value) && v.value.candidate == parent
    ensures var v := VerdictFor(t.results, child); v.Some? && WellFormedVerdict(v.value) && v.value.candidate == child
  {
    hide WellFormedVerdict, WellFormedRun, WellFormedTask, SameTask, AdapterId, VerdictFor, IsSha256, IsName;
    assert parent in {t.results[0].candidate, t.results[1].candidate};
    assert child in {t.results[0].candidate, t.results[1].candidate};
    VerdictOfTwo(t.results, parent);
    VerdictOfTwo(t.results, child);
  }

  ghost predicate TraceAgrees(sha: Sha, q: Request, t: Trace, task: Task, parent: Name, child: Name,
      incumbent: ReportCase, challenger: ReportCase) {
    && TraceBinds(sha, q, t, task, parent, child)
    && VerdictFor(t.results, parent).Some?
    && CaseAgrees(incumbent, t.incumbentRun, task, VerdictFor(t.results, parent).value)
    && VerdictFor(t.results, child).Some?
    && CaseAgrees(challenger, t.challengerRun, task, VerdictFor(t.results, child).value)
  }

  method TraceMatches(sha: Sha, q: Request, t: Trace, task: Task, parent: Name, child: Name, incumbent: ReportCase,
      challenger: ReportCase)
    returns (ok: bool)
    requires WellFormedTask(task) && WellFormedCase(incumbent) && WellFormedCase(challenger)
    ensures ok <==> TraceAgrees(sha, q, t, task, parent, child, incumbent, challenger)
  {
    hide WellFormedTask, WellFormedCase, WellFormedVerdict, WellFormedForecast, CaseMatches, CaseAgrees, SameTask,
      AdapterId, VerdictFor, IsSha256, IsName;
    if !TraceBinds(sha, q, t, task, parent, child) {
      return false;
    }
    BindsVerdicts(sha, q, t, task, parent, child);
    var kept, tried := VerdictFor(t.results, parent).value, VerdictFor(t.results, child).value;
    MatchesIffAgrees(incumbent, t.incumbentRun, task, kept);
    MatchesIffAgrees(challenger, t.challengerRun, task, tried);
    return CaseMatches(incumbent, t.incumbentRun, task, kept) && CaseMatches(challenger, t.challengerRun, task, tried);
  }

  // ----- the whole receipt

  /** Identities: the requested parent, a different child, and one of the two as next parent. */
  predicate CandidatesHold(sha: Sha, q: Request, g: Generation) {
    var parent, child, next := CandidateOf(sha, g.parent), CandidateOf(sha, g.child), CandidateOf(sha, g.nextParent);
    && parent.Some? && child.Some? && next.Some?
    && CandidateRecord(sha, q.parentArtifact) == Some(RecordOf(sha, parent.value))
    && CandidateId(sha, child.value) != CandidateId(sha, parent.value)
    && CandidateId(sha, next.value) in {CandidateId(sha, parent.value), CandidateId(sha, child.value)}
  }

  function ParentId(sha: Sha, g: Generation): Name {
    var a := CandidateOf(sha, g.parent);
    if a.None? then [] else CandidateId(sha, a.value)
  }

  function ChildId(sha: Sha, g: Generation): Name {
    var a := CandidateOf(sha, g.child);
    if a.None? then [] else CandidateId(sha, a.value)
  }

  function NextId(sha: Sha, g: Generation): Name {
    var a := CandidateOf(sha, g.nextParent);
    if a.None? then [] else CandidateId(sha, a.value)
  }

  predicate RequestHolds(q: Request) {
    && q.tasks != [] && q.runner.Arr? && q.evaluator.Arr?
    && (forall i :: 0 <= i < |q.tasks| ==> WellFormedTask(q.tasks[i]))
    && q.evaluation.Str? && q.evaluation.s != []
  }

  ghost predicate TracesAgree(sha: Sha, q: Request, g: Generation, count: nat) {
    && |g.traces| == |q.tasks| == |g.incumbent.cases| == |g.challenger.cases| && count <= |q.tasks|
    && forall i :: 0 <= i < count ==>
         TraceAgrees(sha, q, g.traces[i], q.tasks[i], ParentId(sha, g), ChildId(sha, g), g.incumbent.cases[i],
           g.challenger.cases[i])
  }

  /** What an accepted receipt is. */
  ghost predicate Accepts(sha: Sha, q: Request, g: Generation) {
    && PythonEqual(g.evaluation, q.evaluation)
    && CandidatesHold(sha, q, g)
    && RequestHolds(q)
    && SelectTaskReports(q.policy, g.incumbent, g.challenger) == Some(g.selection)
    && g.selection.selected == NextId(sha, g)
    && ReportHolds(g.incumbent, ParentId(sha, g), q.tasks, q.evaluation.s)
    && ReportHolds(g.challenger, ChildId(sha, g), q.tasks, q.evaluation.s)
    && TracesAgree(sha, q, g, |q.tasks|)
    && Sha256String(g.proposal)
  }

  /** `validate_agent_generation_receipt` */
  method ValidateReceipt(sha: Sha, q: Request, g: Generation) returns (r: Option<Accepted>)
    ensures r.Some? <==> Accepts(sha, q, g)
    ensures r.Some? ==>
      && DecodeCandidate(sha, g.parent) == Some(RecordOf(sha, r.value.parent))
      && DecodeCandidate(sha, g.child) == Some(RecordOf(sha, r.value.child))
      && DecodeCandidate(sha, g.nextParent) == Some(RecordOf(sha, r.value.next))
      && r.value.parentEvidence == Evidence(g.incumbent.cases, Passed(g.incumbent.cases), Unsafe(g.incumbent.cases))
      && r.value.childEvidence == Evidence(g.challenger.cases, Passed(g.challenger.cases), Unsafe(g.challenger.cases))
  {
    hide PythonEqual, SelectTaskReports, Comparable, ReportHolds, WellFormedTask, WellFormedCase, CandidatesHold,
      DecodeCandidate,
      CandidateRecord,
      CandidateId, RecordOf, CandidateOf, TraceAgrees, IsSha256, Passed, Unsafe;
    if !PythonEqual(g.evaluation, q.evaluation) || !CandidatesHold(sha, q, g) || !RequestHolds(q) {
      return None;
    }
    Identities(sha, q, g);
    if SelectTaskReports(q.policy, g.incumbent, g.challenger) != Some(g.selection)
      || g.selection.selected != NextId(sha, g) {
      return None;
    }
    var parentEvidence := ValidatedReportCases(g.incumbent, ParentId(sha, g), q.tasks, q.evaluation.s);
    if parentEvidence.None? {
      return None;
    }
    var childEvidence := ValidatedReportCases(g.challenger, ChildId(sha, g), q.tasks, q.evaluation.s);
    if childEvidence.None? || |g.traces| != |q.tasks| {
      return None;
    }
    ReportCases(g.incumbent, ParentId(sha, g), q.tasks, q.evaluation.s);
    ReportCases(g.challenger, ChildId(sha, g), q.tasks, q.evaluation.s);
    for i := 0 to |q.tasks|
      invariant TracesAgree(sha, q, g, i)
    {
      var ok := TraceMatches(sha, q, g.traces[i], q.tasks[i], ParentId(sha, g), ChildId(sha, g), g.incumbent.cases[i],
        g.challenger.cases[i]);
      if !ok {
        return None;
      }
    }
    if !Sha256String(g.proposal) {
      return None;
    }
    return Some(Accepted(CandidateOf(sha, g.parent).value, CandidateOf(sha, g.child).value,
      CandidateOf(sha, g.nextParent).value,
      parentEvidence.value, childEvidence.value));
  }

  lemma Identities(sha: Sha, q: Request, g: Generation)
    requires CandidatesHold(sha, q, g)
    ensures CandidateOf(sha, g.parent).Some? && CandidateOf(sha, g.child).Some? && CandidateOf(sha, g.nextParent).Some?
    ensures ParentId(sha, g) != ChildId(sha, g) && NextId(sha, g) in {ParentId(sha, g), ChildId(sha, g)}
  {
    hide CandidateOf, CandidateId, CandidateRecord, RecordOf;
  }

  lemma ReportCases(report: Report, candidate: Name, tasks: seq<Task>, evaluation: Name)
    requires ReportHolds(report, candidate, tasks, evaluation)
    ensures |report.cases| == |tasks| && forall i :: 0 <= i < |tasks| ==> WellFormedCase(report.cases[i])
  {
  }
}
