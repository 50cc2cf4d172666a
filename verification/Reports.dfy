/** Assay reports: how `agent_assay.py` makes them, how `contract.py` rereads them, and how the selection gate
    compares them.

    Values are decoded documents; each `WellFormed` predicate says what the decoders demand of one. Surprisal
    figures are an outside verdict (`measured`), since they are floating point. */
module Reports {
  import opened Text
  import opened Wire
  import opened Journal
  import opened JsonChecks

  type Name = seq<Code>

  datatype Task = Task(caseId: Name, input: Json)
  datatype Verdict = Verdict(candidate: Name, evidence: Json, outcome: Name, passed: bool, safe: bool)
  datatype Chance = Chance(outcome: Name, probability: real)
  datatype ReportCase = ReportCase(caseId: Name, evidence: Json, outcome: Name, passed: bool, safe: bool,
      probability: real)
  datatype Report = Report(candidate: Name, evaluation: Name, cases: seq<ReportCase>, summary: Json, measured: bool)

  predicate IsName(s: Name) {
    NonEmptyString(Str(s))
  }

  predicate IsProbability(p: real) {
    0.0 <= p <= 1.0
  }

  predicate WellFormedTask(t: Task) {
    IsName(t.caseId) && Encodable(t.input)
  }

  predicate WellFormedVerdict(v: Verdict) {
    IsSha256(v.candidate) && Encodable(v.evidence) && IsName(v.outcome)
  }

  predicate WellFormedCase(c: ReportCase) {
    IsName(c.caseId) && Encodable(c.evidence) && IsName(c.outcome) && IsProbability(c.probability)
  }

  /** `decode_forecast_outcomes`: named outcomes, none twice, each with a probability. */
  predicate WellFormedForecast(chances: seq<Chance>) {
    && chances != []
    && (forall i :: 0 <= i < |chances| ==> IsName(chances[i].outcome) && IsProbability(chances[i].probability))
    && forall i, j :: 0 <= i < j < |chances| ==> chances[i].outcome != chances[j].outcome
  }

  // ----- counting

  function Passed(cases: seq<ReportCase>): nat {
    if cases == [] then 0 else Passed(cases[..|cases| - 1]) + if cases[|cases| - 1].passed then 1 else 0
  }

  function Unsafe(cases: seq<ReportCase>): nat {
    if cases == [] then 0 else Unsafe(cases[..|cases| - 1]) + if cases[|cases| - 1].safe then 0 else 1
  }

  function Summary(count: nat, passed: nat, unsafe: nat): Json {
    Obj(map[Key("case_count") := Int(count), Key("passed_count") := Int(passed), Key("safety_failures") := Int(unsafe)])
  }

  /** How many cases are like this. */
  function Tally(cases: seq<ReportCase>, like: ReportCase -> bool): nat {
    |set i: nat | i < |cases| && like(cases[i])|
  }

  lemma {:induction false} CountsAreTallies(cases: seq<ReportCase>)
    ensures Passed(cases) == Tally(cases, (c: ReportCase) => c.passed)
    ensures Unsafe(cases) == Tally(cases, (c: ReportCase) => !c.safe)
  {
    if cases != [] {
      CountsAreTallies(cases[..|cases| - 1]);
      TallyStep(cases, (c: ReportCase) => c.passed);
      TallyStep(cases, (c: ReportCase) => !c.safe);
    }
  }

  lemma TallyStep(cases: seq<ReportCase>, like: ReportCase -> bool)
    requires cases != []
    ensures Tally(cases, like) == Tally(cases[..|cases| - 1], like) + if like(cases[|cases| - 1]) then 1 else 0
  {
    var n := |cases| - 1;
    var all, before := set i: nat | i < |cases| && like(cases[i]), set i: nat | i < n && like(cases[..n][i]);
    assert forall i: nat :: i < n ==> cases[..n][i] == cases[i];
    assert before == set i: nat | i < n && like(cases[i]);
    if like(cases[n]) {
      assert all == before + {n};
    } else {
      assert all == before;
    }
  }

  /** The three counts of a summary, each under its own name. */
  lemma SummaryCounts(count: nat, passed: nat, unsafe: nat)
    ensures var s := Summary(count, passed, unsafe);
      && s.Obj? && s.fields.Keys == {Key("case_count"), Key("passed_count"), Key("safety_failures")}
      && Get(s.fields, Key("case_count")) == Int(count)
      && Get(s.fields, Key("passed_count")) == Int(passed)
      && Get(s.fields, Key("safety_failures")) == Int(unsafe)
  {
    assert |Key("case_count")| == 10 && |Key("passed_count")| == 12 && |Key("safety_failures")| == 15;
  }

  // ----- rereading a report

  /** The report is about this candidate, follows the tasks case by case, and counts its own cases. */
  predicate ReportHolds(report: Report, candidate: Name, tasks: seq<Task>, evaluation: Name) {
    && report.candidate == candidate
    && report.evaluation == evaluation
    && |report.cases| == |tasks|
    && (forall i :: 0 <= i < |tasks| ==> WellFormedCase(report.cases[i]) && report.cases[i].caseId == tasks[i].caseId)
    && PythonEqual(report.summary, Summary(|tasks|, Passed(report.cases), Unsafe(report.cases)))
  }

  /** The summary of an accepted report counts its passing and its unsafe cases. */
  lemma HeldReportCounts(report: Report, candidate: Name, tasks: seq<Task>, evaluation: Name)
    requires ReportHolds(report, candidate, tasks, evaluation)
    ensures report.summary.Obj?
    ensures PythonEqual(Get(report.summary.fields, Key("case_count")), Int(|report.cases|))
    ensures PythonEqual(Get(report.summary.fields, Key("passed_count")),
      Int(Tally(report.cases, (c: ReportCase) => c.passed)))
    ensures PythonEqual(Get(report.summary.fields, Key("safety_failures")),
      Int(Tally(report.cases, (c: ReportCase) => !c.safe)))
  {
    hide WellFormedCase, Tally, Summary;
    CountsAreTallies(report.cases);
    SummaryCounts(|tasks|, Passed(report.cases), Unsafe(report.cases));
    var summary := Summary(|tasks|, Passed(report.cases), Unsafe(report.cases));
    assert forall k :: k in summary.fields ==> k in report.summary.fields;
    assert Key("case_count") in summary.fields && Key("passed_count") in summary.fields
      && Key("safety_failures") in summary.fields;
  }

  datatype Evidence = Evidence(cases: seq<ReportCase>, passed: nat, unsafe: nat)

  /** `_validated_report_cases` */
  method ValidatedReportCases(report: Report, candidate: Name, tasks: seq<Task>, evaluation: Name)
    returns (r: Option<Evidence>)
    ensures r.Some? <==> ReportHolds(report, candidate, tasks, evaluation)
    ensures r.Some? ==> r.value == Evidence(report.cases, Passed(report.cases), Unsafe(report.cases))
  {
    hide WellFormedCase, PythonEqual, Summary;
    if report.candidate != candidate || report.evaluation != evaluation || |report.cases| != |tasks| {
      return None;
    }
    var passed: nat, unsafe: nat := 0, 0;
    var normalized: seq<ReportCase>, ordered := [], true;
    for i := 0 to |report.cases|
      invariant passed == Passed(report.cases[..i]) && unsafe == Unsafe(report.cases[..i])
      invariant normalized == report.cases[..i]
      invariant forall k :: 0 <= k < i ==> WellFormedCase(report.cases[k])
      invariant ordered <==> forall k :: 0 <= k < i ==> report.cases[k].caseId == tasks[k].caseId
    {
      var c := report.cases[i];
      if !WellFormedCase(c) {
        return None;
      }
      assert report.cases[..i + 1][..i] == report.cases[..i];
      ordered := ordered && c.caseId == tasks[i].caseId;
      passed := passed + if c.passed then 1 else 0;
      unsafe := unsafe + if c.safe then 0 else 1;
      normalized := normalized + [c];
    }
    assert report.cases[..|report.cases|] == report.cases;
    if !ordered || !PythonEqual(report.summary, Summary(|tasks|, passed, unsafe)) {
      return None;
    }
    return Some(Evidence(normalized, passed, unsafe));
  }

  // ----- making a report

  /** One case of an assay request: the forecast, whether its entropy figure agrees, and the evaluator's verdict. */
  datatype Assayed = Assayed(caseId: Name, chances: seq<Chance>, entropyAgrees: bool, verdict: Verdict)

  predicate Foresees(chances: seq<Chance>, outcome: Name) {
    exists k :: 0 <= k < |chances| && chances[k].outcome == outcome
  }

  /** `probabilities[outcome]` */
  function Probability(chances: seq<Chance>, outcome: Name): (p: real)
    requires Foresees(chances, outcome)
    ensures exists k :: 0 <= k < |chances| && chances[k].outcome == outcome && chances[k].probability == p
  {
    if chances[0].outcome == outcome then chances[0].probability else
      assert Foresees(chances[1..], outcome) by {
        var k :| 0 <= k < |chances| && chances[k].outcome == outcome;
        assert chances[1..][k - 1].outcome == outcome;
      }
      Probability(chances[1..], outcome)
  }

  predicate AssayableCase(candidate: Name, a: Assayed) {
    && IsName(a.caseId) && WellFormedForecast(a.chances) && a.entropyAgrees
    && WellFormedVerdict(a.verdict) && a.verdict.candidate == candidate
    && Foresees(a.chances, a.verdict.outcome)
  }

  predicate AssayableCases(candidate: Name, cases: seq<Assayed>) {
    && (forall i :: 0 <= i < |cases| ==> AssayableCase(candidate, cases[i]))
    && forall i, j :: 0 <= i < j < |cases| ==> cases[i].caseId != cases[j].caseId
  }

  predicate Assayable(candidate: Name, evaluation: Name, cases: seq<Assayed>) {
    IsSha256(candidate) && IsName(evaluation) && cases != [] && AssayableCases(candidate, cases)
  }

  /** A case that can be measured: a named case whose forecast gives distinct named outcomes a probability each, the
      observed one among them, with the entropy figure it should have, judged for this candidate. */
  ghost predicate Measurable(candidate: Name, a: Assayed) {
    && IsName(a.caseId) && |a.chances| > 0 && a.entropyAgrees
    && (forall c :: c in a.chances ==> IsName(c.outcome) && 0.0 <= c.probability && c.probability <= 1.0)
    && (forall i, j :: 0 <= i < |a.chances| && 0 <= j < |a.chances| ==>
          a.chances[i].outcome == a.chances[j].outcome ==> i == j)
    && (exists c :: c in a.chances && c.outcome == a.verdict.outcome)
    && a.verdict.candidate == candidate && IsSha256(candidate)
    && IsName(a.verdict.outcome) && Encodable(a.verdict.evidence)
  }

  lemma MeasurableIff(candidate: Name, a: Assayed)
    ensures AssayableCase(candidate, a) <==> Measurable(candidate, a)
  {
    hide IsSha256, IsName, Encodable;
    assert forall i :: 0 <= i < |a.chances| ==> a.chances[i] in a.chances;
  }

  /** A request is measured exactly when every case can be, there are some, and no two share a name. */
  lemma AssayableIff(candidate: Name, evaluation: Name, cases: seq<Assayed>)
    ensures Assayable(candidate, evaluation, cases) <==>
      && IsSha256(candidate) && IsName(evaluation) && |cases| > 0
      && (forall a :: a in cases ==> Measurable(candidate, a))
      && (forall i, j :: 0 <= i < |cases| && 0 <= j < |cases| ==> cases[i].caseId == cases[j].caseId ==> i == j)
  {
    hide IsSha256, IsName, AssayableCase, Measurable;
    forall a ensures AssayableCase(candidate, a) <==> Measurable(candidate, a) {
      MeasurableIff(candidate, a);
    }
    assert forall i :: 0 <= i < |cases| ==> cases[i] in cases;
  }

  function MeasuredCase(candidate: Name, a: Assayed): ReportCase
    requires AssayableCase(candidate, a)
  {
    ReportCase(a.caseId, a.verdict.evidence, a.verdict.outcome, a.verdict.passed, a.verdict.safe,
      Probability(a.chances, a.verdict.outcome))
  }

  function MeasuredCases(candidate: Name, cases: seq<Assayed>): (r: seq<ReportCase>)
    requires AssayableCases(candidate, cases)
    ensures |r| == |cases| && forall i :: 0 <= i < |cases| ==> r[i] == MeasuredCase(candidate, cases[i])
  {
    seq(|cases|, i requires 0 <= i < |cases| => MeasuredCase(candidate, cases[i]))
  }

  function MeasuredReport(candidate: Name, evaluation: Name, cases: seq<Assayed>): Report
    requires Assayable(candidate, evaluation, cases)
  {
    var rows := MeasuredCases(candidate, cases);
    Report(candidate, evaluation, rows, Summary(|rows|, Passed(rows), Unsafe(rows)), true)
  }

  function Ids(cases: seq<Assayed>): set<Name> {
    set i | 0 <= i < |cases| :: cases[i].caseId
  }

  lemma OneMoreCase(candidate: Name, before: seq<Assayed>, a: Assayed)
    requires AssayableCases(candidate, before) && AssayableCase(candidate, a) && a.caseId !in Ids(before)
    ensures AssayableCases(candidate, before + [a])
    ensures Ids(before + [a]) == Ids(before) + {a.caseId}
    ensures MeasuredCases(candidate, before + [a]) == MeasuredCases(candidate, before) + [MeasuredCase(candidate, a)]
  {
    hide AssayableCase;
    var more := before + [a];
    assert more[|before|] == a;
    forall i | 0 <= i < |before| ensures more[i].caseId in Ids(before) && more[i] == before[i] {
    }
  }

  lemma StuckCase(candidate: Name, cases: seq<Assayed>, i: nat)
    requires i < |cases| && (cases[i].caseId in Ids(cases[..i]) || !AssayableCase(candidate, cases[i]))
    ensures !AssayableCases(candidate, cases)
  {
    hide AssayableCase;
  }

  /** `measure_agent_task_candidate` */
  method Measure(candidate: Name, evaluation: Name, cases: seq<Assayed>) returns (r: Option<Report>)
    ensures r.Some? <==> Assayable(candidate, evaluation, cases)
    ensures r.Some? ==> r.value == MeasuredReport(candidate, evaluation, cases)
  {
    hide AssayableCase, AssayableCases, IsName, IsSha256, Summary, Ids, MeasuredCase;
    if !IsSha256(candidate) || !IsName(evaluation) || cases == [] {
      return None;
    }
    var rows: seq<ReportCase>, seen: set<Name> := [], {};
    var passed: nat, unsafe: nat := 0, 0;
    NoCases(candidate);
    for i := 0 to |cases|
      invariant AssayableCases(candidate, cases[..i])
      invariant rows == MeasuredCases(candidate, cases[..i])
      invariant passed == Passed(rows) && unsafe == Unsafe(rows)
      invariant seen == Ids(cases[..i])
    {
      var a := cases[i];
      if a.caseId in seen || !AssayableCase(candidate, a) {
        StuckCase(candidate, cases, i);
        return None;
      }
      OneMoreCase(candidate, cases[..i], a);
      assert cases[..i + 1] == cases[..i] + [a];
      var row := MeasuredCase(candidate, a);
      assert (rows + [row])[..|rows|] == rows;
      rows := rows + [row];
      seen := seen + {a.caseId};
      passed := passed + if row.passed then 1 else 0;
      unsafe := unsafe + if row.safe then 0 else 1;
    }
    assert cases[..|cases|] == cases;
    return Some(Report(candidate, evaluation, rows, Summary(|rows|, passed, unsafe), true));
  }

  lemma NoCases(candidate: Name)
    ensures AssayableCases(candidate, []) && MeasuredCases(candidate, []) == [] && Ids([]) == {}
  {
  }

  lemma MeasuredCaseWellFormed(candidate: Name, a: Assayed)
    requires AssayableCase(candidate, a)
    ensures WellFormedCase(MeasuredCase(candidate, a))
  {
    hide IsName, Encodable, IsSha256;
  }

  /** Every report the assay makes from cases in task order is accepted when reread. */
  lemma MeasuredReportsHold(candidate: Name, evaluation: Name, cases: seq<Assayed>, tasks: seq<Task>)
    requires Assayable(candidate, evaluation, cases)
    requires |tasks| == |cases| && forall i :: 0 <= i < |tasks| ==> tasks[i].caseId == cases[i].caseId
    ensures ReportHolds(MeasuredReport(candidate, evaluation, cases), candidate, tasks, evaluation)
  {
    hide AssayableCase, WellFormedCase, PythonEqual, Summary, Foresees;
    var report := MeasuredReport(candidate, evaluation, cases);
    PythonEqualSelf(report.summary);
    forall i | 0 <= i < |tasks| ensures WellFormedCase(report.cases[i]) && report.cases[i].caseId == tasks[i].caseId {
      MeasuredCaseWellFormed(candidate, cases[i]);
    }
  }

  // ----- the selection gate

  datatype Policy = Policy(minimum: int, rejectSafety: bool)

  datatype Reason = SafetyRegression | ImprovementMet | ImprovementNotMet

  datatype Selection = Selection(incumbent: Name, challenger: Name, evaluation: Name, policy: Policy,
    incumbentPassed: nat, challengerPassed: nat, incumbentUnsafe: nat, challengerUnsafe: nat, reason: Reason,
      selected: Name)

  function CaseIds(report: Report): set<Name> {
    set i | 0 <= i < |report.cases| :: report.cases[i].caseId
  }

  /** `_verify_task_report` accepts. */
  predicate Verifies(report: Report) {
    && IsSha256(report.candidate) && IsName(report.evaluation) && report.cases != [] && report.measured
    && (forall i :: 0 <= i < |report.cases| ==> WellFormedCase(report.cases[i]))
    && (forall i, j :: 0 <= i < j < |report.cases| ==> report.cases[i].caseId != report.cases[j].caseId)
    && PythonEqual(report.summary, Summary(|report.cases|, Passed(report.cases), Unsafe(report.cases)))
  }

  /** The challenger is promoted: no refused safety regression, and enough more cases passed. */
  predicate Promotes(policy: Policy, incumbentPassed: nat, incumbentUnsafe: nat, challengerPassed: nat,
      challengerUnsafe: nat) {
    && !(policy.rejectSafety && challengerUnsafe > incumbentUnsafe)
    && challengerPassed - incumbentPassed >= policy.minimum
  }

  /** Two valid reports on one evaluation, about different candidates and the same cases. */
  predicate Comparable(policy: Policy, incumbent: Report, challenger: Report) {
    && policy.minimum >= 1 && Verifies(incumbent) && Verifies(challenger)
    && incumbent.candidate != challenger.candidate && incumbent.evaluation == challenger.evaluation
    && CaseIds(incumbent) == CaseIds(challenger)
  }

  /** `select_task_reports` */
  function SelectTaskReports(policy: Policy, incumbent: Report, challenger: Report): (r: Option<Selection>)
    ensures r.Some? <==> Comparable(policy, incumbent, challenger)
    ensures r.Some? ==>
      var promoted := Promotes(policy, Passed(incumbent.cases), Unsafe(incumbent.cases), Passed(challenger.cases),
        Unsafe(challenger.cases));
      && incumbent.candidate != challenger.candidate
      && r.value.selected == if promoted then challenger.candidate else incumbent.candidate
  {
    if !Comparable(policy, incumbent, challenger) then None
    else
      var oldPassed, newPassed := Passed(incumbent.cases), Passed(challenger.cases);
      var oldUnsafe, newUnsafe := Unsafe(incumbent.cases), Unsafe(challenger.cases);
      var reason :=
        if policy.rejectSafety && newUnsafe > oldUnsafe then SafetyRegression
        else if newPassed - oldPassed >= policy.minimum then ImprovementMet
        else ImprovementNotMet;
      Some(Selection(incumbent.candidate, challenger.candidate, incumbent.evaluation, policy,
        oldPassed, newPassed, oldUnsafe, newUnsafe, reason,
        if reason == ImprovementMet then challenger.candidate else incumbent.candidate))
  }

  // ----- which reports can be compared

  /** A report that could have been measured: distinct well-formed cases, and a summary that counts them. */
  ghost predicate Sound(report: Report) {
    && IsSha256(report.candidate) && IsName(report.evaluation) && report.measured && |report.cases| > 0
    && (forall c :: c in report.cases ==>
          && IsName(c.caseId) && IsName(c.outcome) && Encodable(c.evidence)
          && 0.0 <= c.probability && c.probability <= 1.0)
    && (forall i, j :: 0 <= i < |report.cases| && 0 <= j < |report.cases| ==>
          report.cases[i].caseId == report.cases[j].caseId ==> i == j)
    && PythonEqual(report.summary, Summary(|report.cases|, Tally(report.cases, (c: ReportCase) => c.passed),
         Tally(report.cases, (c: ReportCase) => !c.safe)))
  }

  lemma VerifiesIff(report: Report)
    ensures Verifies(report) <==> Sound(report)
  {
    hide IsSha256, IsName, Encodable, PythonEqual, Summary, Tally, Passed, Unsafe;
    CountsAreTallies(report.cases);
    assert forall i :: 0 <= i < |report.cases| ==> report.cases[i] in report.cases;
  }

  ghost predicate Covers(a: Report, b: Report) {
    forall c :: c in a.cases ==> exists d :: d in b.cases && d.caseId == c.caseId
  }

  lemma CaseIdsCover(a: Report, b: Report)
    ensures CaseIds(a) <= CaseIds(b) <==> Covers(a, b)
  {
    if CaseIds(a) <= CaseIds(b) {
      forall c | c in a.cases ensures exists d :: d in b.cases && d.caseId == c.caseId {
        assert c.caseId in CaseIds(b);
        var j :| 0 <= j < |b.cases| && b.cases[j].caseId == c.caseId;
        assert b.cases[j] in b.cases;
      }
    }
    if Covers(a, b) {
      forall id | id in CaseIds(a) ensures id in CaseIds(b) {
        var i :| 0 <= i < |a.cases| && a.cases[i].caseId == id;
        assert a.cases[i] in a.cases;
      }
    }
  }

  /** The gate answers exactly for two sound reports about different candidates, on one evaluation and on the same
      cases, under a policy that asks for an improvement. */
  lemma GateAnswersIff(policy: Policy, incumbent: Report, challenger: Report)
    ensures SelectTaskReports(policy, incumbent, challenger).Some? <==>
      && policy.minimum >= 1 && Sound(incumbent) && Sound(challenger)
      && incumbent.candidate != challenger.candidate && incumbent.evaluation == challenger.evaluation
      && Covers(incumbent, challenger) && Covers(challenger, incumbent)
  {
    hide Verifies, Sound, Covers, CaseIds;
    VerifiesIff(incumbent);
    VerifiesIff(challenger);
    CaseIdsCover(incumbent, challenger);
    CaseIdsCover(challenger, incumbent);
  }

  /** What a selection says: both reports by name, their counts each in its place, the reason, and whom it selects. */
  lemma SelectionSays(policy: Policy, incumbent: Report, challenger: Report)
    requires SelectTaskReports(policy, incumbent, challenger).Some?
    ensures var s := SelectTaskReports(policy, incumbent, challenger).value;
      && s.incumbent == incumbent.candidate && s.challenger == challenger.candidate
      && s.evaluation == incumbent.evaluation == challenger.evaluation && s.policy == policy
      && s.incumbentPassed == Tally(incumbent.cases, (c: ReportCase) => c.passed)
      && s.challengerPassed == Tally(challenger.cases, (c: ReportCase) => c.passed)
      && s.incumbentUnsafe == Tally(incumbent.cases, (c: ReportCase) => !c.safe)
      && s.challengerUnsafe == Tally(challenger.cases, (c: ReportCase) => !c.safe)
      && (s.reason == SafetyRegression <==> policy.rejectSafety && s.challengerUnsafe > s.incumbentUnsafe)
      && (s.reason == ImprovementMet <==>
            s.reason != SafetyRegression && s.challengerPassed >= s.incumbentPassed + policy.minimum)
      && (s.selected == challenger.candidate <==> s.reason == ImprovementMet)
      && (s.selected == incumbent.candidate <==> s.reason != ImprovementMet)
  {
    hide Tally, Verifies, Passed, Unsafe;
    CountsAreTallies(incumbent.cases);
    CountsAreTallies(challenger.cases);
  }
}
