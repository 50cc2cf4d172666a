/** `_run_protected_final` and `continue_experiment`: any number of processes finishing one experiment,
    killed at any point and resumed at any time, beside other writers of the same Population. */
module FinalAssayRuns {
  import opened Text
  import opened FinalSelection
  import opened Population
  import opened FinalAssay

  /** Where one process stands. */
  datatype Call =
    | Resuming                   // `continue_experiment`, before it reads the ledger
    | Selecting                  // before the allocation made ahead of the protected bytes
    | Reselecting(first: Chosen) // inside `run_final_assay`, before it selects again
    | Declaring(chosen: Chosen)
    | Assaying(chosen: Chosen)   // running the protected cases
    | Finished(chosen: Chosen, run: nat)
    | Stopped

  /** The ledger, its directory lock (held for ever once its owner is killed inside), and the processes. */
  datatype System = System(records: Ledger, abandoned: bool, calls: seq<Call>)

  datatype Action =
    | Launch
    | Resume
    | Advance(i: nat)
    | Stop(i: nat)                        // killed, failed, or refused because the lock is taken
    | StopInside(i: nat, appended: bool)  // killed holding the lock, before or after the append
    | Write(body: Body)                   // another Population command

  // ----- resuming

  /** The keys of one item of `state.runs`, as `_run_body` builds it. */
  const RUN_ITEM_KEYS: set<string> := {"evidence", "measurements", "run"}

  datatype Completed = NoFinalRun | SeveralFinalRuns | MissingKey(key: string) | Recovered(run: nat)

  /** `_completed_final`; it reads `record_id` from the run item. */
  function CompletedFinal(records: Ledger): Completed {
    if FinalRuns(records) == [] then NoFinalRun
    else if |FinalRuns(records)| != 1 then SeveralFinalRuns
    else if "record_id" !in RUN_ITEM_KEYS then MissingKey("record_id")
    else Recovered(FinalRuns(records)[0])
  }

  /** A recorded final run is never recovered: the item has no such key. */
  lemma FinalRunIsNeverRecovered(records: Ledger)
    ensures !CompletedFinal(records).Recovered?
    ensures |FinalRuns(records)| == 1 <==> CompletedFinal(records) == MissingKey("record_id")
  {
  }

  // ----- steps

  /** One whole step of one process: the ledger it leaves and where it stands then. */
  function Step(plan: Plan, records: Ledger, call: Call): (Ledger, Call)
    requires Fair(plan.tie)
  {
    match call
    case Resuming =>
      (records, if CompletedFinal(records).NoFinalRun? && FinalExperiments(records) == [] then Selecting else Stopped)
    case Selecting =>
      if Selectable(records, plan)
      then (AfterSelection(records, plan), Reselecting(ChoiceAt(records, plan, AllocationOf(records, plan))))
      else (records, Stopped)
    case Reselecting(_) =>
      if Selectable(records, plan)
      then (AfterSelection(records, plan), Declaring(ChoiceAt(records, plan, AllocationOf(records, plan))))
      else (records, Stopped)
    case Declaring(chosen) =>
      if Declarable(records, plan) then (records + [ExperimentBody(plan.protected, Final)], Assaying(chosen))
      else (records, Stopped)
    case Assaying(chosen) =>
      if Admits(records, FinalRun(plan, chosen)) then (records + [FinalRun(plan, chosen)], Finished(chosen, |records|))
      else (records, Stopped)
    case Finished(_, _) => (records, call)
    case Stopped => (records, call)
  }

  predicate Locks(call: Call) {
    call.Selecting? || call.Reselecting? || call.Declaring? || call.Assaying?
  }

  /** What other commands may append while the archive is fixed: no development archive, no allocation, nothing
      final. */
  predicate Bystander(plan: Plan, records: Ledger, body: Body) {
    && Admits(records, body)
    && !body.AllocationBody?
    && !(body.ArchiveBody? && body.experiment == plan.development)
    && !(body.ExperimentBody? && body.role == Final)
    && !(body.RunBody? && RoleOf(records, body.experiment) == Some(Final))
  }

  function Take(plan: Plan, s: System, action: Action): System
    requires Fair(plan.tie)
  {
    match action
    case Launch => s.(calls := s.calls + [Selecting])
    case Resume => s.(calls := s.calls + [Resuming])
    case Advance(i) =>
      if i >= |s.calls| then s
      else if s.abandoned && Locks(s.calls[i]) then s.(calls := s.calls[i := Stopped])
      else
        var (records, call) := Step(plan, s.records, s.calls[i]);
        s.(records := records, calls := s.calls[i := call])
    case Stop(i) => if i < |s.calls| then s.(calls := s.calls[i := Stopped]) else s
    case StopInside(i, appended) =>
      if i < |s.calls| && Locks(s.calls[i]) && !s.abandoned then
        System(if appended then Step(plan, s.records, s.calls[i]).0 else s.records, true, s.calls[i := Stopped])
      else s
    case Write(body) =>
      if !s.abandoned && Bystander(plan, s.records, body) then s.(records := s.records + [body]) else s
  }

  function Execute(plan: Plan, s: System, actions: seq<Action>): System
    requires Fair(plan.tie)
  {
    if actions == [] then s
    else Take(plan, Execute(plan, s, actions[..|actions| - 1]), actions[|actions| - 1])
  }

  // ----- what every reachable state keeps

  function Choice(call: Call): Option<Chosen> {
    match call
    case Reselecting(chosen) => Some(chosen)
    case Declaring(chosen) => Some(chosen)
    case Assaying(chosen) => Some(chosen)
    case Finished(chosen, _) => Some(chosen)
    case _ => None
  }

  predicate CallSafe(plan: Plan, records: Ledger, call: Call)
    requires Fair(plan.tie)
  {
    && (Choice(call).Some? ==> Settled(records, plan, Choice(call).value))
    && (call.Assaying? ==> FinalExperiments(records) == [plan.protected] && FinalRuns(records) == [])
    && (call.Finished? ==> FinalRuns(records) == [call.run])
  }

  /** Against the ledger the processes started from: one allocation more at most, one final experiment, one final
      run. */
  predicate LedgerSafe(plan: Plan, base: Ledger, records: Ledger)
    requires Fair(plan.tie)
  {
    && Loads(records)
    && base <= records
    && LatestArchive(records, plan.development) == LatestArchive(base, plan.development)
    && (LatestArchive(base, plan.development).Some? ==>
          var archive := LatestArchive(base, plan.development).value;
          || Trailing(records, archive) == Trailing(base, archive)
          || (Trailing(base, archive) == [] && |Trailing(records, archive)| == 1))
    && (FinalExperiments(records) == [] || FinalExperiments(records) == [plan.protected])
    && (FinalRuns(records) != [] ==> FinalExperiments(records) == [plan.protected] && ReplayAccepts(records, plan))
  }

  predicate OneAssay(calls: seq<Call>) {
    forall i, j :: 0 <= i < j < |calls| ==> !(calls[i].Assaying? && calls[j].Assaying?)
  }

  predicate Safe(plan: Plan, base: Ledger, s: System)
    requires Fair(plan.tie)
  {
    && LedgerSafe(plan, base, s.records)
    && (forall i :: 0 <= i < |s.calls| ==> CallSafe(plan, s.records, s.calls[i]))
    && OneAssay(s.calls)
  }

  // ----- one lemma per kind of append

  lemma BystanderSafe(plan: Plan, base: Ledger, records: Ledger, body: Body)
    requires Fair(plan.tie) && LedgerSafe(plan, base, records) && Bystander(plan, records, body)
    ensures LedgerSafe(plan, base, records + [body])
    ensures FinalExperiments(records + [body]) == FinalExperiments(records)
    ensures FinalRuns(records + [body]) == FinalRuns(records)
  {
    Grow(records, body);
    hide Loads, Admits, LatestArchive, Trailing, FinalExperiments, FinalRuns, RoleOf, Select;
    var next := records + [body];
    assert forall p :: 0 <= p < |records| ==> next[p] == records[p];
  }

  lemma BystanderCall(plan: Plan, records: Ledger, body: Body, call: Call)
    requires Fair(plan.tie) && Bystander(plan, records, body) && CallSafe(plan, records, call)
    requires FinalExperiments(records + [body]) == FinalExperiments(records)
    requires FinalRuns(records + [body]) == FinalRuns(records)
    ensures CallSafe(plan, records + [body], call)
  {
    if Choice(call).Some? {
      SettledFrame(records, plan, Choice(call).value, body);
    }
    hide FinalExperiments, FinalRuns, Settled, Bystander;
  }

  lemma SelectionSafe(plan: Plan, base: Ledger, records: Ledger)
    requires Fair(plan.tie) && LedgerSafe(plan, base, records) && Selectable(records, plan)
    ensures LedgerSafe(plan, base, AfterSelection(records, plan))
    ensures Settled(AfterSelection(records, plan), plan, ChoiceAt(records, plan, AllocationOf(records, plan)))
  {
    hide Loads, Admits, LatestArchive, Trailing, FinalExperiments, FinalRuns, RoleOf, Select, Settled, WantedAllocation;
    SelectionSettles(records, plan);
    SelectionKeepsRoles(records, plan);
    var archive := LatestArchive(records, plan.development).value;
    if Trailing(records, archive) == [] {
      FirstSelection(records, plan);
    }
  }

  /** A settled ledger stays settled through a selection: there is nothing left to append. */
  lemma SettledSelects(plan: Plan, records: Ledger, chosen: Chosen)
    requires Fair(plan.tie) && Selectable(records, plan) && Settled(records, plan, chosen)
    ensures AfterSelection(records, plan) == records
  {
    hide LatestArchive, Trailing, Select, FinalRuns, FinalExperiments;
  }

  lemma SelectionCall(plan: Plan, records: Ledger, call: Call)
    requires Fair(plan.tie) && Selectable(records, plan) && CallSafe(plan, records, call)
    ensures CallSafe(plan, AfterSelection(records, plan), call)
  {
    assert !call.Assaying? && !call.Finished?;
    if Choice(call).Some? {
      SettledSelects(plan, records, Choice(call).value);
    }
  }

  lemma DeclarationSafe(plan: Plan, base: Ledger, records: Ledger)
    requires Fair(plan.tie) && LedgerSafe(plan, base, records) && Declarable(records, plan)
    ensures var next := records + [ExperimentBody(plan.protected, Final)];
      && LedgerSafe(plan, base, next)
      && FinalExperiments(next) == [plan.protected] && FinalRuns(next) == []
  {
    Grow(records, ExperimentBody(plan.protected, Final));
    hide Loads, Admits, LatestArchive, Trailing, FinalExperiments, FinalRuns, RoleOf, Select;
  }

  lemma DeclarationCall(plan: Plan, records: Ledger, call: Call)
    requires Fair(plan.tie) && Declarable(records, plan) && CallSafe(plan, records, call) && !call.Finished?
    ensures CallSafe(plan, records + [ExperimentBody(plan.protected, Final)], call)
  {
    if Choice(call).Some? {
      SettledFrame(records, plan, Choice(call).value, ExperimentBody(plan.protected, Final));
    }
  }

  lemma RunSafe(plan: Plan, base: Ledger, records: Ledger, chosen: Chosen)
    requires Fair(plan.tie) && LedgerSafe(plan, base, records) && CallSafe(plan, records, Assaying(chosen))
    requires Admits(records, FinalRun(plan, chosen))
    ensures var next := records + [FinalRun(plan, chosen)];
      && LedgerSafe(plan, base, next)
      && CallSafe(plan, next, Finished(chosen, |records|))
      && FinalRuns(next) == [|records|]
  {
    hide Loads, Admits, LatestArchive, Trailing, FinalExperiments, FinalRuns, RoleOf, Select, Settled, ReplayAccepts;
    var run := FinalRun(plan, chosen);
    RecordedRunReplays(records, plan, chosen);
    SettledFrame(records, plan, chosen, run);
    Grow(records, run);
  }

  lemma RunCall(plan: Plan, records: Ledger, chosen: Chosen, call: Call)
    requires Fair(plan.tie) && CallSafe(plan, records, call) && FinalRuns(records) == [] && !call.Assaying?
    ensures CallSafe(plan, records + [FinalRun(plan, chosen)], call)
  {
    if Choice(call).Some? {
      SettledFrame(records, plan, Choice(call).value, FinalRun(plan, chosen));
    }
    hide FinalExperiments, FinalRuns, Settled;
  }

  // ----- every step is safe

  /** A step keeps the ledger safe, leaves the stepping process safe, and disturbs no other process. */
  lemma StepSafe(plan: Plan, base: Ledger, s: System, i: nat)
    requires Fair(plan.tie) && Safe(plan, base, s) && i < |s.calls|
    ensures var (records, call) := Step(plan, s.records, s.calls[i]);
      && LedgerSafe(plan, base, records)
      && CallSafe(plan, records, call)
      && (call.Assaying? ==> forall j :: 0 <= j < |s.calls| && j != i ==> !s.calls[j].Assaying?)
      && forall j :: 0 <= j < |s.calls| && j != i ==> CallSafe(plan, records, s.calls[j])
  {
    var records := s.records;
    match s.calls[i] {
      case Selecting =>
        SelectingSafe(plan, base, s, i);
      case Reselecting(_) =>
        SelectingSafe(plan, base, s, i);
      case Declaring(_) =>
        DeclaringSafe(plan, base, s, i);
      case Assaying(_) =>
        AssayingSafe(plan, base, s, i);
      case _ =>
        hide LedgerSafe, CallSafe, FinalExperiments;
        assert CallSafe(plan, records, s.calls[i]);
    }
  }

  lemma SelectingSafe(plan: Plan, base: Ledger, s: System, i: nat)
    requires Fair(plan.tie) && Safe(plan, base, s) && i < |s.calls|
      && (s.calls[i].Selecting? || s.calls[i].Reselecting?)
    ensures var (records, call) := Step(plan, s.records, s.calls[i]);
      && LedgerSafe(plan, base, records)
      && CallSafe(plan, records, call)
      && !call.Assaying?
      && forall j :: 0 <= j < |s.calls| && j != i ==> CallSafe(plan, records, s.calls[j])
  {
    hide LedgerSafe, AfterSelection, Selectable, Settled, FinalExperiments, FinalRuns, OneAssay, ChoiceAt, AllocationOf;
    var records := s.records;
    if Selectable(records, plan) {
      SelectionSafe(plan, base, records);
      forall j | 0 <= j < |s.calls| && j != i ensures CallSafe(plan, AfterSelection(records, plan), s.calls[j]) {
        SelectionCall(plan, records, s.calls[j]);
      }
    }
  }

  lemma DeclaringSafe(plan: Plan, base: Ledger, s: System, i: nat)
    requires Fair(plan.tie) && Safe(plan, base, s) && i < |s.calls| && s.calls[i].Declaring?
    ensures var (records, call) := Step(plan, s.records, s.calls[i]);
      && LedgerSafe(plan, base, records)
      && CallSafe(plan, records, call)
      && (call.Assaying? ==> forall j :: 0 <= j < |s.calls| && j != i ==> !s.calls[j].Assaying?)
      && forall j :: 0 <= j < |s.calls| && j != i ==> CallSafe(plan, records, s.calls[j])
  {
    hide LedgerSafe, Settled, FinalExperiments, FinalRuns, OneAssay, Admits;
    var records := s.records;
    if Declarable(records, plan) {
      assert FinalExperiments(records) == [];
      DeclarationSafe(plan, base, records);
      FinalRunsNeedDeclaration(records);
      hide Declarable;
      var next := records + [ExperimentBody(plan.protected, Final)];
      forall j | 0 <= j < |s.calls| ensures CallSafe(plan, next, s.calls[j]) && !s.calls[j].Assaying? {
        assert CallSafe(plan, records, s.calls[j]);
        DeclarationCall(plan, records, s.calls[j]);
      }
      assert CallSafe(plan, next, s.calls[i]);
    }
  }

  lemma AssayingSafe(plan: Plan, base: Ledger, s: System, i: nat)
    requires Fair(plan.tie) && Safe(plan, base, s) && i < |s.calls| && s.calls[i].Assaying?
    ensures var (records, call) := Step(plan, s.records, s.calls[i]);
      && LedgerSafe(plan, base, records)
      && CallSafe(plan, records, call)
      && !call.Assaying?
      && forall j :: 0 <= j < |s.calls| && j != i ==> CallSafe(plan, records, s.calls[j])
  {
    hide LedgerSafe, Settled, FinalExperiments, FinalRuns, Admits;
    var records, chosen := s.records, s.calls[i].chosen;
    if Admits(records, FinalRun(plan, chosen)) {
      assert CallSafe(plan, records, s.calls[i]);
      RunSafe(plan, base, records, chosen);
      forall j | 0 <= j < |s.calls| && j != i ensures CallSafe(plan, records + [FinalRun(plan, chosen)], s.calls[j]) {
        assert !s.calls[j].Assaying?;
        RunCall(plan, records, chosen, s.calls[j]);
      }
    }
  }

  lemma TakeSafe(plan: Plan, base: Ledger, s: System, action: Action)
    requires Fair(plan.tie) && Safe(plan, base, s)
    ensures Safe(plan, base, Take(plan, s, action))
  {
    hide LedgerSafe, Step, Settled, FinalExperiments, FinalRuns;
    match action {
      case Advance(i) =>
        if i < |s.calls| {
          StepSafe(plan, base, s, i);
        }
      case StopInside(i, _) =>
        if i < |s.calls| {
          StepSafe(plan, base, s, i);
        }
      case Write(body) =>
        if Bystander(plan, s.records, body) {
          BystanderSafe(plan, base, s.records, body);
          forall j | 0 <= j < |s.calls| ensures CallSafe(plan, s.records + [body], s.calls[j]) {
            BystanderCall(plan, s.records, body, s.calls[j]);
          }
        }
      case _ =>
    }
  }

  /** Every run of every set of processes, from a Population where nothing final has started. */
  lemma {:induction false} ExecutionSafe(plan: Plan, base: Ledger, actions: seq<Action>)
    requires Fair(plan.tie) && Loads(base) && FinalExperiments(base) == []
    ensures Safe(plan, base, Execute(plan, System(base, false, []), actions))
  {
    if actions == [] {
      FinalRunsNeedDeclaration(base);
    } else {
      ExecutionSafe(plan, base, actions[..|actions| - 1]);
      TakeSafe(plan, base, Execute(plan, System(base, false, []), actions[..|actions| - 1]), actions[|actions| - 1]);
    }
  }

  /** The protected assay is one-use, and every end state with a final run passes the replay. */
  lemma OneUse(plan: Plan, base: Ledger, actions: seq<Action>)
    requires Fair(plan.tie) && Loads(base) && FinalExperiments(base) == []
    ensures var records := Execute(plan, System(base, false, []), actions).records;
      && base <= records && Loads(records)
      && |FinalExperiments(records)| <= 1
      && |FinalRuns(records)| <= 1
      && (FinalRuns(records) != [] ==> ReplayAccepts(records, plan))
      && (LatestArchive(base, plan.development).Some? ==>
            var archive := LatestArchive(base, plan.development).value;
            |Trailing(records, archive)| <=
              |Trailing(base, archive)| + (if Trailing(base, archive) == [] then 1 else 0))
  {
    ExecutionSafe(plan, base, actions);
  }

  /** Whenever and wherever the selection succeeds, it is the same candidate and the same allocation. */
  lemma OneChoice(plan: Plan, base: Ledger, actions: seq<Action>, i: nat, j: nat)
    requires Fair(plan.tie) && Loads(base) && FinalExperiments(base) == []
    requires var s := Execute(plan, System(base, false, []), actions);
      i < |s.calls| && j < |s.calls| && Choice(s.calls[i]).Some? && Choice(s.calls[j]).Some?
    ensures var s := Execute(plan, System(base, false, []), actions);
      Choice(s.calls[i]) == Choice(s.calls[j])
  {
    ExecutionSafe(plan, base, actions);
    hide Execute, LedgerSafe, Settled;
    var s := Execute(plan, System(base, false, []), actions);
    assert CallSafe(plan, s.records, s.calls[i]) && CallSafe(plan, s.records, s.calls[j]);
    SettledIsUnique(s.records, plan, Choice(s.calls[i]).value, Choice(s.calls[j]).value);
  }

  /** And it is the candidate the tie draw falls on among the unbeaten members of the archive. */
  lemma EveryChoiceIsRight(plan: Plan, base: Ledger, actions: seq<Action>, i: nat)
    requires Fair(plan.tie) && Loads(base) && FinalExperiments(base) == []
    requires var s := Execute(plan, System(base, false, []), actions); i < |s.calls| && Choice(s.calls[i]).Some?
    ensures var s := Execute(plan, System(base, false, []), actions);
      RightlyChosen(s.records, plan, Choice(s.calls[i]).value)
  {
    ExecutionSafe(plan, base, actions);
    hide Execute, LedgerSafe, Settled, RightlyChosen;
    var s := Execute(plan, System(base, false, []), actions);
    assert CallSafe(plan, s.records, s.calls[i]);
    SettledIsRight(s.records, plan, Choice(s.calls[i]).value);
  }

  /** So is the candidate of the final run, wherever one is recorded. */
  lemma EveryFinalRunIsRight(plan: Plan, base: Ledger, actions: seq<Action>)
    requires Fair(plan.tie) && Loads(base) && FinalExperiments(base) == []
    requires FinalRuns(Execute(plan, System(base, false, []), actions).records) != []
    ensures var records := Execute(plan, System(base, false, []), actions).records;
      && |FinalRuns(records)| == 1
      && var run := records[FinalRuns(records)[0]];
        && run.evidence.Protected?
        && RightlyChosen(records, plan, Chosen(run.candidate, run.evidence.bundle.allocation,
             run.evidence.bundle.draw, run.evidence.bundle.finalists))
  {
    OneUse(plan, base, actions);
    hide Execute, RightlyChosen, FinalRuns, FinalExperiments, LatestArchive, Trailing, Select;
    ReplayedRunIsRight(Execute(plan, System(base, false, []), actions).records, plan);
  }

  /** Exactly when a resumed process goes on: no protected experiment has been declared. Once the final run is
      recorded, or its declarer died, no later process can finish the experiment. */
  lemma ResumeProceedsIffUndeclared(plan: Plan, base: Ledger, actions: seq<Action>)
    requires Fair(plan.tie) && Loads(base) && FinalExperiments(base) == []
    ensures var records := Execute(plan, System(base, false, []), actions).records;
      && (Step(plan, records, Resuming).1 == Selecting <==> FinalExperiments(records) == [])
      && (FinalExperiments(records) != [] ==>
            Step(plan, records, Resuming).1 == Stopped && Step(plan, records, Selecting) == (records, Stopped))
      && (FinalRuns(records) != [] ==> CompletedFinal(records) == MissingKey("record_id"))
  {
    hide Execute, CallSafe, FinalExperiments, FinalRuns, Loads, LatestArchive, Trailing, Select;
    var records := Execute(plan, System(base, false, []), actions).records;
    ExecutionSafe(plan, base, actions);
    assert LedgerSafe(plan, base, records);
    if FinalExperiments(records) == [] {
      FinalRunsNeedDeclaration(records);
    }
  }

  // ----- a lock that is left behind

  ghost predicate Frozen(s: System, records: Ledger, calls: seq<Call>) {
    && s.abandoned && s.records == records && |calls| <= |s.calls|
    && forall j :: 0 <= j < |s.calls| ==> s.calls[j].Finished? ==> j < |calls| && s.calls[j] == calls[j]
  }

  lemma TakeFrozen(plan: Plan, s: System, action: Action, records: Ledger, calls: seq<Call>)
    requires Fair(plan.tie) && Frozen(s, records, calls)
    ensures Frozen(Take(plan, s, action), records, calls)
  {
    hide Selectable, AfterSelection, Admits, Declarable, FinalRuns, FinalExperiments, ChoiceAt, AllocationOf;
  }

  /** Once a process is killed inside the lock, whatever runs later appends nothing and finishes nothing. */
  lemma {:induction false} KilledInsideFreezes(plan: Plan, start: System, actions: seq<Action>, i: nat, appended: bool,
      more: seq<Action>)
    requires Fair(plan.tie)
    requires var s := Execute(plan, start, actions); !s.abandoned && i < |s.calls| && Locks(s.calls[i])
    ensures var s := Execute(plan, start, actions);
      Frozen(Execute(plan, start, actions + [StopInside(i, appended)] + more),
        if appended then Step(plan, s.records, s.calls[i]).0 else s.records, s.calls)
    decreases |more|
  {
    hide Step;
    var s := Execute(plan, start, actions);
    var all := actions + [StopInside(i, appended)] + more;
    if more == [] {
      assert all[..|all| - 1] == actions;
    } else {
      assert all[..|all| - 1] == actions + [StopInside(i, appended)] + more[..|more| - 1];
      KilledInsideFreezes(plan, start, actions, i, appended, more[..|more| - 1]);
      TakeFrozen(plan, Execute(plan, start, all[..|all| - 1]), all[|all| - 1],
        if appended then Step(plan, s.records, s.calls[i]).0 else s.records, s.calls);
    }
  }

  // ----- a run that ends in the unrecoverable state

  /** One process finishes the assay; one started afterwards, to write the report the first did not, stops. */
  function FinishThenResume(): seq<Action> {
    [Launch, Advance(0), Advance(0), Advance(0), Advance(0), Resume, Advance(1)]
  }

  lemma Advanced(plan: Plan, s: System, actions: seq<Action>, i: nat, records: Ledger, call: Call)
    requires Fair(plan.tie)
    requires var before := Execute(plan, s, actions);
      !before.abandoned && i < |before.calls| && Step(plan, before.records, before.calls[i]) == (records, call)
    ensures Execute(plan, s, actions + [Advance(i)]) ==
      System(records, false, Execute(plan, s, actions).calls[i := call])
  {
    assert (actions + [Advance(i)])[..|actions|] == actions;
    hide Step;
  }

  lemma Joined(plan: Plan, s: System, actions: seq<Action>, action: Action)
    requires Fair(plan.tie) && (action == Launch || action == Resume)
    ensures var before := Execute(plan, s, actions);
      Execute(plan, s, actions + [action]) ==
        before.(calls := before.calls + [if action == Launch then Selecting else Resuming])
  {
    assert (actions + [action])[..|actions|] == actions;
  }

  lemma NoActions(plan: Plan, s: System)
    requires Fair(plan.tie)
    ensures Execute(plan, s, []) == s
  {
  }

  lemma RecordedOnce(plan: Plan, base: Ledger, chosen: Chosen)
    requires Fair(plan.tie) && Loads(base) && Selectable(base, plan) && RoleOf(base, plan.protected).None?
    requires Settled(AfterSelection(base, plan), plan, chosen)
    ensures var declared := AfterSelection(base, plan) + [ExperimentBody(plan.protected, Final)];
      FinalRuns(declared + [FinalRun(plan, chosen)]) == [|declared|]
  {
    var settled := AfterSelection(base, plan);
    SelectionSettles(base, plan);
    SelectionKeepsRoles(base, plan);
    hide Selectable, AfterSelection, FinalRuns, FinalExperiments, RoleOf, Admits, Declarable, Settled, Loads;
    assert FinalExperiments(settled) == [] by { SelectableIsOpen(base, plan); }
    FreshAssayIsAdmitted(settled, plan, chosen);
    RecordedRunReplays(settled + [ExperimentBody(plan.protected, Final)], plan, chosen);
  }

  lemma SelectableIsOpen(base: Ledger, plan: Plan)
    requires Fair(plan.tie) && Selectable(base, plan)
    ensures FinalExperiments(base) == []
  {
  }

  /** The steps of one process, and what a process resumed behind it sees. */
  lemma WholeSteps(plan: Plan, base: Ledger, chosen: Chosen, settled: Ledger, declared: Ledger, recorded: Ledger)
    requires Fair(plan.tie) && Loads(base) && Selectable(base, plan) && RoleOf(base, plan.protected).None?
    requires chosen == ChoiceAt(base, plan, AllocationOf(base, plan)) && settled == AfterSelection(base, plan)
    requires declared == settled + [ExperimentBody(plan.protected, Final)]
    requires recorded == declared + [FinalRun(plan, chosen)]
    ensures Step(plan, base, Selecting) == (settled, Reselecting(chosen))
    ensures Step(plan, settled, Reselecting(chosen)) == (settled, Declaring(chosen))
    ensures Step(plan, settled, Declaring(chosen)) == (declared, Assaying(chosen))
    ensures Step(plan, declared, Assaying(chosen)) == (recorded, Finished(chosen, |declared|))
    ensures Step(plan, recorded, Resuming) == (recorded, Stopped)
    ensures FinalRuns(recorded) == [|declared|] && ReplayAccepts(recorded, plan)
  {
    hide Selectable, AfterSelection, FinalRuns, FinalExperiments, RoleOf, Admits, Declarable, Settled, Loads,
      ReplayAccepts,
      FinalRun, ChoiceAt, AllocationOf;
    SelectionSettles(base, plan);
    WholeAssay(base, plan, chosen);
    RecordedOnce(plan, base, chosen);
  }

  /** From every accepted ledger on which the selection succeeds and the protected identity is free. */
  lemma RecordedRunCannotBeResumed(plan: Plan, base: Ledger)
    requires Fair(plan.tie) && Loads(base) && Selectable(base, plan) && RoleOf(base, plan.protected).None?
    ensures var s := Execute(plan, System(base, false, []), FinishThenResume());
      && |s.calls| == 2 && s.calls[0].Finished? && s.calls[1] == Stopped
      && FinalRuns(s.records) == [s.calls[0].run] && ReplayAccepts(s.records, plan)
      && CompletedFinal(s.records) == MissingKey("record_id")
  {
    hide Execute, Step, Selectable, AfterSelection, Loads, FinalRuns, RoleOf, ReplayAccepts, FinalRun, ChoiceAt,
      AllocationOf;
    var start := System(base, false, []);
    var chosen := ChoiceAt(base, plan, AllocationOf(base, plan));
    var settled := AfterSelection(base, plan);
    var declared := settled + [ExperimentBody(plan.protected, Final)];
    var recorded := declared + [FinalRun(plan, chosen)];
    WholeSteps(plan, base, chosen, settled, declared, recorded);
    NoActions(plan, start);
    Joined(plan, start, [], Launch);
    var a := [] + [Launch];
    Advanced(plan, start, a, 0, settled, Reselecting(chosen));
    Advanced(plan, start, a + [Advance(0)], 0, settled, Declaring(chosen));
    Advanced(plan, start, a + [Advance(0)] + [Advance(0)], 0, declared, Assaying(chosen));
    var b := a + [Advance(0)] + [Advance(0)] + [Advance(0)];
    Advanced(plan, start, b, 0, recorded, Finished(chosen, |declared|));
    Joined(plan, start, b + [Advance(0)], Resume);
    Advanced(plan, start, b + [Advance(0)] + [Resume], 1, recorded, Stopped);
    assert b + [Advance(0)] + [Resume] + [Advance(1)] == FinishThenResume();
  }

  /** Such ledgers exist: one candidate, archived once. */
  lemma SomeLedgerIsSelectable(plan: Plan, id: Id, members: Members) returns (base: Ledger)
    requires Fair(plan.tie) && plan.protected != plan.development && members.Keys == {id}
    ensures Loads(base) && Selectable(base, plan) && RoleOf(base, plan.protected).None?
  {
    var candidate, experiment := CandidateBody(id, []), ExperimentBody(plan.development, Development);
    var archive := ArchiveBody(plan.development, members);
    base := [];
    Grow(base, candidate);
    base := base + [candidate];
    Grow(base, experiment);
    base := base + [experiment];
    Grow(base, archive);
    base := base + [archive];
  }
}
