/** `final_assay.py`: select once, declare the protected experiment once, record its run once;
    and the replay that checks the result (`experiment_replay.py`). */
module FinalAssay {
  import opened Text
  import opened FinalSelection
  import opened Population
  import Order

  /** What the frozen task profile fixes: the development experiment, the tie draw and the protected experiment. */
  datatype Plan = Plan(development: Id, tie: Draw, protected: Id, replicate: Id)

  datatype Chosen = Chosen(candidate: Id, allocation: nat, draw: Draw, finalists: seq<Id>)

  datatype Refusal =
    | AlreadyStarted | NoArchive | NoFeasible | ConflictingAllocation | AnotherCandidate | RejectedByPopulation

  datatype Result<+T> = Ok(value: T) | Err(refusal: Refusal)

  /** The allocation that sends Population's uniform draw to the chosen finalist. */
  function WantedAllocation(records: Ledger, archive: nat, tie: Draw): (body: Body)
    requires archive < |records| && records[archive].ArchiveBody? && records[archive].members != map[] && Fair(tie)
    ensures body.AllocationBody?
  {
    var s := Select(records[archive].members, tie);
    AllocationBody(archive, s.draw, SortedIds(records[archive].members.Keys), s.candidate)
  }

  /** The ledger holds exactly one allocation after the development archive, the wanted one, and `chosen` describes
      it. */
  predicate Settled(records: Ledger, plan: Plan, chosen: Chosen)
    requires Fair(plan.tie)
  {
    var archive := LatestArchive(records, plan.development);
    && archive.Some?
    && records[archive.value].members != map[]
    && Trailing(records, archive.value) == [chosen.allocation]
    && chosen.allocation < |records|
    && records[chosen.allocation] == WantedAllocation(records, archive.value, plan.tie)
    && var s := Select(records[archive.value].members, plan.tie);
      chosen == Chosen(s.candidate, chosen.allocation, s.draw, s.finalists)
  }

  /** A settled ledger leaves nothing to choose. */
  lemma SettledIsUnique(records: Ledger, plan: Plan, a: Chosen, b: Chosen)
    requires Fair(plan.tie) && Settled(records, plan, a) && Settled(records, plan, b)
    ensures a == b
  {
    hide Trailing, LatestArchive, Select;
    var archive := LatestArchive(records, plan.development).value;
    assert [a.allocation] == [b.allocation];
    assert [a.allocation][0] == [b.allocation][0];
  }

  /** A selection can succeed: nothing final yet, a fresh non-empty archive, and no foreign allocation after it. */
  predicate Selectable(records: Ledger, plan: Plan)
    requires Fair(plan.tie)
  {
    var archive := LatestArchive(records, plan.development);
    && FinalRuns(records) == [] && FinalExperiments(records) == []
    && archive.Some?
    && records[archive.value].members != map[]
    && !Stale(records, archive.value)
    && var trailing := Trailing(records, archive.value);
      trailing == [] || (|trailing| == 1 && records[trailing[0]] == WantedAllocation(records, archive.value, plan.tie))
  }

  /** The ledger after a successful selection: the wanted allocation is there, added if it was missing. */
  function AfterSelection(records: Ledger, plan: Plan): Ledger
    requires Fair(plan.tie) && Selectable(records, plan)
  {
    var archive := LatestArchive(records, plan.development).value;
    if Trailing(records, archive) == [] then records + [WantedAllocation(records, archive, plan.tie)] else records
  }

  lemma WantedIsAdmitted(records: Ledger, plan: Plan)
    requires Fair(plan.tie) && Selectable(records, plan)
    ensures Admits(records, WantedAllocation(records, LatestArchive(records, plan.development).value, plan.tie))
  {
    hide Select, Allocated, Trailing, Stale, LatestArchive, FinalRuns, FinalExperiments;
    var archive := LatestArchive(records, plan.development).value;
    DerivedDrawLandsOnSelected(records[archive].members, plan.tie);
  }

  function ChoiceAt(records: Ledger, plan: Plan, allocation: nat): Chosen
    requires Fair(plan.tie) && Selectable(records, plan)
  {
    var s := Select(records[LatestArchive(records, plan.development).value].members, plan.tie);
    Chosen(s.candidate, allocation, s.draw, s.finalists)
  }

  lemma FirstSelection(records: Ledger, plan: Plan)
    requires Fair(plan.tie) && Loads(records) && Selectable(records, plan)
    requires Trailing(records, LatestArchive(records, plan.development).value) == []
    ensures var archive := LatestArchive(records, plan.development).value;
      var next := records + [WantedAllocation(records, archive, plan.tie)];
      && Loads(next)
      && Settled(next, plan, ChoiceAt(records, plan, |records|))
      && Selectable(next, plan)
      && Trailing(next, archive) == [|records|]
      && LatestArchive(next, plan.development) == Some(archive)
  {
    hide Select, Loads, Admits, FinalRuns, FinalExperiments, LatestArchive, Trailing, Stale;
    var archive := LatestArchive(records, plan.development).value;
    WantedIsAdmitted(records, plan);
    var wanted := WantedAllocation(records, archive, plan.tie);
    Grow(records, wanted);
    StillFresh(records, archive, wanted);
    var next := records + [wanted];
    assert next[archive] == records[archive] && next[|records|] == wanted;
    assert WantedAllocation(next, archive, plan.tie) == wanted;
  }

  lemma StillFresh(records: Ledger, archive: nat, body: Body)
    requires archive < |records| && records[archive].ArchiveBody? && !Stale(records, archive) && !body.RunBody?
    ensures !Stale(records + [body], archive)
  {
  }

  lemma RepeatedSelection(records: Ledger, plan: Plan)
    requires Fair(plan.tie) && Selectable(records, plan)
    requires Trailing(records, LatestArchive(records, plan.development).value) != []
    ensures Settled(records, plan, ChoiceAt(records, plan, AllocationOf(records, plan)))
    ensures AfterSelection(records, plan) == records
  {
    hide Select, FinalRuns, FinalExperiments, LatestArchive, Trailing, Stale, WantedAllocation;
    var trailing := Trailing(records, LatestArchive(records, plan.development).value);
    assert trailing == [trailing[0]];
  }

  /** Where a selection finds, or puts, its allocation. */
  function AllocationOf(records: Ledger, plan: Plan): nat
    requires Fair(plan.tie) && Selectable(records, plan)
  {
    var trailing := Trailing(records, LatestArchive(records, plan.development).value);
    if trailing == [] then |records| else trailing[0]
  }

  /** Selecting settles the ledger, and selecting again changes nothing and chooses the same. */
  lemma SelectionSettles(records: Ledger, plan: Plan)
    requires Fair(plan.tie) && Loads(records) && Selectable(records, plan)
    ensures var next := AfterSelection(records, plan);
      && Loads(next)
      && LatestArchive(next, plan.development) == LatestArchive(records, plan.development)
      && Settled(next, plan, ChoiceAt(records, plan, AllocationOf(records, plan)))
      && Selectable(next, plan)
      && AfterSelection(next, plan) == next
      && ChoiceAt(next, plan, AllocationOf(next, plan)) == ChoiceAt(records, plan, AllocationOf(records, plan))
  {
    if Trailing(records, LatestArchive(records, plan.development).value) == [] {
      FirstSelection(records, plan);
      RepeatedSelection(records
        + [WantedAllocation(records, LatestArchive(records, plan.development).value, plan.tie)], plan);
    } else {
      RepeatedSelection(records, plan);
    }
    hide Select, Loads, FinalRuns, FinalExperiments, LatestArchive, Trailing, Stale, WantedAllocation, Settled,
      Selectable;
  }

  /** The finalists are the unbeaten members of the development archive, the candidate is the one the tie draw falls
      on, and the one allocation after the archive names it and its rank. */
  ghost predicate RightlyChosen(records: Ledger, plan: Plan, chosen: Chosen) {
    var archive := LatestArchive(records, plan.development);
    && archive.Some?
    && Rightly(records[archive.value].members, plan.tie, chosen.finalists, chosen.candidate, chosen.draw)
    && Trailing(records, archive.value) == [chosen.allocation]
    && chosen.allocation < |records|
    && var body := records[chosen.allocation];
      && body.AllocationBody? && body.archive == archive.value
      && body.draw == chosen.draw && body.chosen == chosen.candidate
  }

  lemma SettledIsRight(records: Ledger, plan: Plan, chosen: Chosen)
    requires Fair(plan.tie) && Settled(records, plan, chosen)
    ensures RightlyChosen(records, plan, chosen)
    ensures Order.Ascending(records[chosen.allocation].ordered)
    ensures Order.Lists(records[chosen.allocation].ordered,
      records[LatestArchive(records, plan.development).value].members.Keys)
  {
    hide Select, Trailing, LatestArchive, Rightly;
    SelectsRightly(records[LatestArchive(records, plan.development).value].members, plan.tie);
  }

  /** What each refusal of `select_final_candidate` means, in the order the code tests them. */
  predicate RefusedFor(records: Ledger, plan: Plan, refusal: Refusal)
    requires Fair(plan.tie)
  {
    var archive := LatestArchive(records, plan.development);
    if FinalRuns(records) != [] || FinalExperiments(records) != [] then refusal == AlreadyStarted
    else if archive.None? then refusal == NoArchive
    else if records[archive.value].members == map[] then refusal == NoFeasible
    else if Stale(records, archive.value) then refusal == RejectedByPopulation
    else refusal == ConflictingAllocation
  }

  /** `select_final_candidate`, under the Population lock. */
  method SelectFinalCandidate(store: Store, plan: Plan) returns (r: Result<Chosen>)
    requires store.Valid() && Fair(plan.tie)
    modifies store
    ensures store.Valid()
    ensures r.Ok? <==> Selectable(old(store.records), plan)
    ensures r.Ok? ==> store.records == AfterSelection(old(store.records), plan) && Settled(store.records, plan, r.value)
    ensures r.Ok? ==> RightlyChosen(store.records, plan, r.value)
    ensures r.Err? ==> store.records == old(store.records) && RefusedFor(store.records, plan, r.refusal)
  {
    hide RightlyChosen, Loads, Trailing, LatestArchive, Allocated, Stale;
    var records := store.records;
    if FinalRuns(records) != [] || FinalExperiments(records) != [] {
      return Err(AlreadyStarted);
    }
    var archive := LatestArchive(records, plan.development);
    if archive.None? {
      return Err(NoArchive);
    }
    var members := records[archive.value].members;
    if members == map[] {
      return Err(NoFeasible);
    }
    var selection := Select(members, plan.tie);
    DerivedDrawLandsOnSelected(members, plan.tie);
    hide Select;
    var body := AllocationBody(archive.value, selection.draw, SortedIds(members.Keys),
      Allocated(members, selection.draw));
    assert body == WantedAllocation(records, archive.value, plan.tie);
    if !AdmitsAllocation(records, body) {
      return Err(RejectedByPopulation);
    }
    var trailing := Trailing(records, archive.value);
    var allocation: nat;
    if trailing != [] {
      if |trailing| != 1 || records[trailing[0]] != body {
        return Err(ConflictingAllocation);
      }
      allocation := trailing[0];
    } else {
      var appended := store.Append(body);
      if appended.None? {
        assert Selectable(records, plan);
        WantedIsAdmitted(records, plan);
        return Err(RejectedByPopulation);
      }
      allocation := appended.value;
    }
    assert Selectable(records, plan);
    SelectionSettles(records, plan);
    assert store.records == AfterSelection(records, plan);
    if body.chosen != selection.candidate {
      return Err(AnotherCandidate);
    }
    SettledIsRight(store.records, plan, Chosen(selection.candidate, allocation, selection.draw, selection.finalists));
    return Ok(Chosen(selection.candidate, allocation, selection.draw, selection.finalists));
  }

  // ----- the protected experiment and its run

  predicate Declarable(records: Ledger, plan: Plan) {
    FinalExperiments(records) == [] && Admits(records, ExperimentBody(plan.protected, Final))
  }

  /** The run record: its seed and its sealed bundle both name the allocation and the draws. */
  function FinalRun(plan: Plan, chosen: Chosen): Body {
    RunBody(chosen.candidate, plan.protected, plan.replicate, Protected(
      Seed(chosen.allocation, chosen.draw, plan.tie),
      Bundle(chosen.allocation, chosen.candidate, chosen.draw, chosen.finalists, plan.tie)))
  }

  /** `_verify_final_selection`: the one final run, its seed, its bundle and the one trailing allocation
      are all rebuilt from the development archive. */
  predicate ReplayAccepts(records: Ledger, plan: Plan)
    requires Fair(plan.tie)
  {
    var runs, archive := FinalRuns(records), LatestArchive(records, plan.development);
    && |runs| == 1
    && archive.Some?
    && records[archive.value].members != map[]
    && var run, expected := records[runs[0]], Select(records[archive.value].members, plan.tie);
      && run.experiment == plan.protected
      && run.candidate == expected.candidate
      && run.evidence.Protected?
      && var seed, bundle := run.evidence.seed, run.evidence.bundle;
        && seed == Seed(bundle.allocation, expected.draw, plan.tie)
        && bundle == Bundle(bundle.allocation, expected.candidate, expected.draw, expected.finalists, plan.tie)
        && bundle.allocation < |records|
        && records[bundle.allocation].AllocationBody?
        && records[bundle.allocation].archive == archive.value
        && records[bundle.allocation].draw == expected.draw
        && records[bundle.allocation].chosen == expected.candidate
        && Trailing(records, archive.value) == [bundle.allocation]
  }

  /** A run that the replay admits is of the candidate the tie draw falls on among the unbeaten members, and its seed
      and bundle say so. */
  lemma ReplayedRunIsRight(records: Ledger, plan: Plan)
    requires Fair(plan.tie) && ReplayAccepts(records, plan)
    ensures var run := records[FinalRuns(records)[0]];
      && run.experiment == plan.protected && run.evidence.Protected?
      && var bundle := run.evidence.bundle;
        && RightlyChosen(records, plan, Chosen(run.candidate, bundle.allocation, bundle.draw, bundle.finalists))
        && bundle.candidate == run.candidate && bundle.tie == plan.tie
        && run.evidence.seed.draw == bundle.draw && run.evidence.seed.allocation == bundle.allocation
  {
    hide Select, Trailing, LatestArchive, Rightly, FinalRuns;
    SelectsRightly(records[LatestArchive(records, plan.development).value].members, plan.tie);
  }

  lemma {:induction false} DeclaredFinal(records: Ledger, e: Id)
    requires Loads(records) && e in FinalExperiments(records)
    ensures RoleOf(records, e) == Some(Final)
  {
    var before, last := records[..|records| - 1], records[|records| - 1];
    assert records == before + [last];
    Grow(before, last);
    if e in FinalExperiments(before) {
      DeclaredFinal(before, e);
    }
  }

  lemma {:induction false} FinalRunsNeedDeclaration(records: Ledger)
    requires FinalExperiments(records) == []
    ensures FinalRuns(records) == []
    ensures forall e :: RoleOf(records, e) != Some(Final)
  {
    if records != [] {
      var before, last := records[..|records| - 1], records[|records| - 1];
      assert records == before + [last];
      Grow(before, last);
      FinalRunsNeedDeclaration(before);
    }
  }

  /** A record that is no allocation and no development archive leaves a settled ledger settled. */
  lemma SettledFrame(records: Ledger, plan: Plan, chosen: Chosen, body: Body)
    requires Fair(plan.tie) && Settled(records, plan, chosen)
    requires !body.AllocationBody? && !(body.ArchiveBody? && body.experiment == plan.development)
    ensures Settled(records + [body], plan, chosen)
  {
    Grow(records, body);
    hide LatestArchive, Trailing, Select, Loads, Admits, FinalRuns, FinalExperiments;
    var archive := LatestArchive(records, plan.development).value;
    assert (records + [body])[archive] == records[archive];
    assert (records + [body])[chosen.allocation] == records[chosen.allocation];
  }

  /** The run recorded by the process that declared the protected experiment passes the replay. */
  lemma RecordedRunReplays(records: Ledger, plan: Plan, chosen: Chosen)
    requires Fair(plan.tie) && Loads(records) && Settled(records, plan, chosen)
    requires FinalExperiments(records) == [plan.protected] && FinalRuns(records) == []
    ensures ReplayAccepts(records + [FinalRun(plan, chosen)], plan)
    ensures FinalRuns(records + [FinalRun(plan, chosen)]) == [|records|]
  {
    hide LatestArchive, Trailing, Select, Loads, Admits, FinalRuns, FinalExperiments, RoleOf;
    var run := FinalRun(plan, chosen);
    var next := records + [run];
    DeclaredFinal(records, plan.protected);
    Grow(records, run);
    SettledFrame(records, plan, chosen, run);
    assert next[|records|] == run && FinalRuns(next) == [|records|];
  }

  /** Once settled, the protected experiment can be declared and its run recorded, unless its identity is taken. */
  lemma FreshAssayIsAdmitted(records: Ledger, plan: Plan, chosen: Chosen)
    requires Fair(plan.tie) && Loads(records) && Settled(records, plan, chosen)
    requires FinalExperiments(records) == [] && RoleOf(records, plan.protected).None?
    ensures Declarable(records, plan)
    ensures var declared := records + [ExperimentBody(plan.protected, Final)];
      && Loads(declared) && Settled(declared, plan, chosen)
      && FinalExperiments(declared) == [plan.protected] && FinalRuns(declared) == []
      && Admits(declared, FinalRun(plan, chosen))
  {
    FinalRunsNeedDeclaration(records);
    var body := ExperimentBody(plan.protected, Final);
    Grow(records, body);
    SettledFrame(records, plan, chosen, body);
    var archive := LatestArchive(records, plan.development).value;
    DerivedDrawLandsOnSelected(records[archive].members, plan.tie);
    MembersAreCandidates(records, archive, chosen.candidate);
    if HasRun(records, chosen.candidate, plan.protected, plan.replicate) {
      RunsAreOfDeclaredExperiments(records, chosen.candidate, plan.protected, plan.replicate);
      assert false;
    }
  }

  /** `_experiment`, under the lock. */
  method DeclareProtected(store: Store, plan: Plan) returns (ok: bool)
    requires store.Valid()
    modifies store
    ensures store.Valid()
    ensures ok <==> Declarable(old(store.records), plan)
    ensures store.records == old(store.records) + (if ok then [ExperimentBody(plan.protected, Final)] else [])
  {
    if FinalExperiments(store.records) != [] {
      return false;
    }
    var at := store.Append(ExperimentBody(plan.protected, Final));
    return at.Some?;
  }

  /** Selecting declares nothing. */
  lemma SelectionKeepsRoles(records: Ledger, plan: Plan)
    requires Fair(plan.tie) && Selectable(records, plan)
    ensures forall e :: RoleOf(AfterSelection(records, plan), e) == RoleOf(records, e)
    ensures FinalExperiments(AfterSelection(records, plan)) == FinalExperiments(records)
  {
    Grow(records, WantedAllocation(records, LatestArchive(records, plan.development).value, plan.tie));
  }

  lemma WholeAssay(records: Ledger, plan: Plan, chosen: Chosen)
    requires Fair(plan.tie) && Loads(records) && Selectable(records, plan)
    requires Settled(AfterSelection(records, plan), plan, chosen)
    ensures Declarable(AfterSelection(records, plan), plan) <==> RoleOf(records, plan.protected).None?
    ensures RoleOf(records, plan.protected).None? ==>
      var declared := AfterSelection(records, plan) + [ExperimentBody(plan.protected, Final)];
      && Admits(declared, FinalRun(plan, chosen))
      && ReplayAccepts(declared + [FinalRun(plan, chosen)], plan)
  {
    var settled := AfterSelection(records, plan);
    SelectionSettles(records, plan);
    SelectionKeepsRoles(records, plan);
    assert Declarable(settled, plan) ==> RoleOf(settled, plan.protected).None?;
    hide Selectable, Settled, AfterSelection, Loads, FinalRuns, FinalExperiments, RoleOf, ReplayAccepts, Admits,
      Declarable;
    if RoleOf(records, plan.protected).None? {
      FreshAssayIsAdmitted(settled, plan, chosen);
      RecordedRunReplays(settled + [ExperimentBody(plan.protected, Final)], plan, chosen);
    }
  }

  /** `run_final_assay`, uninterrupted: select again, declare, evaluate, record. `evaluated` says whether every
      protected case produced evidence that Population accepts. */
  method RunFinalAssay(store: Store, plan: Plan, evaluated: bool) returns (r: Result<Chosen>)
    requires store.Valid() && Fair(plan.tie)
    modifies store
    ensures store.Valid()
    ensures r.Ok? <==>
      evaluated && Selectable(old(store.records), plan) && RoleOf(old(store.records), plan.protected).None?
    ensures r.Ok? ==> ReplayAccepts(store.records, plan)
    ensures r.Ok? ==>
      store.records ==
        AfterSelection(old(store.records), plan) + [ExperimentBody(plan.protected, Final)] + [FinalRun(plan, r.value)]
    ensures !Selectable(old(store.records), plan) ==> store.records == old(store.records)
    ensures Selectable(old(store.records), plan) && RoleOf(old(store.records), plan.protected).Some? ==>
      store.records == AfterSelection(old(store.records), plan)
    ensures Selectable(old(store.records), plan) && RoleOf(old(store.records), plan.protected).None? && !evaluated ==>
      store.records == AfterSelection(old(store.records), plan) + [ExperimentBody(plan.protected, Final)]
  {
    hide Selectable, Settled, AfterSelection, Loads, FinalRuns, FinalExperiments, RoleOf, ReplayAccepts, Admits,
      Declarable;
    var selected := SelectFinalCandidate(store, plan);
    if selected.Err? {
      return selected;
    }
    var chosen := selected.value;
    WholeAssay(old(store.records), plan, chosen);
    var declared := DeclareProtected(store, plan);
    if !declared || !evaluated {
      return Err(RejectedByPopulation);
    }
    var at := store.Append(FinalRun(plan, chosen));
    if at.None? {
      return Err(RejectedByPopulation);
    }
    return Ok(chosen);
  }
}
