/** Which ledgers `load_state` accepts, said of the records and their positions alone. */
module PopulationRules {
  import opened Text
  import opened FinalSelection
  import opened Population
  import Order

  ghost predicate Registered(records: Ledger, id: Id) {
    exists q :: 0 <= q < |records| && records[q].CandidateBody? && records[q].candidate == id
  }

  ghost predicate Declared(records: Ledger, experiment: Id, role: Role) {
    exists q :: 0 <= q < |records| && records[q] == ExperimentBody(experiment, role)
  }

  ghost predicate Ran(records: Ledger, candidate: Id, experiment: Id, replicate: Id) {
    exists q :: 0 <= q < |records| && records[q].RunBody? && records[q].candidate == candidate
      && records[q].experiment == experiment && records[q].replicate == replicate
  }

  /** A run of an experiment that was declared final before it. */
  ghost predicate Sealed(records: Ledger) {
    exists q :: 0 <= q < |records| && records[q].RunBody? && Declared(records[..q], records[q].experiment, Final)
  }

  /** The archive at this position is the last word on its experiment. */
  ghost predicate Current(records: Ledger, archive: nat) {
    && archive < |records| && records[archive].ArchiveBody?
    && forall q :: archive < q < |records| ==>
         !(records[q].ArchiveBody? && records[q].experiment == records[archive].experiment)
         && !(records[q].RunBody? && records[q].experiment == records[archive].experiment)
  }

  /** The draw falls on `chosen` among the sorted members. */
  ghost predicate DrawnFrom(members: Members, draw: Draw, ordered: seq<Id>, chosen: Id) {
    && members != map[] && 0 <= draw.numerator < draw.denominator
    && Order.Ascending(ordered) && (forall id :: id in ordered <==> id in members)
    && 0 <= draw.numerator * |ordered| / draw.denominator < |ordered|
    && chosen == ordered[draw.numerator * |ordered| / draw.denominator]
  }

  /** What one record must satisfy behind those before it. */
  ghost predicate Allowed(before: Ledger, body: Body) {
    && (Sealed(before) ==> body.RunBody? && Declared(before, body.experiment, Final))
    && match body {
         case CandidateBody(candidate, parents) =>
           !Registered(before, candidate) && forall p :: p in parents ==> Registered(before, p)
         case ExperimentBody(experiment, _) =>
           !Declared(before, experiment, Development) && !Declared(before, experiment, Final)
         case RunBody(candidate, experiment, replicate, _) =>
           && Registered(before, candidate) && !Ran(before, candidate, experiment, replicate)
           && (Declared(before, experiment, Development) || Declared(before, experiment, Final))
         case ArchiveBody(experiment, members) =>
           Declared(before, experiment, Development) && forall id :: id in members ==> Registered(before, id)
         case AllocationBody(archive, draw, ordered, chosen) =>
           Current(before, archive) && DrawnFrom(before[archive].members, draw, ordered, chosen)
       }
  }

  // ----- the derived views

  lemma {:induction false} HasCandidateIff(records: Ledger, id: Id)
    ensures HasCandidate(records, id) <==> Registered(records, id)
  {
    if records != [] {
      var before := records[..|records| - 1];
      HasCandidateIff(before, id);
      assert forall q :: 0 <= q < |before| ==> before[q] == records[q];
    }
  }

  lemma {:induction false} HasRunIff(records: Ledger, candidate: Id, experiment: Id, replicate: Id)
    ensures HasRun(records, candidate, experiment, replicate) <==> Ran(records, candidate, experiment, replicate)
  {
    if records != [] {
      var before := records[..|records| - 1];
      HasRunIff(before, candidate, experiment, replicate);
      assert forall q :: 0 <= q < |before| ==> before[q] == records[q];
    }
  }

  /** No experiment is declared twice. */
  ghost predicate DeclaredOnce(records: Ledger) {
    forall i, j :: 0 <= i < j < |records| && records[i].ExperimentBody? && records[j].ExperimentBody? ==>
      records[i].experiment != records[j].experiment
  }

  lemma {:induction false} RoleIff(records: Ledger, experiment: Id, role: Role)
    requires DeclaredOnce(records)
    ensures RoleOf(records, experiment) == Some(role) <==> Declared(records, experiment, role)
  {
    if records != [] {
      var before, last := records[..|records| - 1], records[|records| - 1];
      assert forall q :: 0 <= q < |before| ==> before[q] == records[q];
      RoleIff(before, experiment, role);
    }
  }

  lemma {:induction false} SealedIff(records: Ledger)
    requires DeclaredOnce(records)
    ensures FinalRuns(records) != [] <==> Sealed(records)
  {
    hide RoleOf, Declared;
    if records != [] {
      var before, last := records[..|records| - 1], records[|records| - 1];
      assert forall q :: 0 <= q < |before| ==> before[q] == records[q] && before[..q] == records[..q];
      SealedIff(before);
      if last.RunBody? {
        RoleIff(before, last.experiment, Final);
      }
    }
  }

  lemma {:induction false} LatestIff(records: Ledger, archive: nat)
    requires archive < |records| && records[archive].ArchiveBody?
    ensures LatestArchive(records, records[archive].experiment) == Some(archive) <==>
      forall q :: archive < q < |records| ==>
        !(records[q].ArchiveBody? && records[q].experiment == records[archive].experiment)
  {
    var before, last := records[..|records| - 1], records[|records| - 1];
    if archive < |before| {
      LatestIff(before, archive);
      assert forall q :: 0 <= q < |before| ==> before[q] == records[q];
    }
  }

  lemma AllocationIff(before: Ledger, body: Body)
    requires body.AllocationBody?
    ensures AdmitsAllocation(before, body) <==>
      && Current(before, body.archive)
      && DrawnFrom(before[body.archive].members, body.draw, body.ordered, body.chosen)
  {
    if body.archive < |before| && before[body.archive].ArchiveBody? {
      LatestIff(before, body.archive);
      var members := before[body.archive].members;
      if members != map[] && Fair(body.draw) {
        var sorted := SortedIds(members.Keys);
        if Order.Ascending(body.ordered) && forall id :: id in body.ordered <==> id in members {
          AscendingSame(body.ordered, sorted);
        }
      }
    }
  }

  /** The roles of one experiment, both ways. */
  lemma RolesIff(before: Ledger, experiment: Id)
    requires DeclaredOnce(before)
    ensures RoleOf(before, experiment) == Some(Final) <==> Declared(before, experiment, Final)
    ensures RoleOf(before, experiment) == Some(Development) <==> Declared(before, experiment, Development)
    ensures RoleOf(before, experiment).None? <==>
      !Declared(before, experiment, Development) && !Declared(before, experiment, Final)
  {
    RoleIff(before, experiment, Final);
    RoleIff(before, experiment, Development);
    var role := RoleOf(before, experiment);
    assert role.Some? ==> role.value.Development? || role.value.Final?;
  }

  lemma AdmitsIff(before: Ledger, body: Body)
    requires DeclaredOnce(before)
    ensures Admits(before, body) <==> Allowed(before, body)
  {
    SealedIff(before);
    hide HasCandidate, HasRun, RoleOf, FinalRuns, AdmitsAllocation, Registered, Ran, Declared, Sealed, Current,
      DeclaredOnce, DrawnFrom;
    match body {
      case CandidateBody(candidate, parents) =>
        HasCandidateIff(before, candidate);
        forall p | p in parents ensures HasCandidate(before, p) <==> Registered(before, p) {
          HasCandidateIff(before, p);
        }
      case ExperimentBody(experiment, _) => RolesIff(before, experiment);
      case RunBody(candidate, experiment, replicate, _) =>
        RolesIff(before, experiment);
        HasCandidateIff(before, candidate);
        HasRunIff(before, candidate, experiment, replicate);
      case ArchiveBody(experiment, members) =>
        RolesIff(before, experiment);
        forall id | id in members ensures HasCandidate(before, id) <==> Registered(before, id) {
          HasCandidateIff(before, id);
        }
      case AllocationBody(_, _, _, _) => AllocationIff(before, body);
    }
  }

  /** A ledger is accepted exactly when every record is allowed behind those before it. */
  lemma {:induction false} LoadsIff(records: Ledger)
    ensures Loads(records) <==> forall p :: 0 <= p < |records| ==> Allowed(records[..p], records[p])
    ensures Loads(records) ==> DeclaredOnce(records)
  {
    hide Allowed, Admits;
    if records != [] {
      var before, last := records[..|records| - 1], records[|records| - 1];
      LoadsIff(before);
      assert forall p :: 0 <= p < |before| ==> before[..p] == records[..p] && before[p] == records[p];
      if Loads(before) {
        AdmitsIff(before, last);
        if Admits(before, last) {
          StaysOnce(records);
        }
      }
    }
  }

  lemma StaysOnce(records: Ledger)
    requires records != [] && DeclaredOnce(records[..|records| - 1])
    requires Admits(records[..|records| - 1], records[|records| - 1])
    ensures DeclaredOnce(records)
  {
    var before, last := records[..|records| - 1], records[|records| - 1];
    assert forall q :: 0 <= q < |before| ==> before[q] == records[q];
    if last.ExperimentBody? {
      RolesIff(before, last.experiment);
      forall i | 0 <= i < |before| && before[i].ExperimentBody? ensures before[i].experiment != last.experiment {
        assert before[i] == ExperimentBody(before[i].experiment, before[i].role);
        assert before[i].role.Development? || before[i].role.Final?;
      }
    }
  }
}
