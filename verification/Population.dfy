/** `apps/population`: the append-only ledger of candidates, experiments, runs, archives and allocations.

    A record's identity is its position: records are hash-linked and carry their sequence number. */
module Population {
  import opened Text
  import opened FinalSelection

  datatype Role = Development | Final

  /** The `seed` of a protected run. */
  datatype Seed = Seed(allocation: nat, draw: Draw, tie: Draw)

  /** The sealed receipt document that a protected run's evidence names by digest. */
  datatype Bundle = Bundle(allocation: nat, candidate: Id, draw: Draw, finalists: seq<Id>, tie: Draw)

  datatype Evidence = Ordinary | Protected(seed: Seed, bundle: Bundle)

  datatype Body =
    | CandidateBody(candidate: Id, parents: seq<Id>)
    | ExperimentBody(experiment: Id, role: Role)
    | RunBody(candidate: Id, experiment: Id, replicate: Id, evidence: Evidence)
    | ArchiveBody(experiment: Id, members: Members)
    | AllocationBody(archive: nat, draw: Draw, ordered: seq<Id>, chosen: Id)

  type Ledger = seq<Body>

  // ----- what `load_state` derives from the records, newest record last

  predicate HasCandidate(records: Ledger, id: Id) {
    records != [] &&
    (HasCandidate(records[..|records| - 1], id)
     || (records[|records| - 1].CandidateBody? && records[|records| - 1].candidate == id))
  }

  function RoleOf(records: Ledger, experiment: Id): Option<Role> {
    if records == [] then None
    else
      var last := records[|records| - 1];
      if last.ExperimentBody? && last.experiment == experiment then Some(last.role)
      else RoleOf(records[..|records| - 1], experiment)
  }

  predicate HasRun(records: Ledger, candidate: Id, experiment: Id, replicate: Id) {
    records != [] &&
    var last := records[|records| - 1];
    (HasRun(records[..|records| - 1], candidate, experiment, replicate)
     || (last.RunBody? && last.candidate == candidate && last.experiment == experiment && last.replicate == replicate))
  }

  /** Identities of the experiments declared with the final role, oldest first. */
  function FinalExperiments(records: Ledger): seq<Id> {
    if records == [] then []
    else
      var last := records[|records| - 1];
      FinalExperiments(records[..|records| - 1])
      + (if last.ExperimentBody? && last.role == Final then [last.experiment] else [])
  }

  /** Positions of the runs of final experiments; non-empty exactly when `final_evaluation_started`. */
  function FinalRuns(records: Ledger): (runs: seq<nat>)
    ensures forall k :: 0 <= k < |runs| ==> runs[k] < |records| && records[runs[k]].RunBody?
  {
    if records == [] then []
    else
      var before, last := records[..|records| - 1], records[|records| - 1];
      FinalRuns(before)
      + (if last.RunBody? && RoleOf(before, last.experiment) == Some(Final) then [|records| - 1] else [])
  }

  function LatestArchive(records: Ledger, experiment: Id): (at: Option<nat>)
    ensures at.Some? ==>
      at.value < |records| && records[at.value].ArchiveBody?
      && records[at.value].experiment == experiment
  {
    if records == [] then None
    else
      var last := records[|records| - 1];
      if last.ArchiveBody? && last.experiment == experiment then Some(|records| - 1)
      else LatestArchive(records[..|records| - 1], experiment)
  }

  /** Positions of the allocations recorded after position `archive`, in order. */
  function Trailing(records: Ledger, archive: nat): (positions: seq<nat>)
    ensures forall k :: 0 <= k < |positions| ==>
      archive < positions[k] < |records| && records[positions[k]].AllocationBody?
  {
    if |records| <= archive + 1 then []
    else
      Trailing(records[..|records| - 1], archive)
      + (if records[|records| - 1].AllocationBody? then [|records| - 1] else [])
  }

  /** New evidence for the experiment arrived after its archive was taken. */
  predicate Stale(records: Ledger, archive: nat)
    requires archive < |records| && records[archive].ArchiveBody?
  {
    exists p :: archive < p < |records| && records[p].RunBody? && records[p].experiment == records[archive].experiment
  }

  // ----- `_apply_record`

  predicate AdmitsAllocation(records: Ledger, body: Body)
    requires body.AllocationBody?
  {
    && body.archive < |records|
    && records[body.archive].ArchiveBody?
    && LatestArchive(records, records[body.archive].experiment) == Some(body.archive)
    && !Stale(records, body.archive)
    && records[body.archive].members != map[]
    && Fair(body.draw)
    && body.ordered == SortedIds(records[body.archive].members.Keys)
    && body.chosen == Allocated(records[body.archive].members, body.draw)
  }

  /** `_apply_record` accepts the body as the next record. */
  predicate Admits(records: Ledger, body: Body) {
    && (FinalRuns(records) != [] ==> body.RunBody?)
    && match body {
         case CandidateBody(candidate, parents) =>
           !HasCandidate(records, candidate) && forall p :: p in parents ==> HasCandidate(records, p)
         case ExperimentBody(experiment, _) =>
           RoleOf(records, experiment).None?
         case RunBody(candidate, experiment, replicate, _) =>
           && HasCandidate(records, candidate)
           && RoleOf(records, experiment).Some?
           && !HasRun(records, candidate, experiment, replicate)
           && (FinalRuns(records) != [] ==> RoleOf(records, experiment) == Some(Final))
         case ArchiveBody(experiment, members) =>
           && RoleOf(records, experiment) == Some(Development)
           && forall id :: id in members ==> HasCandidate(records, id)
         case AllocationBody(_, _, _, _) =>
           AdmitsAllocation(records, body)
       }
  }

  /** `load_state` accepts the records. */
  predicate Loads(records: Ledger) {
    records != [] ==>
      Loads(records[..|records| - 1]) && Admits(records[..|records| - 1], records[|records| - 1])
  }

  /** How each derived view moves when one record is appended. */
  lemma Grow(records: Ledger, body: Body)
    ensures var next := records + [body];
      && next[..|records|] == records
      && (Loads(next) <==> Loads(records) && Admits(records, body))
      && (forall id :: HasCandidate(next, id) <==>
            HasCandidate(records, id) || (body.CandidateBody? && body.candidate == id))
      && (forall e :: RoleOf(next, e) ==
                      if body.ExperimentBody? && body.experiment == e then Some(body.role) else RoleOf(records, e))
      && (forall c, e, r :: HasRun(next, c, e, r) <==>
            HasRun(records, c, e, r)
            || (body.RunBody? && body.candidate == c && body.experiment == e && body.replicate == r))
      && FinalExperiments(next) ==
           FinalExperiments(records) + (if body.ExperimentBody? && body.role == Final then [body.experiment] else [])
      && FinalRuns(next) == FinalRuns(records)
           + (if body.RunBody? && RoleOf(records, body.experiment) == Some(Final) then [|records|] else [])
      && (forall e :: LatestArchive(next, e) ==
                      if body.ArchiveBody? && body.experiment == e then Some(|records|) else LatestArchive(records, e))
      && (forall a: nat :: a < |records| ==>
            Trailing(next, a) == Trailing(records, a) + (if body.AllocationBody? then [|records|] else []))
  {
    assert (records + [body])[..|records|] == records;
  }

  /** In an accepted ledger every run belongs to an experiment declared before it. */
  lemma {:induction false} RunsAreOfDeclaredExperiments(records: Ledger, candidate: Id, experiment: Id, replicate: Id)
    requires Loads(records) && HasRun(records, candidate, experiment, replicate)
    ensures RoleOf(records, experiment).Some?
  {
    var before, last := records[..|records| - 1], records[|records| - 1];
    if HasRun(before, candidate, experiment, replicate) {
      RunsAreOfDeclaredExperiments(before, candidate, experiment, replicate);
    }
  }

  /** In an accepted ledger every archived member is a registered candidate. */
  lemma {:induction false} MembersAreCandidates(records: Ledger, at: nat, id: Id)
    requires Loads(records) && at < |records| && records[at].ArchiveBody? && id in records[at].members
    ensures HasCandidate(records, id)
  {
    if at < |records| - 1 {
      MembersAreCandidates(records[..|records| - 1], at, id);
    }
  }

  lemma SealedStep(records: Ledger, body: Body)
    requires Loads(records + [body]) && FinalRuns(records) != []
    ensures Loads(records) && FinalRuns(records + [body]) == FinalRuns(records) + [|records|]
  {
    Grow(records, body);
    hide Loads, FinalRuns, RoleOf;
    assert Admits(records, body);
  }

  /** Search is sealed once a final run is recorded: whatever is accepted later is another final run. */
  lemma {:induction false} SealIsPermanent(records: Ledger, later: Ledger)
    requires Loads(records + later) && FinalRuns(records) != []
    ensures Loads(records)
    ensures FinalRuns(records + later) == FinalRuns(records) + seq(|later|, i => |records| + i)
    decreases |later|
  {
    hide FinalRuns, Loads;
    if later == [] {
      assert records + later == records;
    } else {
      var shorter, body := later[..|later| - 1], later[|later| - 1];
      assert records + later == records + shorter + [body];
      assert Loads(records + shorter + [body]);
      Unsealed(records + shorter, body);
      SealIsPermanent(records, shorter);
      SealedStep(records + shorter, body);
      assert seq(|later|, i => |records| + i) == seq(|shorter|, i => |records| + i) + [|records + shorter|];
    }
  }

  lemma Unsealed(records: Ledger, body: Body)
    requires Loads(records + [body])
    ensures Loads(records)
  {
    assert (records + [body])[..|records|] == records;
  }

  /** The ledger file together with its directory lock. */
  class Store {
    var records: Ledger

    ghost predicate Valid()
      reads this
    {
      Loads(records)
    }

    constructor (initial: Ledger)
      requires Loads(initial)
      ensures Valid() && records == initial
    {
      records := initial;
    }

    /** `append_validated_record`: append one body, or refuse it and change nothing. */
    method Append(body: Body) returns (at: Option<nat>)
      requires Valid()
      modifies this
      ensures Valid()
      ensures at.Some? <==> Admits(old(records), body)
      ensures at.Some? ==> at.value == |old(records)| && records == old(records) + [body]
      ensures at.None? ==> records == old(records)
    {
      if !Admits(records, body) {
        return None;
      }
      Grow(records, body);
      at := Some(|records|);
      records := records + [body];
    }
  }
}
