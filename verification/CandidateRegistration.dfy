/** `ExperimentView.__init__`: the candidate records of one ledger become a forest registered parents-first. */
module CandidateRegistration {
  import opened Text
  import opened TraceLabels
  import opened Journal

  /** A ledger record, as far as registration reads it: `parents` is absent when it is no list of strings. */
  datatype Record = Other | Candidate(id: Id, parents: Option<seq<Id>>)

  /** The candidate records, in ledger order. */
  function Candidates(records: seq<Record>): seq<Record> {
    if records == [] then []
    else Candidates(records[..|records| - 1]) + if records[|records| - 1].Other? then [] else [records[|records| - 1]]
  }

  function EntryOf(r: Record): Entry
    requires r.Candidate?
  {
    Entry(r.id, if r.parents.None? || r.parents.value == [] then None else Some(r.parents.value[0]))
  }

  /** The forest is the candidate records, each with at most one parent. */
  ghost predicate Lists(records: seq<Record>, forest: seq<Entry>) {
    var candidates := Candidates(records);
    && |forest| == |candidates|
    && forall i :: 0 <= i < |forest| ==>
         && candidates[i].Candidate? && candidates[i].parents.Some? && |candidates[i].parents.value| <= 1
         && IsSha256(candidates[i].id) && forest[i] == EntryOf(candidates[i])
  }

  lemma ListsMore(records: seq<Record>, i: nat, forest: seq<Entry>)
    requires i < |records| && Lists(records[..i], forest)
    ensures records[i].Other? ==> Lists(records[..i + 1], forest)
    ensures
      records[i].Candidate? && records[i].parents.Some?
      && |records[i].parents.value| <= 1 && IsSha256(records[i].id) ==>
      Lists(records[..i + 1], forest + [EntryOf(records[i])])
  {
    hide IsSha256;
    assert records[..i + 1][..i] == records[..i];
  }

  lemma RegisterOne(forest: seq<Entry>, e: Entry)
    requires ParentsFirst(forest) && !Registered(forest, e.id)
    requires e.parent.Some? ==> Registered(forest, e.parent.value)
    ensures ParentsFirst(forest + [e])
  {
    var more := forest + [e];
    forall i | 0 <= i < |more| && more[i].parent.Some? ensures Registered(more[..i], more[i].parent.value) {
      if i < |forest| {
        assert more[..i] == forest[..i];
      } else {
        assert more[..i] == forest;
      }
    }
  }

  lemma {:induction false} CandidatesGrow(records: seq<Record>, count: nat)
    requires count <= |records|
    ensures Candidates(records[..count]) <= Candidates(records)
  {
    if count < |records| {
      assert records[..|records| - 1][..count] == records[..count];
      CandidatesGrow(records[..|records| - 1], count);
    } else {
      assert records[..count] == records;
    }
  }

  /** The record at `i` breaks the rule, given the forest registered before it. */
  predicate Unregistrable(forest: seq<Entry>, r: Record) {
    r.Candidate? &&
    (|| !IsSha256(r.id) || Registered(forest, r.id)
     || r.parents.None? || |r.parents.value| > 1
     || (|r.parents.value| == 1 && !Registered(forest, r.parents.value[0])))
  }

  lemma NoForest(records: seq<Record>, i: nat, forest: seq<Entry>, other: seq<Entry>)
    requires i < |records| && Lists(records[..i], forest) && Unregistrable(forest, records[i])
    requires Lists(records, other)
    ensures !ParentsFirst(other)
  {
    hide IsSha256;
    assert records[..i + 1][..i] == records[..i];
    CandidatesGrow(records, i + 1);
    var n := |forest|;
    assert Candidates(records[..i + 1]) == Candidates(records[..i]) + [records[i]];
    assert Candidates(records)[..n] == Candidates(records[..i]) && Candidates(records)[n] == records[i];
    assert other[n] == EntryOf(records[i]);
    forall k | 0 <= k < n ensures other[k] == forest[k] {
      assert Candidates(records)[k] == Candidates(records[..i])[k];
    }
    assert other[..n] == forest;
    if Registered(forest, records[i].id) {
      var k :| 0 <= k < n && forest[k].id == records[i].id;
      assert other[k].id == other[n].id;
    }
  }

  /** The loop over the population records: it succeeds exactly when they make a forest registered parents-first. */
  method Register(records: seq<Record>) returns (r: Option<seq<Entry>>)
    ensures r.Some? ==> Lists(records, r.value) && ParentsFirst(r.value)
    ensures r.None? ==> !exists forest :: Lists(records, forest) && ParentsFirst(forest)
  {
    hide IsSha256, Registered;
    var forest: seq<Entry> := [];
    for i := 0 to |records|
      invariant Lists(records[..i], forest) && ParentsFirst(forest)
    {
      hide ParentsFirst, Lists;
      ListsMore(records, i, forest);
      if records[i].Candidate? {
        if Unregistrable(forest, records[i]) {
          forall other | Lists(records, other) ensures !ParentsFirst(other) {
            NoForest(records, i, forest, other);
          }
          return None;
        }
        RegisterOne(forest, EntryOf(records[i]));
        forest := forest + [EntryOf(records[i])];
      }
    }
    assert records[..|records|] == records;
    return Some(forest);
  }
}
