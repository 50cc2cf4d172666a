/** Whole histories of the evolution ledger: interruptions are invisible, the limits hold, and the
    last identity pins every record. */
module EvolverRuns {
  import opened Text
  import opened Wire
  import opened WireRoundTrip
  import opened WireCanonical
  import opened Journal
  import opened JsonChecks
  import opened Ledger
  import opened Evolver

  /** Stopping after `a` and resuming with `b` is one run fed `a` and `b`. */
  lemma {:induction false} RunConcat(w: World, c: Config, records: seq<Json>, a: seq<Fields>, b: seq<Fields>)
    ensures Run(w, c, records, a + b) ==
      if Run(w, c, records, a).None? then None else Run(w, c, Run(w, c, records, a).value, b)
  {
    hide Extend;
    if b == [] {
      assert a + b == a;
    } else {
      assert (a + b)[..|a + b| - 1] == a + b[..|b| - 1];
      RunConcat(w, c, records, a, b[..|b| - 1]);
    }
  }

  /** The ledger after a history of separate runs, each given by the answers it accepted. */
  function History(w: World, c: Config, records: seq<Json>, runs: seq<seq<Fields>>): Option<seq<Json>> {
    if runs == [] then Some(records) else
      var before := History(w, c, records, runs[..|runs| - 1]);
      if before.None? then None else Run(w, c, before.value, runs[|runs| - 1])
  }

  function AllAnswers(runs: seq<seq<Fields>>): seq<Fields> {
    if runs == [] then [] else AllAnswers(runs[..|runs| - 1]) + runs[|runs| - 1]
  }

  /** However often the loop is interrupted and restarted, its ledger is the one a single
      uninterrupted run with the same Controller answers writes. */
  lemma {:induction false} InterruptionsInvisible(w: World, c: Config, records: seq<Json>, runs: seq<seq<Fields>>)
    requires History(w, c, records, runs).Some?
    ensures Run(w, c, records, AllAnswers(runs)) == History(w, c, records, runs)
  {
    hide Extend;
    if runs != [] {
      InterruptionsInvisible(w, c, records, runs[..|runs| - 1]);
      RunConcat(w, c, records, AllAnswers(runs[..|runs| - 1]), runs[|runs| - 1]);
    }
  }

  // ----- the limits

  function ResultOf(record: Json): Fields {
    if record.Obj? && Get(record.fields, Key("controller_result")).Obj? then
      Get(record.fields, Key("controller_result")).fields
    else map[]
  }

  /** How many records at the end of the ledger kept the incumbent. */
  function TrailingRejections(records: seq<Json>): nat {
    if |records| <= 1 || !Retains(ResultOf(records[|records| - 1])) then 0
    else 1 + TrailingRejections(records[..|records| - 1])
  }

  /** Replay counts the generations and the trailing rejections of the ledger. */
  lemma {:induction false} ReplayCounts(w: World, c: Config, records: seq<Json>)
    requires Replay(w, c, records).Some?
    ensures Replay(w, c, records).value.generations == |records| - 1
    ensures Replay(w, c, records).value.rejections == TrailingRejections(records)
  {
    hide ControllerRequest, PythonEqual, ValidateRecord, Retains, Feedback;
    if |records| > 1 {
      ReplayCounts(w, c, records[..|records| - 1]);
    }
  }

  /** Every record a run appended was appended below both limits. */
  lemma {:induction false} RunWithinLimits(w: World, c: Config, start: seq<Json>, answers: seq<Fields>)
    requires Run(w, c, start, answers).Some?
    ensures var ledger := Run(w, c, start, answers).value;
      && |ledger| == |start| + |answers| && start <= ledger
      && forall k :: |start| <= k < |ledger| ==>
           k <= c.maxGenerations && TrailingRejections(ledger[..k]) < c.maxRejections
  {
    hide Advance, NextRecord, Replay, TrailingRejections;
    var ledger := Run(w, c, start, answers).value;
    if answers != [] {
      var before := Run(w, c, start, answers[..|answers| - 1]).value;
      RunWithinLimits(w, c, start, answers[..|answers| - 1]);
      ReplayCounts(w, c, before);
      assert ledger[..|before|] == before;
      forall k | |start| <= k < |ledger|
        ensures k <= c.maxGenerations && TrailingRejections(ledger[..k]) < c.maxRejections {
        if k < |before| {
          assert ledger[..k] == before[..k];
        } else {
          assert ledger[..k] == before;
        }
      }
    } else {
      assert ledger == start;
    }
  }

  /** A ledger started from its header holds at most `max_generations` generations, and no generation
      follows `max_consecutive_rejections` rejections in a row. */
  lemma LedgerWithinLimits(w: World, c: Config, answers: seq<Fields>)
    requires Run(w, c, [Header(w, c)], answers).Some?
    ensures var ledger := Run(w, c, [Header(w, c)], answers).value;
      && |ledger| - 1 == |answers| <= c.maxGenerations
      && forall k :: 1 <= k < |ledger| ==> TrailingRejections(ledger[..k]) < c.maxRejections
  {
    hide Run, TrailingRejections, Header;
    RunWithinLimits(w, c, [Header(w, c)], answers);
    var ledger := Run(w, c, [Header(w, c)], answers).value;
    if answers != [] {
      assert TrailingRejections(ledger[..|ledger| - 1]) < c.maxRejections;
    }
  }

  /** Replaying a run's ledger gives the loop variables the run itself ended with, so the ledger is
      never refused and nothing is lost or invented by a restart. */
  lemma {:induction false} RunReplays(w: World, c: Config, start: seq<Json>, answers: seq<Fields>)
    requires HexOutput(w.sha) && Replay(w, c, start).Some? && Run(w, c, start, answers).Some?
    ensures Replay(w, c, Run(w, c, start, answers).value) == Live(w, c, Replay(w, c, start).value, answers)
    ensures Replay(w, c, Run(w, c, start, answers).value).Some?
  {
    hide Advance, NextRecord, Replay, IdOf;
    if answers != [] {
      var init := answers[..|answers| - 1];
      RunReplays(w, c, start, init);
      StepReplays(w, c, Run(w, c, start, init).value, answers[|answers| - 1]);
    }
  }

  /** The loop variables after these answers, computed without any ledger. */
  function Live(w: World, c: Config, st: State, answers: seq<Fields>): Option<State> {
    if answers == [] then Some(st) else
      var before := Live(w, c, st, answers[..|answers| - 1]);
      if before.None? then None
      else Advance(w, c, before.value, answers[|answers| - 1],
        IdOf(NextRecord(w, c, before.value, answers[|answers| - 1])))
  }

  // ----- the last identity pins the ledger

  /** The texts whose digests are the identities of these two records: different texts, one digest. */
  predicate BodiesCollide(sha: Sha, a: Fields, b: Fields) {
    var x, y := Print(Obj(BodyOf(a))), Print(Obj(BodyOf(b)));
    x != y && sha(x) == sha(y)
  }

  /** A record of one ledger and the record at the same place counted from the end of the other collide. */
  ghost predicate LedgersCollide(sha: Sha, a: seq<Json>, b: seq<Json>) {
    exists i: nat, j: nat :: i < |a| && j < |b| && |a| - i == |b| - j && RecordsCollide(sha, a[i], b[j])
  }

  predicate RecordsCollide(sha: Sha, a: Json, b: Json) {
    a.Obj? && b.Obj? && BodiesCollide(sha, a.fields, b.fields)
  }

  lemma ValidRecordPinned(sha: Sha, a: Fields, b: Fields)
    requires ValidateRecord(sha, a).Some? && ValidateRecord(sha, a) == ValidateRecord(sha, b)
      && !BodiesCollide(sha, a, b)
    requires Clean(Obj(a)) && Clean(Obj(b))
    ensures a == b
  {
    hide Print, Clean, IsSha256;
    assert Print(Obj(BodyOf(a))) == Print(Obj(BodyOf(b)));
    assert Clean(Obj(BodyOf(a))) && Clean(Obj(BodyOf(b))) by {
      BodyClean(a);
      BodyClean(b);
    }
    PrintInjective(Obj(BodyOf(a)), Obj(BodyOf(b)));
    assert forall k :: k in a <==> k == RECORD_ID || k in BodyOf(a);
    assert forall k :: k in b <==> k == RECORD_ID || k in BodyOf(b);
    assert forall k :: k in BodyOf(a) ==> BodyOf(a)[k] == a[k];
    assert forall k :: k in BodyOf(b) ==> BodyOf(b)[k] == b[k];
  }

  lemma BodyClean(record: Fields)
    requires Clean(Obj(record))
    ensures Clean(Obj(BodyOf(record)))
  {
  }

  lemma LastIdOf(w: World, c: Config, records: seq<Json>)
    requires Replay(w, c, records).Some?
    ensures records != [] && records[|records| - 1].Obj?
    ensures ValidateRecord(w.sha, records[|records| - 1].fields) == Some(Replay(w, c, records).value.lastId)
    ensures |records| > 1 ==>
      Replay(w, c, records[..|records| - 1]).Some? &&
      Get(records[|records| - 1].fields, Key("parent_record_id")) ==
        Str(Replay(w, c, records[..|records| - 1]).value.lastId)
    ensures Key("parent_record_id") in records[|records| - 1].fields.Keys <==> |records| > 1
  {
    hide ControllerRequest, PythonEqual, Feedback, Retains, Digest, IsSha256, ConfigId;
    assert Key("parent_record_id") !in HEADER_KEYS by {
      assert |Key("parent_record_id")| == 16;
    }
  }

  /** Two ledgers that replay and end in the same record identity are equal record for record, even
      under different requests and Controllers, unless the bodies of a record of each, at the same distance
      from the end, are two different texts with one digest. */
  lemma {:induction false} HeadPinsLedger(w: World, c: Config, w': World, c': Config, a: seq<Json>, b: seq<Json>)
    requires w.sha == w'.sha && Replay(w, c, a).Some? && Replay(w', c', b).Some?
    requires AllStorable(a) && AllStorable(b)
    requires Replay(w, c, a).value.lastId == Replay(w', c', b).value.lastId
    ensures a == b || LedgersCollide(w.sha, a, b)
    decreases |a|
  {
    hide Replay, Clean, ValidateRecord, BodiesCollide;
    LastIdOf(w, c, a);
    LastIdOf(w', c', b);
    var m, n := |a| - 1, |b| - 1;
    assert Storable(a[m]) && Storable(b[n]);
    if BodiesCollide(w.sha, a[m].fields, b[n].fields) {
      assert RecordsCollide(w.sha, a[m], b[n]);
    } else {
      ValidRecordPinned(w.sha, a[m].fields, b[n].fields);
      assert a[m] == b[n];
      assert m > 0 <==> n > 0;
      if m > 0 {
        HeadPinsLedger(w, c, w', c', a[..m], b[..n]);
        assert a == a[..m] + [a[m]] && b == b[..n] + [b[n]];
        if LedgersCollide(w.sha, a[..m], b[..n]) {
          CollideBelow(w.sha, a, b);
        }
      }
    }
  }

  lemma CollideBelow(sha: Sha, a: seq<Json>, b: seq<Json>)
    requires a != [] && b != [] && LedgersCollide(sha, a[..|a| - 1], b[..|b| - 1])
    ensures LedgersCollide(sha, a, b)
  {
    hide RecordsCollide;
    var c, d := a[..|a| - 1], b[..|b| - 1];
    var i: nat, j: nat :| i < |c| && j < |d| && |c| - i == |d| - j && RecordsCollide(sha, c[i], d[j]);
    assert RecordsCollide(sha, a[i], b[j]);
  }
}
