/** `evolver.evolve`: bounded runs over one ledger file, interrupted and resumed. */
module Evolver {
  import opened Text
  import opened Wire
  import opened WireRoundTrip
  import opened WireCanonical
  import opened Journal
  import opened JsonChecks
  import opened Ledger

  /** The loop guard, the clock aside. */
  predicate MayStep(c: Config, st: State) {
    st.rejections < c.maxRejections && st.generations < c.maxGenerations
  }

  /** The ledger one loop round makes of `records` when the Controller answers `result`; None when the
      round is not allowed or the answer is refused. */
  function Extend(w: World, c: Config, records: seq<Json>, result: Fields): Option<seq<Json>> {
    var st := Replay(w, c, records);
    if st.None? || !MayStep(c, st.value) then None
    else
      var record := NextRecord(w, c, st.value, result);
      if Advance(w, c, st.value, result, IdOf(record)).None? then None else Some(records + [record])
  }

  /** One uninterrupted loop fed these Controller answers. */
  function Run(w: World, c: Config, records: seq<Json>, answers: seq<Fields>): Option<seq<Json>> {
    if answers == [] then Some(records) else
      var before := Run(w, c, records, answers[..|answers| - 1]);
      if before.None? then None else Extend(w, c, before.value, answers[|answers| - 1])
  }

  // ----- what the model takes from SHA-256 and from the Controller contract

  /** Digests are hexadecimal; an accepted answer yields feedback and a next parent without split
      surrogate pairs (both are decoded from the answer itself). */
  ghost predicate Trusted(w: World) {
    && HexOutput(w.sha)
    && (forall request, result, n :: w.validate(request, Obj(result)).Some? ==> Feedback(result, n).Some?)
    && (forall request, result :: w.validate(request, result).Some? && Clean(result) ==>
      Clean(w.validate(request, result).value.artifact))
  }

  /** The strings of a decoded request are encodable, so none splits a surrogate pair. */
  ghost predicate CleanConfig(c: Config) {
    && Clean(c.evaluation) && Clean(c.evaluator) && Clean(c.runner) && Clean(c.policy) && Clean(c.tasks)
    && Clean(c.command) && Clean(c.context) && Clean(c.timeout) && Clean(c.initialParent.artifact)
  }

  // ----- the state file

  class StateFile {
    /** None while the file does not exist. */
    var content: Option<seq<Code>>

    constructor ()
      ensures content == None
    {
      content := None;
    }

    /** `append_fsynced(path, record, create_if_missing=True)`. */
    method Append(record: Json)
      modifies this
      ensures content == Some((if old(content).None? then [] else old(content).value) + LineOf(record))
    {
      content := Some((if content.None? then [] else content.value) + LineOf(record));
    }
  }

  /** The file reads back as exactly these records. */
  ghost predicate Holds(content: Option<seq<Code>>, records: seq<Json>) {
    ReadFile(content) == Records(records)
  }

  datatype Status = RejectionLimit | GenerationLimit | WallClockLimit
  datatype Trouble = Unreadable | BadLedger | ControllerFailed | BadAnswer | BadFeedback
  datatype Outcome =
    | Finished(status: Status, st: State)
    | Failed(trouble: Trouble)

  /** `_run_controller`: the answer when its text is the canonical line of one object. */
  function Answer(source: Option<seq<Code>>): Option<Fields> {
    if source.None? || Decode(source.value).Err? then None
    else if source.value != LineOf(Decode(source.value).value) then None
    else if !Decode(source.value).value.Obj? then None
    else Some(Decode(source.value).value.fields)
  }

  // ----- what a run was asked and told

  /** The request of the loop round these loop variables begin. */
  function RoundRequest(c: Config, st: State): Json {
    ControllerRequest(c, st.parent, st.generations + 1, st.feedback)
  }

  function StateAfter(w: World, c: Config, start: seq<Json>, answers: seq<Fields>): Option<State> {
    var ledger := Run(w, c, start, answers);
    if ledger.None? then None else Replay(w, c, ledger.value)
  }

  /** Each answer is what the Controller said in its round to the request its predecessors led to, in time. */
  ghost predicate Told(w: World, c: Config, start: seq<Json>, answers: seq<Fields>,
                       controller: (Json, nat) -> Option<seq<Code>>, expired: nat -> bool) {
    forall k :: 0 <= k < |answers| ==>
      var st := StateAfter(w, c, start, answers[..k]);
      st.Some? && !expired(k) && Answer(controller(RoundRequest(c, st.value), k)) == Some(answers[k])
  }

  /** What ended the loop, in the order in which round `n` tests it. */
  ghost predicate StopsFor(w: World, c: Config, outcome: Outcome, st: State, n: nat,
                           controller: (Json, nat) -> Option<seq<Code>>, expired: nat -> bool) {
    var answer := Answer(controller(RoundRequest(c, st), n));
    if st.rejections >= c.maxRejections then outcome == Finished(RejectionLimit, st)
    else if st.generations >= c.maxGenerations then outcome == Finished(GenerationLimit, st)
    else if expired(n) then outcome == Finished(WallClockLimit, st)
    else if answer.None? then outcome == Failed(ControllerFailed)
    else outcome == Failed(BadAnswer) && w.validate(RoundRequest(c, st), Obj(answer.value)).None?
  }

  /** `evolve`. The Controller and the clock may answer differently on every call; `answers` are the
      Controller answers this run accepted. */
  method Evolve(w: World, c: Config, file: StateFile, controller: (Json, nat) -> Option<seq<Code>>,
      expired: nat -> bool)
    returns (outcome: Outcome, ghost answers: seq<Fields>)
    requires Trusted(w) && CleanConfig(c)
    modifies file
    ensures var read := ReadFile(old(file.content));
      var start := if read.Records? && read.records != [] then read.records else [Header(w, c)];
      if !read.Records? then
        outcome == Failed(Unreadable) && file.content == old(file.content)
      else if Replay(w, c, start).None? then
        outcome == Failed(BadLedger) && file.content == old(file.content)
      else
        var ledger := Run(w, c, start, answers);
        && ledger.Some? && Holds(file.content, ledger.value)
        && Replay(w, c, ledger.value).Some?
        && Told(w, c, start, answers, controller, expired)
        && StopsFor(w, c, outcome, Replay(w, c, ledger.value).value, |answers|, controller, expired)
  {
    hide Holds, Replay, Header, Extend, Advance, NextRecord, Answer, ReadFile, ControllerRequest, FileOf, LineOf,
      Feedback,
      Told;
    answers := [];
    var read := ReadFile(file.content);
    if !read.Records? {
      return Failed(Unreadable), answers;
    }
    var records := read.records;
    ReadIs(file.content, records);
    if records == [] {
      var header := Header(w, c);
      HeaderHeld(w, c);
      HeaderReplays(w, c);
      file.Append(header);
      records := [header];
    }
    var verified := VerifyLedger(w, c, records);
    if verified.None? {
      return Failed(BadLedger), answers;
    }
    var st := verified.value;
    HeldStorable(file.content, records);
    ReplayClean(w, c, records);
    ghost var start, ledger := records, records;
    var round: nat := 0;
    NothingTold(w, c, start, controller, expired);
    while true
      invariant Run(w, c, start, answers) == Some(ledger)
      invariant Holds(file.content, ledger)
      invariant Replay(w, c, ledger) == Some(st)
      invariant CleanState(st) && IsSha256(st.lastId)
      invariant round == |answers| && Told(w, c, start, answers, controller, expired)
      decreases c.maxGenerations - st.generations
    {
      if st.rejections >= c.maxRejections {
        return Finished(RejectionLimit, st), answers;
      }
      if st.generations >= c.maxGenerations {
        return Finished(GenerationLimit, st), answers;
      }
      if expired(round) {
        return Finished(WallClockLimit, st), answers;
      }
      var generation := st.generations + 1;
      var request := ControllerRequest(c, st.parent, generation, st.feedback);
      var result := Answer(controller(request, round));
      if result.None? {
        return Failed(ControllerFailed), answers;
      }
      var next := w.validate(request, Obj(result.value));
      if next.None? {
        return Failed(BadAnswer), answers;
      }
      var record := NextRecord(w, c, st, result.value);
      ghost var before := st;
      ReplayNonEmpty(w, c, ledger);
      StepHeld(w, c, ledger, st, result.value, controller(request, round), file.content);
      file.Append(record);
      var feedback := Feedback(result.value, generation);
      if feedback.None? {
        return Failed(BadFeedback), answers;
      }
      st := State(next.value, feedback, generation, if Retains(result.value) then st.rejections + 1 else 0,
        IdOf(record));
      AdvanceIs(w, c, before, result.value, IdOf(record), next, feedback);
      RunStep(w, c, start, answers, ledger, before, result.value);
      AdvanceClean(w, c, before, result.value);
      ToldMore(w, c, start, answers, before, result.value, controller, expired);
      answers := answers + [result.value];
      ledger := ledger + [record];
      round := round + 1;
    }
  }

  lemma NothingTold(w: World, c: Config, start: seq<Json>, controller: (Json, nat) -> Option<seq<Code>>,
      expired: nat -> bool)
    ensures Told(w, c, start, [], controller, expired)
  {
  }

  lemma ToldMore(w: World, c: Config, start: seq<Json>, answers: seq<Fields>, st: State, answer: Fields,
                 controller: (Json, nat) -> Option<seq<Code>>, expired: nat -> bool)
    requires Told(w, c, start, answers, controller, expired) && StateAfter(w, c, start, answers) == Some(st)
    requires !expired(|answers|) && Answer(controller(RoundRequest(c, st), |answers|)) == Some(answer)
    ensures Told(w, c, start, answers + [answer], controller, expired)
  {
    hide StateAfter, Answer, RoundRequest;
    var more := answers + [answer];
    forall k | 0 <= k < |more|
      ensures var st := StateAfter(w, c, start, more[..k]);
        st.Some? && !expired(k) && Answer(controller(RoundRequest(c, st.value), k)) == Some(more[k])
    {
      assert more[..k] == answers[..k];
      assert answers[..|answers|] == answers;
    }
  }

  // ----- everything a run writes can be stored and read back

  ghost predicate CleanState(st: State) {
    Clean(st.parent.artifact) && (st.feedback.Some? ==> Clean(st.feedback.value))
  }

  lemma ReadIs(content: Option<seq<Code>>, records: seq<Json>)
    requires ReadFile(content) == Records(records)
    ensures Holds(content, records)
    ensures records == [] <==> content.None?
  {
    hide ReadFile;
    if content.Some? {
      ReadableIsNonEmpty(content.value);
    } else {
      assert ReadFile(None) == Records([]) by { MissingReads(); }
    }
  }

  lemma MissingReads()
    ensures ReadFile(None) == Records([])
  {
  }

  lemma HeldStorable(content: Option<seq<Code>>, records: seq<Json>)
    requires Holds(content, records)
    ensures AllStorable(records)
  {
    hide ReadFile;
    ReadStorable(content);
  }

  lemma ReplayNonEmpty(w: World, c: Config, records: seq<Json>)
    requires Replay(w, c, records).Some?
    ensures records != []
  {
  }

  /** The assignments at the end of a loop round are `Advance`. */
  lemma AdvanceIs(w: World, c: Config, st: State, result: Fields, id: seq<Code>, next: Option<Candidate>,
      feedback: Option<Json>)
    requires next == w.validate(ControllerRequest(c, st.parent, st.generations + 1, st.feedback), Obj(result))
      && next.Some?
    requires feedback == Feedback(result, st.generations + 1)
    ensures feedback.Some? ==>
      Advance(w, c, st, result, id) ==
        Some(State(next.value, feedback, st.generations + 1, if Retains(result) then st.rejections + 1 else 0, id))
    ensures Trusted(w) ==> feedback.Some?
  {
    hide ControllerRequest, Feedback, Retains;
  }

  /** Hexadecimal text holds no surrogate. */
  lemma HexClean(id: seq<Code>)
    requires IsSha256(id)
    ensures CleanString(id)
  {
  }

  /** Characters are Unicode scalar values, so no literal key splits a surrogate pair. */
  lemma KeysClean()
    ensures forall name: string :: CleanString(Key(name))
  {
    forall name: string ensures CleanString(Key(name)) {
      assert forall i :: 0 <= i < |name| ==> !High(Key(name)[i]) && !Low(Key(name)[i]);
    }
  }

  ghost predicate CleanFields(fields: Fields) {
    forall k :: k in fields ==> CleanString(k) && Clean(fields[k])
  }

  lemma GetClean(fields: Fields, key: seq<Code>)
    requires CleanFields(fields)
    ensures Clean(Get(fields, key)) && (Get(fields, key).Obj? ==> CleanFields(Get(fields, key).fields))
  {
  }

  lemma MutationClean(c: Config, st: State)
    requires CleanConfig(c) && CleanState(st)
    ensures Clean(MutationRequest(c, st.parent, st.generations + 1, st.feedback))
  {
    hide CleanString, Clean;
    KeysClean();
    var proposer := Obj(map[Key("command") := c.command, Key("timeout_seconds") := c.timeout]);
    var context := ProposalContext(c, st.generations + 1, st.feedback);
    NumberClean();
    assert CleanFields(context.fields) && CleanFields(proposer.fields);
    CleanObj(context);
    CleanObj(proposer);
    CleanObj(MutationRequest(c, st.parent, st.generations + 1, st.feedback));
  }

  lemma NumberClean()
    ensures Clean(Null) && forall n :: Clean(Int(n))
  {
  }

  lemma RequestClean(c: Config, st: State)
    requires CleanConfig(c) && CleanState(st)
    ensures Clean(ControllerRequest(c, st.parent, st.generations + 1, st.feedback))
  {
    hide CleanString, Clean, MutationRequest;
    KeysClean();
    NumberClean();
    MutationClean(c, st);
    CleanObj(ControllerRequest(c, st.parent, st.generations + 1, st.feedback));
  }

  lemma FeedbackClean(result: Fields, generation: nat)
    requires CleanFields(result) && Feedback(result, generation).Some?
    ensures Clean(Feedback(result, generation).value)
  {
    hide CleanString, Encodable, NonEmptyString, Clean, Get, Key;
    KeysClean();
    NumberClean();
    GetClean(result, Key("selection"));
    GetClean(result, Key("next_parent"));
    GetClean(Get(result, Key("selection")).fields, Key("comparison"));
    GetClean(Get(result, Key("selection")).fields, Key("decision"));
    GetClean(Get(result, Key("selection")).fields, Key("reason"));
    GetClean(Get(result, Key("next_parent")).fields, Key("candidate_id"));
    CleanObj(Feedback(result, generation).value);
  }

  lemma RecordClean(w: World, body: Fields)
    requires HexOutput(w.sha) && CleanFields(body)
    ensures Storable(WithRecordId(w, body)) && IsSha256(Digest(w.sha, body))
  {
    hide CleanString, Digest;
    KeysClean();
    DigestIsHex(w.sha, body);
    HexClean(Digest(w.sha, body));
    assert CleanString(Key("record_id"));
    assert Clean(Str(Digest(w.sha, body)));
    CleanObj(WithRecordId(w, body));
  }

  lemma HeaderHeld(w: World, c: Config)
    requires HexOutput(w.sha)
    ensures Holds(Some([] + LineOf(Header(w, c))), [Header(w, c)])
  {
    hide CleanString, LineOf, ConfigId, Storable;
    KeysClean();
    assert CleanFields(HeaderBody(w, c)) by {
      assert IsSha256(ConfigId(w, c)) by { ConfigIdHex(w, c); }
      HexClean(ConfigId(w, c));
    }
    RecordClean(w, HeaderBody(w, c));
    OneRecordReads(Header(w, c));
  }

  lemma OneRecordReads(record: Json)
    requires Storable(record)
    ensures Holds(Some([] + LineOf(record)), [record])
  {
    hide ReadFile, Storable;
    ReadBack([record]);
    assert FileOf([record]) == LineOf(record) + FileOf([record][1..]) == [] + LineOf(record);
  }

  lemma ConfigIdHex(w: World, c: Config)
    requires HexOutput(w.sha)
    ensures IsSha256(ConfigId(w, c))
  {
  }

  lemma AdvanceClean(w: World, c: Config, st: State, result: Fields)
    requires Trusted(w) && CleanFields(result)
    ensures forall id :: Advance(w, c, st, result, id).Some? ==> CleanState(Advance(w, c, st, result, id).value)
  {
    hide ControllerRequest, Feedback, CleanString;
    if Feedback(result, st.generations + 1).Some? {
      FeedbackClean(result, st.generations + 1);
    }
    assert Clean(Obj(result));
  }

  /** Replaying stored records leaves loop variables a record can be made of. */
  lemma {:induction false} ReplayClean(w: World, c: Config, records: seq<Json>)
    requires Trusted(w) && CleanConfig(c) && AllStorable(records) && Replay(w, c, records).Some?
    ensures CleanState(Replay(w, c, records).value) && IsSha256(Replay(w, c, records).value.lastId)
  {
    hide Advance, PythonEqual, ControllerRequest, IsSha256, CleanString, Digest, CleanConfig;
    var last := records[|records| - 1];
    assert Storable(last);
    if |records| > 1 {
      var st := Replay(w, c, records[..|records| - 1]).value;
      GetClean(last.fields, Key("controller_result"));
      AdvanceClean(w, c, st, Get(last.fields, Key("controller_result")).fields);
      AdvanceId(w, c, st, Get(last.fields, Key("controller_result")).fields, IdOf(last));
    } else {
      assert Clean(c.initialParent.artifact) by { ConfigParentClean(c); }
    }
  }

  lemma ConfigParentClean(c: Config)
    requires CleanConfig(c)
    ensures Clean(c.initialParent.artifact)
  {
  }

  lemma AdvanceId(w: World, c: Config, st: State, result: Fields, id: seq<Code>)
    ensures Advance(w, c, st, result, id).Some? ==> Advance(w, c, st, result, id).value.lastId == id
  {
  }

  lemma AnswerClean(source: Option<seq<Code>>)
    requires Answer(source).Some?
    ensures CleanFields(Answer(source).value)
  {
    hide Decode, Print, Clean;
    var v := Decode(source.value).value;
    PrintPrintable(v);
    assert Plain(source.value);
    DecodedClean(source.value);
    CleanObj(v);
  }

  lemma CleanObj(v: Json)
    requires v.Obj?
    ensures Clean(v) <==> CleanFields(v.fields)
  {
  }

  /** Appending the next record keeps the file exactly the ledger. */
  lemma StepHeld(w: World, c: Config, ledger: seq<Json>, st: State, result: Fields, source: Option<seq<Code>>,
      content: Option<seq<Code>>)
    requires Trusted(w) && CleanConfig(c) && CleanState(st) && IsSha256(st.lastId)
    requires Holds(content, ledger) && ledger != [] && Answer(source) == Some(result)
    ensures CleanFields(result)
    ensures var record := NextRecord(w, c, st, result);
      && content.Some? && Holds(Some(content.value + LineOf(record)), ledger + [record])
      && IsSha256(IdOf(record))
  {
    hide ReadFile, LineOf, Storable;
    assert content.Some? by { ReadIs(content, ledger); }
    NextStorable(w, c, st, result, source);
    hide NextRecord;
    AppendReads(content.value, NextRecord(w, c, st, result));
  }

  lemma NextStorable(w: World, c: Config, st: State, result: Fields, source: Option<seq<Code>>)
    requires Trusted(w) && CleanConfig(c) && CleanState(st) && IsSha256(st.lastId) && Answer(source) == Some(result)
    ensures CleanFields(result)
    ensures Storable(NextRecord(w, c, st, result)) && IsSha256(IdOf(NextRecord(w, c, st, result)))
  {
    hide CleanString, Storable, Answer, ControllerRequest, Digest, IsSha256, CleanConfig, CleanState;
    KeysClean();
    AnswerClean(source);
    RequestClean(c, st);
    HexClean(st.lastId);
    var request := ControllerRequest(c, st.parent, st.generations + 1, st.feedback);
    var body := GenerationBody(request, result, st.generations + 1, st.lastId);
    GenerationClean(request, result, st.generations + 1, st.lastId);
    hide GenerationBody, CleanFields;
    RecordClean(w, body);
  }

  lemma GenerationClean(request: Json, result: Fields, generation: nat, parentRecord: seq<Code>)
    requires Clean(request) && CleanFields(result) && CleanString(parentRecord)
    ensures CleanFields(GenerationBody(request, result, generation, parentRecord))
  {
    hide CleanString, Clean;
    KeysClean();
    PartsClean(result, generation, parentRecord);
  }

  lemma PartsClean(result: Fields, generation: nat, parentRecord: seq<Code>)
    requires CleanFields(result) && CleanString(parentRecord)
    ensures Clean(Obj(result)) && Clean(Int(generation)) && Clean(Str(GENERATION)) && Clean(Str(parentRecord))
    ensures Clean(SCHEMA)
  {
    hide CleanString;
    KeysClean();
  }

  lemma RunStep(w: World, c: Config, start: seq<Json>, answers: seq<Fields>, ledger: seq<Json>, st: State,
      result: Fields)
    requires HexOutput(w.sha) && Run(w, c, start, answers) == Some(ledger)
    requires Replay(w, c, ledger) == Some(st) && MayStep(c, st)
    requires Advance(w, c, st, result, IdOf(NextRecord(w, c, st, result))).Some?
    ensures Run(w, c, start, answers + [result]) == Some(ledger + [NextRecord(w, c, st, result)])
    ensures Replay(w, c, ledger + [NextRecord(w, c, st, result)]) ==
      Advance(w, c, st, result, IdOf(NextRecord(w, c, st, result)))
  {
    hide Replay, NextRecord, Advance, IdOf;
    StepReplays(w, c, ledger, result);
    assert (answers + [result])[..|answers|] == answers;
  }
}
