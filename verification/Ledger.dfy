/** The evolution ledger of `evolver.py`: its records, their replay, and the one step both the live
    loop and the replay take. */
module Ledger {
  import opened Text
  import opened Wire
  import opened Journal
  import opened JsonChecks

  const SCHEMA := Int(1)
  const AGENT_SCHEMA := Int(2)
  const RUN: seq<Code> := Key("run")
  const GENERATION: seq<Code> := Key("generation")
  const RETAIN: seq<Code> := Key("retain_incumbent")

  /** A decoded candidate: its normalised artifact and identity. */
  datatype Candidate = Candidate(artifact: Json, id: seq<Code>)

  /** The normalised request `decode_request` returns. */
  datatype Config = Config(
    evaluation: Json, evaluator: Json, runner: Json, policy: Json, tasks: Json,
    command: Json, context: Json, timeout: Json,
    initialParent: Candidate,
    maxRejections: nat, maxGenerations: nat, maxWallSeconds: nat)

  /** SHA-256 and the Controller contract (`validate_agent_generation_receipt`, its next parent). */
  datatype World = World(sha: Sha, validate: (Json, Json) -> Option<Candidate>)

  function GenerationPart(c: Config): Json {
    Obj(map[
      Key("evaluation") := c.evaluation, Key("evaluator") := c.evaluator, Key("runner") := c.runner,
      Key("selection_policy") := c.policy, Key("tasks") := c.tasks])
  }

  function ParentPart(c: Config): Json {
    Obj(map[Key("artifact") := c.initialParent.artifact, Key("candidate_id") := Str(c.initialParent.id)])
  }

  function LimitsPart(c: Config): Json {
    Obj(map[
      Key("max_consecutive_rejections") := Int(c.maxRejections),
      Key("max_generations") := Int(c.maxGenerations),
      Key("max_wall_seconds") := Int(c.maxWallSeconds)])
  }

  function ProposalPart(c: Config): Json {
    Obj(map[Key("command") := c.command, Key("context") := c.context, Key("timeout_seconds") := c.timeout])
  }

  function ConfigDocument(c: Config): Json {
    Obj(map[
      Key("generation") := GenerationPart(c),
      Key("initial_parent") := ParentPart(c),
      Key("limits") := LimitsPart(c),
      Key("proposal") := ProposalPart(c),
      Key("schema_version") := SCHEMA])
  }

  function ConfigId(w: World, c: Config): seq<Code> {
    w.sha(Print(ConfigDocument(c)))
  }

  function ProposalContext(c: Config, generation: nat, previous: Option<Json>): Json {
    Obj(map[
      Key("generation") := Int(generation),
      Key("objective") := c.context,
      Key("previous_generation") := if previous.None? then Null else previous.value])
  }

  function MutationRequest(c: Config, parent: Candidate, generation: nat, previous: Option<Json>): Json {
    Obj(map[
      Key("parent_artifact") := parent.artifact,
      Key("proposal_context") := ProposalContext(c, generation, previous),
      Key("proposer") := Obj(map[Key("command") := c.command, Key("timeout_seconds") := c.timeout]),
      Key("schema_version") := AGENT_SCHEMA])
  }

  /** `_controller_request`. */
  function ControllerRequest(c: Config, parent: Candidate, generation: nat, previous: Option<Json>): Json {
    Obj(map[
      Key("evaluation") := c.evaluation,
      Key("evaluator") := c.evaluator,
      Key("mutation_request") := MutationRequest(c, parent, generation, previous),
      Key("runner") := c.runner,
      Key("schema_version") := AGENT_SCHEMA,
      Key("selection_policy") := c.policy,
      Key("tasks") := c.tasks])
  }

  // ----- feedback

  /** `_feedback`; None is its EvolutionError or ProtocolError. */
  function Feedback(result: Fields, generation: nat): Option<Json> {
    var selection, next := Get(result, Key("selection")), Get(result, Key("next_parent"));
    if !selection.Obj? || !next.Obj? then None
    else
      var comparison := Get(selection.fields, Key("comparison"));
      var decision, reason := Get(selection.fields, Key("decision")), Get(selection.fields, Key("reason"));
      var selected := Get(next.fields, Key("candidate_id"));
      if !Encodable(comparison) || !NonEmptyString(decision) || !NonEmptyString(reason)
        || !NonEmptyString(selected) then None
      else Some(Obj(map[
        Key("comparison") := comparison,
        Key("decision") := decision,
        Key("generation") := Int(generation),
        Key("reason") := reason,
        Key("selected_candidate_id") := selected]))
  }

  /** Whether a Controller result kept the incumbent. */
  predicate Retains(result: Fields) {
    var selection := Get(result, Key("selection"));
    selection.Obj? && Get(selection.fields, Key("decision")) == Str(RETAIN)
  }

  // ----- records

  function HeaderBody(w: World, c: Config): Fields {
    map[Key("config_id") := Str(ConfigId(w, c)), Key("kind") := Str(RUN), Key("schema_version") := SCHEMA]
  }

  function GenerationBody(request: Json, result: Fields, generation: nat, parentRecord: seq<Code>): Fields {
    map[
      Key("controller_request") := request,
      Key("controller_result") := Obj(result),
      Key("generation") := Int(generation),
      Key("kind") := Str(GENERATION),
      Key("parent_record_id") := Str(parentRecord),
      Key("schema_version") := SCHEMA]
  }

  const HEADER_KEYS: set<seq<Code>> := {Key("config_id"), Key("kind"), RECORD_ID, Key("schema_version")}
  const GENERATION_KEYS: set<seq<Code>> := {
    Key("controller_request"), Key("controller_result"), Key("generation"), Key("kind"),
    Key("parent_record_id"), RECORD_ID, Key("schema_version")}

  /** `_with_record_id` on a body that has no identity yet. */
  function WithRecordId(w: World, body: Fields): Json {
    Obj(body[RECORD_ID := Str(Digest(w.sha, body))])
  }

  function IdOf(record: Json): seq<Code> {
    if record.Obj? && Get(record.fields, RECORD_ID).Str? then Get(record.fields, RECORD_ID).s else []
  }

  /** The loop variables of `evolve`, which are also what `_verify_ledger` returns. */
  datatype State = State(parent: Candidate, feedback: Option<Json>, generations: nat, rejections: nat,
      lastId: seq<Code>)

  /** What a validated Controller answer makes of the loop variables. */
  function Advance(w: World, c: Config, st: State, result: Fields, id: seq<Code>): Option<State> {
    var request := ControllerRequest(c, st.parent, st.generations + 1, st.feedback);
    var next, feedback := w.validate(request, Obj(result)), Feedback(result, st.generations + 1);
    if next.None? || feedback.None? then None
    else Some(State(next.value, feedback, st.generations + 1, if Retains(result) then st.rejections + 1 else 0, id))
  }

  // ----- replay

  /** The header checks of `_verify_ledger`. */
  function VerifyHeader(w: World, c: Config, header: Json): Option<State> {
    if !header.Obj? || header.fields.Keys != HEADER_KEYS || Get(header.fields, Key("kind")) != Str(RUN) then None
    else if Get(header.fields, Key("schema_version")) != SCHEMA then None
    else if Get(header.fields, Key("config_id")) != Str(ConfigId(w, c)) then None
    else if ValidateRecord(w.sha, header.fields).None? then None
    else Some(State(c.initialParent, None, 0, 0, IdOf(header)))
  }

  /** One round of the loop of `_verify_ledger`. */
  function VerifyGeneration(w: World, c: Config, st: State, record: Json): Option<State> {
    if !record.Obj? || record.fields.Keys != GENERATION_KEYS
      || Get(record.fields, Key("kind")) != Str(GENERATION) then None
    else if Get(record.fields, Key("schema_version")) != SCHEMA then None
    else if Get(record.fields, Key("generation")) != Int(st.generations + 1) then None
    else if Get(record.fields, Key("parent_record_id")) != Str(st.lastId) then None
    else if ValidateRecord(w.sha, record.fields).None? then None
    else if !PythonEqual(Get(record.fields, Key("controller_request")),
        ControllerRequest(c, st.parent, st.generations + 1, st.feedback)) then None
    else if !Get(record.fields, Key("controller_result")).Obj? then None
    else Advance(w, c, st, Get(record.fields, Key("controller_result")).fields, IdOf(record))
  }

  /** `_verify_ledger`; None is any of its errors. */
  function Replay(w: World, c: Config, records: seq<Json>): Option<State> {
    if records == [] then None
    else if |records| == 1 then VerifyHeader(w, c, records[0])
    else
      var st := Replay(w, c, records[..|records| - 1]);
      if st.None? then None else VerifyGeneration(w, c, st.value, records[|records| - 1])
  }

  method VerifyLedger(w: World, c: Config, records: seq<Json>) returns (r: Option<State>)
    ensures r == Replay(w, c, records)
  {
    hide VerifyHeader, VerifyGeneration;
    if records == [] {
      return None;
    }
    r := VerifyHeader(w, c, records[0]);
    assert records[..1] == [records[0]];
    if r.None? {
      ReplayStuck(w, c, records, 1);
      return None;
    }
    for i := 1 to |records|
      invariant r.Some? && r == Replay(w, c, records[..i])
    {
      assert records[..i + 1][..i] == records[..i];
      r := VerifyGeneration(w, c, r.value, records[i]);
      if r.None? {
        ReplayStuck(w, c, records, i + 1);
        return None;
      }
    }
    assert records[..|records|] == records;
  }

  lemma {:induction false} ReplayStuck(w: World, c: Config, records: seq<Json>, count: nat)
    requires 0 < count <= |records| && Replay(w, c, records[..count]).None?
    ensures Replay(w, c, records).None?
    decreases |records|
  {
    hide VerifyHeader, VerifyGeneration;
    if count == |records| {
      assert records[..count] == records;
    } else {
      assert records[..|records| - 1][..count] == records[..count];
      ReplayStuck(w, c, records[..|records| - 1], count);
    }
  }

  // ----- the record a step writes is the record the replay accepts

  function Header(w: World, c: Config): Json {
    WithRecordId(w, HeaderBody(w, c))
  }

  function NextRecord(w: World, c: Config, st: State, result: Fields): Json {
    WithRecordId(w, GenerationBody(ControllerRequest(c, st.parent, st.generations + 1, st.feedback), result,
      st.generations + 1, st.lastId))
  }

  lemma HeaderReplays(w: World, c: Config)
    requires HexOutput(w.sha)
    ensures Replay(w, c, [Header(w, c)]) == Some(State(c.initialParent, None, 0, 0, IdOf(Header(w, c))))
  {
    hide ConfigId, Digest, IsSha256;
    assert Key("config_id") != RECORD_ID by {
      assert Key("config_id")[0] == 'c' as int && RECORD_ID[0] == 'r' as int;
    }
    var body := HeaderBody(w, c);
    var record := body[RECORD_ID := Str(Digest(w.sha, body))];
    assert record.Keys == HEADER_KEYS;
    assert BodyOf(record) == body;
    assert IsSha256(Digest(w.sha, body)) by { DigestIsHex(w.sha, body); }
  }

  lemma DigestIsHex(sha: Sha, body: Fields)
    requires HexOutput(sha)
    ensures IsSha256(Digest(sha, body))
  {
  }

  /** The fields of a fresh generation record. */
  lemma GenerationFields(w: World, request: Json, result: Fields, generation: nat, parentRecord: seq<Code>)
    ensures var body := GenerationBody(request, result, generation, parentRecord);
      var record := body[RECORD_ID := Str(Digest(w.sha, body))];
      && record.Keys == GENERATION_KEYS && BodyOf(record) == body
      && Get(record, RECORD_ID) == Str(Digest(w.sha, body))
      && Get(record, Key("kind")) == Str(GENERATION) && Get(record, Key("schema_version")) == SCHEMA
      && Get(record, Key("generation")) == Int(generation) && Get(record, Key("parent_record_id")) == Str(parentRecord)
      && Get(record, Key("controller_request")) == request && Get(record, Key("controller_result")) == Obj(result)
  {
    hide Digest;
    var body := GenerationBody(request, result, generation, parentRecord);
    assert BodyOf(body[RECORD_ID := Str(Digest(w.sha, body))]) == body;
  }

  lemma FreshRecordValidates(w: World, record: Fields)
    requires HexOutput(w.sha) && Get(record, RECORD_ID) == Str(Digest(w.sha, BodyOf(record)))
    ensures ValidateRecord(w.sha, record).Some?
  {
    hide Digest, IsSha256;
    DigestIsHex(w.sha, BodyOf(record));
  }

  /** A well-made generation record is accepted exactly when its request equals the recurrence's in Python's sense and
      its result advances the recurrence. */
  lemma GenerationAccepted(w: World, c: Config, st: State, request: Json, result: Fields)
    requires HexOutput(w.sha)
    ensures var record := WithRecordId(w, GenerationBody(request, result, st.generations + 1, st.lastId));
      VerifyGeneration(w, c, st, record) ==
        if PythonEqual(request, ControllerRequest(c, st.parent, st.generations + 1, st.feedback))
        then Advance(w, c, st, result, IdOf(record)) else None
  {
    hide ControllerRequest, Advance, Digest, ValidateRecord, PythonEqual, GenerationBody, Get, IdOf;
    var body := GenerationBody(request, result, st.generations + 1, st.lastId);
    GenerationFields(w, request, result, st.generations + 1, st.lastId);
    FreshRecordValidates(w, body[RECORD_ID := Str(Digest(w.sha, body))]);
  }

  lemma FreshGenerationAccepted(w: World, c: Config, st: State, result: Fields)
    requires HexOutput(w.sha)
    ensures var record := NextRecord(w, c, st, result);
      VerifyGeneration(w, c, st, record) == Advance(w, c, st, result, IdOf(record))
  {
    hide ControllerRequest, Advance, VerifyGeneration, PythonEqual, GenerationBody, WithRecordId, IdOf;
    var request := ControllerRequest(c, st.parent, st.generations + 1, st.feedback);
    GenerationAccepted(w, c, st, request, result);
    PythonEqualSelf(request);
  }

  /** `_verify_ledger` accepts the record a step appends and takes over exactly the step's own loop variables. */
  lemma StepReplays(w: World, c: Config, records: seq<Json>, result: Fields)
    requires HexOutput(w.sha) && Replay(w, c, records).Some?
    ensures var st := Replay(w, c, records).value;
      var record := NextRecord(w, c, st, result);
      Replay(w, c, records + [record]) == Advance(w, c, st, result, IdOf(record))
  {
    hide Advance, VerifyHeader, VerifyGeneration, NextRecord;
    var st := Replay(w, c, records).value;
    var record := NextRecord(w, c, st, result);
    FreshGenerationAccepted(w, c, st, result);
    assert (records + [record])[..|records|] == records;
  }

  // ----- Python's equality lets another first record through

  /** The first request of a run, with `true` for its generation number. */
  function TrueRequest(c: Config): Json {
    Obj(FirstRequest(c)[Key("mutation_request") := Obj(FirstMutation(c)[Key("proposal_context") :=
      Obj(FirstContext(c)[Key("generation") := Bool(true)])])])
  }

  function FirstContext(c: Config): Fields {
    ProposalContext(c, 1, None).fields
  }

  function FirstMutation(c: Config): Fields {
    MutationRequest(c, c.initialParent, 1, None).fields
  }

  function FirstRequest(c: Config): Fields {
    ControllerRequest(c, c.initialParent, 1, None).fields
  }

  lemma EqualMember(fields: Fields, key: seq<Code>, v: Json)
    requires key in fields && PythonEqual(v, fields[key])
    ensures PythonEqual(Obj(fields[key := v]), Obj(fields))
  {
    forall k | k in fields ensures PythonEqual(fields[key := v][k], fields[k]) {
      PythonEqualSelf(fields[k]);
    }
  }

  lemma TrueRequestIsEqual(c: Config)
    ensures PythonEqual(TrueRequest(c), ControllerRequest(c, c.initialParent, 1, None))
    ensures TrueRequest(c) != ControllerRequest(c, c.initialParent, 1, None)
  {
    var context := FirstContext(c)[Key("generation") := Bool(true)];
    var mutation := FirstMutation(c)[Key("proposal_context") := Obj(context)];
    FirstParts(c);
    assert PythonEqual(Bool(true), Int(1));
    hide FirstContext, FirstMutation, FirstRequest, PythonEqual, ControllerRequest;
    EqualMember(FirstContext(c), Key("generation"), Bool(true));
    EqualMember(FirstMutation(c), Key("proposal_context"), Obj(context));
    EqualMember(FirstRequest(c), Key("mutation_request"), Obj(mutation));
    assert context[Key("generation")] != FirstContext(c)[Key("generation")];
    assert mutation[Key("proposal_context")] != FirstMutation(c)[Key("proposal_context")];
  }

  lemma FirstParts(c: Config)
    ensures ControllerRequest(c, c.initialParent, 1, None) == Obj(FirstRequest(c))
    ensures Key("mutation_request") in FirstRequest(c)
      && FirstRequest(c)[Key("mutation_request")] == Obj(FirstMutation(c))
    ensures Key("proposal_context") in FirstMutation(c)
      && FirstMutation(c)[Key("proposal_context")] == Obj(FirstContext(c))
    ensures Key("generation") in FirstContext(c) && FirstContext(c)[Key("generation")] == Int(1)
  {
    assert Key("mutation_request")[0] == 'm' as int && Key("selection_policy")[0] == 's' as int;
  }

  /** Replay takes a first generation whose request says `true` where the recurrence says 1, and goes on as from the
      record the loop would have written, under another identity. */
  lemma TrueReplaysAsOne(w: World, c: Config, result: Fields)
    requires HexOutput(w.sha)
    ensures var header := Header(w, c);
      var st := State(c.initialParent, None, 0, 0, IdOf(header));
      var record := WithRecordId(w, GenerationBody(TrueRequest(c), result, 1, st.lastId));
      && TrueRequest(c) != ControllerRequest(c, c.initialParent, 1, None)
      && Replay(w, c, [header, record]) == Advance(w, c, st, result, IdOf(record))
  {
    hide TrueRequest, ControllerRequest, Header, Advance, GenerationBody, WithRecordId, VerifyHeader, VerifyGeneration,
      PythonEqual;
    var header := Header(w, c);
    var st := State(c.initialParent, None, 0, 0, IdOf(header));
    var record := WithRecordId(w, GenerationBody(TrueRequest(c), result, 1, st.lastId));
    HeaderReplays(w, c);
    TrueRequestIsEqual(c);
    GenerationAccepted(w, c, st, TrueRequest(c), result);
    assert [header, record][..1] == [header];
  }
}
