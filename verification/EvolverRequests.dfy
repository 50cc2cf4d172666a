/** What an evolution run sends to the Controller: read out of the request documents by key, and followed from round to
    round. */
module EvolverRequests {
  import opened Text
  import opened Wire
  import opened WireRoundTrip
  import opened WireCanonical
  import opened Journal
  import opened JsonChecks
  import opened Ledger
  import opened Evolver
  import opened EvolverRuns

  const REQUEST_KEYS: set<string> := {
    "evaluation", "evaluator", "mutation_request", "runner", "schema_version", "selection_policy", "tasks"}
  const MUTATION_KEYS: set<string> := {"parent_artifact", "proposal_context", "proposer", "schema_version"}
  const CONTEXT_KEYS: set<string> := {"generation", "objective", "previous_generation"}

  /** The request asks for this generation of the run `c` describes, from this parent, after this feedback. */
  predicate Asks(request: Json, c: Config, artifact: Json, generation: nat, previous: Json) {
    && HasKeys(Some(request), REQUEST_KEYS)
    && At(request, ["evaluation"]) == Some(c.evaluation)
    && At(request, ["evaluator"]) == Some(c.evaluator)
    && At(request, ["runner"]) == Some(c.runner)
    && At(request, ["selection_policy"]) == Some(c.policy)
    && At(request, ["tasks"]) == Some(c.tasks)
    && At(request, ["schema_version"]) == Some(Int(2))
    && AsksForMutation(At(request, ["mutation_request"]), c, artifact, generation, previous)
  }

  predicate AsksForMutation(request: Option<Json>, c: Config, artifact: Json, generation: nat, previous: Json) {
    && HasKeys(request, MUTATION_KEYS)
    && At(request.value, ["parent_artifact"]) == Some(artifact)
    && At(request.value, ["schema_version"]) == Some(Int(2))
    && HasKeys(At(request.value, ["proposer"]), {"command", "timeout_seconds"})
    && At(request.value, ["proposer", "command"]) == Some(c.command)
    && At(request.value, ["proposer", "timeout_seconds"]) == Some(c.timeout)
    && HasKeys(At(request.value, ["proposal_context"]), CONTEXT_KEYS)
    && At(request.value, ["proposal_context", "generation"]) == Some(Int(generation))
    && At(request.value, ["proposal_context", "objective"]) == Some(c.context)
    && At(request.value, ["proposal_context", "previous_generation"]) == Some(previous)
  }

  /** The feedback repeats what the result says of its own selection, and names the generation. */
  predicate Repeats(feedback: Json, result: Fields, generation: nat) {
    && HasKeys(Some(feedback), {"comparison", "decision", "generation", "reason", "selected_candidate_id"})
    && At(feedback, ["generation"]) == Some(Int(generation))
    && At(feedback, ["decision"]) == At(Obj(result), ["selection", "decision"])
    && At(feedback, ["reason"]) == At(Obj(result), ["selection", "reason"])
    && At(feedback, ["selected_candidate_id"]) == At(Obj(result), ["next_parent", "candidate_id"])
    && At(feedback, ["comparison"]) == Some(if At(Obj(result), ["selection", "comparison"]).Some?
         then At(Obj(result), ["selection", "comparison"]).value else Null)
  }

  function OrNull(v: Option<Json>): Json {
    if v.None? then Null else v.value
  }

  lemma ContextAsks(c: Config, generation: nat, previous: Option<Json>)
    ensures var v := ProposalContext(c, generation, previous);
      && HasKeys(Some(v), CONTEXT_KEYS)
      && At(v, ["generation"]) == Some(Int(generation)) && At(v, ["objective"]) == Some(c.context)
      && At(v, ["previous_generation"]) == Some(OrNull(previous))
  {
    hide Key, At;
    AllKeysDiffer();
    var v := ProposalContext(c, generation, previous);
    AtOne(v, "generation");
    AtOne(v, "objective");
    AtOne(v, "previous_generation");
  }

  lemma MutationAsks(c: Config, parent: Candidate, generation: nat, previous: Option<Json>)
    ensures AsksForMutation(Some(MutationRequest(c, parent, generation, previous)), c, parent.artifact, generation,
      OrNull(previous))
  {
    hide Key, At, ProposalContext;
    AllKeysDiffer();
    ContextAsks(c, generation, previous);
    var v := MutationRequest(c, parent, generation, previous);
    AtOne(v, "parent_artifact");
    AtOne(v, "schema_version");
    AtOne(v, "proposal_context");
    AtOne(v, "proposer");
    AtTwo(v, "proposal_context", "generation");
    AtTwo(v, "proposal_context", "objective");
    AtTwo(v, "proposal_context", "previous_generation");
    AtTwo(v, "proposer", "command");
    AtTwo(v, "proposer", "timeout_seconds");
    var proposer := Obj(map[Key("command") := c.command, Key("timeout_seconds") := c.timeout]);
    AtOne(proposer, "command");
    AtOne(proposer, "timeout_seconds");
  }

  lemma RequestAsks(c: Config, parent: Candidate, generation: nat, previous: Option<Json>)
    ensures Asks(ControllerRequest(c, parent, generation, previous), c, parent.artifact, generation, OrNull(previous))
  {
    hide Key, At, MutationRequest, AsksForMutation;
    AllKeysDiffer();
    MutationAsks(c, parent, generation, previous);
    var v := ControllerRequest(c, parent, generation, previous);
    AtOne(v, "evaluation");
    AtOne(v, "evaluator");
    AtOne(v, "mutation_request");
    AtOne(v, "runner");
    AtOne(v, "schema_version");
    AtOne(v, "selection_policy");
    AtOne(v, "tasks");
  }

  lemma FeedbackRepeats(result: Fields, generation: nat)
    requires Feedback(result, generation).Some?
    ensures Repeats(Feedback(result, generation).value, result, generation)
  {
    hide Key, At, Encodable, NonEmptyString;
    AllKeysDiffer();
    var v, r := Feedback(result, generation).value, Obj(result);
    AtOne(v, "comparison");
    AtOne(v, "decision");
    AtOne(v, "generation");
    AtOne(v, "reason");
    AtOne(v, "selected_candidate_id");
    AtOne(r, "selection");
    AtOne(r, "next_parent");
    AtTwo(r, "selection", "decision");
    AtTwo(r, "selection", "reason");
    AtTwo(r, "selection", "comparison");
    AtTwo(r, "next_parent", "candidate_id");
    var selection, next := Get(result, Key("selection")), Get(result, Key("next_parent"));
    AtOne(selection, "decision");
    AtOne(selection, "reason");
    AtOne(selection, "comparison");
    AtOne(next, "candidate_id");
    NonEmptyIsString(Get(selection.fields, Key("decision")));
    NonEmptyIsString(Get(selection.fields, Key("reason")));
    NonEmptyIsString(Get(next.fields, Key("candidate_id")));
  }

  lemma NonEmptyIsString(v: Json)
    requires NonEmptyString(v)
    ensures v.Str?
  {
  }

  // ----- from round to round

  /** A first round asks for generation 1 from the configured parent, with nothing before it. */
  lemma FirstRequestAsks(w: World, c: Config, header: Json)
    requires Replay(w, c, [header]).Some?
    ensures Asks(RoundRequest(c, Replay(w, c, [header]).value), c, c.initialParent.artifact, 1, Null)
  {
    hide Asks, ControllerRequest;
    RequestAsks(c, c.initialParent, 1, None);
  }

  /** `request` is what the round after a record with this result must send, its own request having been `asked`: it
      asks for the parent the result was validated to, one generation on,
        with the result's own selection as feedback. */
  ghost predicate Follows(w: World, c: Config, asked: Json, result: Fields, generation: nat, request: Json) {
    var next := w.validate(asked, Obj(result));
    && next.Some?
    && exists feedback ::
         Repeats(feedback, result, generation) && Asks(request, c, next.value.artifact, generation + 1, feedback)
  }

  lemma AdvanceFollows(w: World, c: Config, st: State, result: Fields, id: seq<Code>)
    requires Advance(w, c, st, result, id).Some?
    ensures Follows(w, c, RoundRequest(c, st), result, st.generations + 1,
      RoundRequest(c, Advance(w, c, st, result, id).value))
  {
    hide Asks, Repeats, ControllerRequest, Feedback, Retains;
    var next := Advance(w, c, st, result, id).value;
    FeedbackRepeats(result, st.generations + 1);
    RequestAsks(c, next.parent, next.generations + 1, next.feedback);
  }

  /** Over any accepted ledger: the next request follows the result of the last record, which was itself the answer to
      the request that follows the ledger before it. */
  lemma LedgerFollows(w: World, c: Config, records: seq<Json>)
    requires |records| > 1 && Replay(w, c, records).Some?
    ensures var before := Replay(w, c, records[..|records| - 1]);
      && before.Some?
      && Follows(w, c, RoundRequest(c, before.value), ResultOf(records[|records| - 1]), |records| - 1,
           RoundRequest(c, Replay(w, c, records).value))
  {
    var before := Replay(w, c, records[..|records| - 1]).value;
    var last := records[|records| - 1];
    ReplayCounts(w, c, records[..|records| - 1]);
    hide Replay, Follows, RoundRequest, PythonEqual, ValidateRecord, Advance;
    LastAdvances(w, c, records);
    AdvanceFollows(w, c, before, ResultOf(last), IdOf(last));
  }

  lemma LastAdvances(w: World, c: Config, records: seq<Json>)
    requires |records| > 1 && Replay(w, c, records).Some?
    ensures var before, last := Replay(w, c, records[..|records| - 1]), records[|records| - 1];
      before.Some? && Replay(w, c, records) == Advance(w, c, before.value, ResultOf(last), IdOf(last))
  {
    hide Advance, PythonEqual, ValidateRecord, ControllerRequest;
  }

  /** Over the rounds of one run: the request after each accepted answer follows that answer, and the answer was given
      to the request before it. */
  lemma AnswersFollow(w: World, c: Config, start: seq<Json>, answers: seq<Fields>,
      controller: (Json, nat) -> Option<seq<Code>>, expired: nat -> bool, n: nat)
    requires HexOutput(w.sha) && Told(w, c, start, answers, controller, expired) && n < |answers|
    requires Run(w, c, start, answers).Some?
    ensures var before, now := StateAfter(w, c, start, answers[..n]), StateAfter(w, c, start, answers[..n + 1]);
      && before.Some? && now.Some?
      && Answer(controller(RoundRequest(c, before.value), n)) == Some(answers[n])
      && Follows(w, c, RoundRequest(c, before.value), answers[n], before.value.generations + 1,
           RoundRequest(c, now.value))
  {
    hide Answer, Follows, RoundRequest, Advance, NextRecord, IdOf, Run, StateAfter;
    NextState(w, c, start, answers, n);
    var st := StateAfter(w, c, start, answers[..n]).value;
    AdvanceFollows(w, c, st, answers[n], IdOf(NextRecord(w, c, st, answers[n])));
  }

  lemma NextState(w: World, c: Config, start: seq<Json>, answers: seq<Fields>, n: nat)
    requires HexOutput(w.sha) && Run(w, c, start, answers).Some? && n < |answers|
    requires StateAfter(w, c, start, answers[..n]).Some?
    ensures var st := StateAfter(w, c, start, answers[..n]).value;
      && StateAfter(w, c, start, answers[..n + 1]).Some?
      && StateAfter(w, c, start, answers[..n + 1]) ==
           Advance(w, c, st, answers[n], IdOf(NextRecord(w, c, st, answers[n])))
  {
    hide Replay, Advance, NextRecord, IdOf;
    RunPrefix(w, c, start, answers, n + 1);
    var more := answers[..n + 1];
    assert more[..n] == answers[..n] && more[n] == answers[n] && more != [];
    StepReplays(w, c, Run(w, c, start, answers[..n]).value, answers[n]);
  }

  lemma {:induction false} RunPrefix(w: World, c: Config, start: seq<Json>, answers: seq<Fields>, n: nat)
    requires Run(w, c, start, answers).Some? && n <= |answers|
    ensures Run(w, c, start, answers[..n]).Some?
    decreases |answers|
  {
    hide Extend;
    if n < |answers| {
      assert answers[..|answers| - 1][..n] == answers[..n];
      RunPrefix(w, c, start, answers[..|answers| - 1], n);
    } else {
      assert answers[..n] == answers;
    }
  }

  /** Equal requests of one configuration ask for the same generation from the same parent after the same feedback. */
  lemma RequestsDiffer(c: Config, p: Candidate, q: Candidate, m: nat, n: nat, f: Option<Json>, g: Option<Json>)
    requires ControllerRequest(c, p, m, f) == ControllerRequest(c, q, n, g)
    ensures p.artifact == q.artifact && m == n && OrNull(f) == OrNull(g)
  {
    hide ControllerRequest, At, HasKeys;
    RequestAsks(c, p, m, f);
    RequestAsks(c, q, n, g);
  }

  /** The loop counts a rejection exactly for this decision. */
  lemma RetainsIff(result: Fields)
    ensures Retains(result) <==>
      At(Obj(result), ["selection", "decision"]) == Some(Str(Key("retain_incumbent")))
  {
    hide Key;
    AtTwo(Obj(result), "selection", "decision");
    AtOne(Obj(result), "selection");
    if At(Obj(result), ["selection"]).Some? {
      AtOne(At(Obj(result), ["selection"]).value, "decision");
    }
  }

  // ----- a ledger belongs to one request

  const CONFIG_KEYS: set<string> := {"generation", "initial_parent", "limits", "proposal", "schema_version"}

  /** The document whose digest is the header's `config_id` says everything the request says. */
  predicate Describes(v: Json, c: Config) {
    && HasKeys(Some(v), CONFIG_KEYS)
    && HasKeys(At(v, ["generation"]), {"evaluation", "evaluator", "runner", "selection_policy", "tasks"})
    && At(v, ["generation", "evaluation"]) == Some(c.evaluation)
    && At(v, ["generation", "evaluator"]) == Some(c.evaluator)
    && At(v, ["generation", "runner"]) == Some(c.runner)
    && At(v, ["generation", "selection_policy"]) == Some(c.policy)
    && At(v, ["generation", "tasks"]) == Some(c.tasks)
    && HasKeys(At(v, ["initial_parent"]), {"artifact", "candidate_id"})
    && At(v, ["initial_parent", "artifact"]) == Some(c.initialParent.artifact)
    && At(v, ["initial_parent", "candidate_id"]) == Some(Str(c.initialParent.id))
    && HasKeys(At(v, ["limits"]), {"max_consecutive_rejections", "max_generations", "max_wall_seconds"})
    && At(v, ["limits", "max_consecutive_rejections"]) == Some(Int(c.maxRejections))
    && At(v, ["limits", "max_generations"]) == Some(Int(c.maxGenerations))
    && At(v, ["limits", "max_wall_seconds"]) == Some(Int(c.maxWallSeconds))
    && HasKeys(At(v, ["proposal"]), {"command", "context", "timeout_seconds"})
    && At(v, ["proposal", "command"]) == Some(c.command)
    && At(v, ["proposal", "context"]) == Some(c.context)
    && At(v, ["proposal", "timeout_seconds"]) == Some(c.timeout)
    && At(v, ["schema_version"]) == Some(Int(1))
  }

  lemma GenerationDescribes(c: Config)
    ensures var v := GenerationPart(c);
      && HasKeys(Some(v), {"evaluation", "evaluator", "runner", "selection_policy", "tasks"})
      && At(v, ["evaluation"]) == Some(c.evaluation) && At(v, ["evaluator"]) == Some(c.evaluator)
      && At(v, ["runner"]) == Some(c.runner) && At(v, ["selection_policy"]) == Some(c.policy)
      && At(v, ["tasks"]) == Some(c.tasks)
  {
    hide Key, At;
    AllKeysDiffer();
    var v := GenerationPart(c);
    AtOne(v, "evaluation");
    AtOne(v, "evaluator");
    AtOne(v, "runner");
    AtOne(v, "selection_policy");
    AtOne(v, "tasks");
  }

  lemma ParentDescribes(c: Config)
    ensures var v := ParentPart(c);
      && HasKeys(Some(v), {"artifact", "candidate_id"})
      && At(v, ["artifact"]) == Some(c.initialParent.artifact)
      && At(v, ["candidate_id"]) == Some(Str(c.initialParent.id))
  {
    hide Key, At;
    AllKeysDiffer();
    AtOne(ParentPart(c), "artifact");
    AtOne(ParentPart(c), "candidate_id");
  }

  lemma LimitsDescribe(c: Config)
    ensures var v := LimitsPart(c);
      && HasKeys(Some(v), {"max_consecutive_rejections", "max_generations", "max_wall_seconds"})
      && At(v, ["max_consecutive_rejections"]) == Some(Int(c.maxRejections))
      && At(v, ["max_generations"]) == Some(Int(c.maxGenerations))
      && At(v, ["max_wall_seconds"]) == Some(Int(c.maxWallSeconds))
  {
    hide Key, At;
    AllKeysDiffer();
    AtOne(LimitsPart(c), "max_consecutive_rejections");
    AtOne(LimitsPart(c), "max_generations");
    AtOne(LimitsPart(c), "max_wall_seconds");
  }

  lemma ProposalDescribes(c: Config)
    ensures var v := ProposalPart(c);
      && HasKeys(Some(v), {"command", "context", "timeout_seconds"})
      && At(v, ["command"]) == Some(c.command) && At(v, ["context"]) == Some(c.context)
      && At(v, ["timeout_seconds"]) == Some(c.timeout)
  {
    hide Key, At;
    AllKeysDiffer();
    AtOne(ProposalPart(c), "command");
    AtOne(ProposalPart(c), "context");
    AtOne(ProposalPart(c), "timeout_seconds");
  }

  lemma ConfigKeys(c: Config)
    ensures HasKeys(Some(ConfigDocument(c)), CONFIG_KEYS)
  {
    hide Key, GenerationPart, ParentPart, LimitsPart, ProposalPart;
  }

  lemma PartsDescribe(c: Config)
    ensures var v := ConfigDocument(c);
      && At(v, ["schema_version"]) == Some(Int(1))
      && At(v, ["generation"]) == Some(GenerationPart(c)) && At(v, ["initial_parent"]) == Some(ParentPart(c))
      && At(v, ["limits"]) == Some(LimitsPart(c)) && At(v, ["proposal"]) == Some(ProposalPart(c))
  {
    hide Key, At, GenerationPart, ParentPart, LimitsPart, ProposalPart;
    AllKeysDiffer();
    var v := ConfigDocument(c);
    AtOne(v, "generation");
    AtOne(v, "initial_parent");
    AtOne(v, "limits");
    AtOne(v, "proposal");
    AtOne(v, "schema_version");
  }

  lemma ConfigDescribes(c: Config)
    ensures Describes(ConfigDocument(c), c)
  {
    hide Key, At, HasKeys, ConfigDocument, GenerationPart, ParentPart, LimitsPart, ProposalPart;
    var v := ConfigDocument(c);
    ConfigKeys(c);
    PartsDescribe(c);
    GenerationDescribes(c);
    ParentDescribes(c);
    LimitsDescribe(c);
    ProposalDescribes(c);
    AtTwo(v, "generation", "evaluation");
    AtTwo(v, "generation", "evaluator");
    AtTwo(v, "generation", "runner");
    AtTwo(v, "generation", "selection_policy");
    AtTwo(v, "generation", "tasks");
    AtTwo(v, "initial_parent", "artifact");
    AtTwo(v, "initial_parent", "candidate_id");
    AtTwo(v, "limits", "max_consecutive_rejections");
    AtTwo(v, "limits", "max_generations");
    AtTwo(v, "limits", "max_wall_seconds");
    AtTwo(v, "proposal", "command");
    AtTwo(v, "proposal", "context");
    AtTwo(v, "proposal", "timeout_seconds");
  }

  lemma DescribesOne(v: Json, c: Config, d: Config)
    requires Describes(v, c) && Describes(v, d)
    ensures c == d
  {
    hide At, HasKeys;
  }

  /** Two requests that accept one ledger are the same request, unless the documents that identify them differ and have
      one digest. */
  lemma LedgerFixesRequest(w: World, c: Config, d: Config, records: seq<Json>)
    requires CleanConfig(c) && CleanConfig(d) && CleanString(c.initialParent.id) && CleanString(d.initialParent.id)
    requires Replay(w, c, records).Some? && Replay(w, d, records).Some?
    ensures var x, y := Print(ConfigDocument(c)), Print(ConfigDocument(d));
      c == d || (x != y && w.sha(x) == w.sha(y))
  {
    hide Print, Describes, ConfigDocument;
    HeaderNames(w, c, records);
    HeaderNames(w, d, records);
    ConfigDescribes(c);
    ConfigDescribes(d);
    if Print(ConfigDocument(c)) == Print(ConfigDocument(d)) {
      ConfigClean(c);
      ConfigClean(d);
      PrintInjective(ConfigDocument(c), ConfigDocument(d));
      DescribesOne(ConfigDocument(c), c, d);
    }
  }

  lemma {:induction false} HeaderNames(w: World, c: Config, records: seq<Json>)
    requires Replay(w, c, records).Some?
    ensures records[0].Obj? && Get(records[0].fields, Key("config_id")) == Str(w.sha(Print(ConfigDocument(c))))
  {
    hide VerifyGeneration, Print, ConfigDocument;
    if |records| > 1 {
      HeaderNames(w, c, records[..|records| - 1]);
    }
  }

  lemma ConfigClean(c: Config)
    requires CleanConfig(c) && CleanString(c.initialParent.id)
    ensures ConfigDocument(c).Obj? && Clean(ConfigDocument(c))
  {
    hide CleanString, Key, GenerationPart, ParentPart, LimitsPart, ProposalPart;
    KeysClean();
    GenerationClean(c);
    ParentClean(c);
    LimitsClean(c);
    ProposalClean(c);
    assert Clean(SCHEMA);
  }

  lemma GenerationClean(c: Config)
    requires CleanConfig(c)
    ensures Clean(GenerationPart(c))
  {
    hide CleanString, Key;
    KeysClean();
    assert CleanFields(GenerationPart(c).fields);
  }

  lemma ParentClean(c: Config)
    requires CleanConfig(c) && CleanString(c.initialParent.id)
    ensures Clean(ParentPart(c))
  {
    hide CleanString, Key;
    KeysClean();
    assert Clean(Str(c.initialParent.id));
    assert CleanFields(ParentPart(c).fields);
  }

  lemma LimitsClean(c: Config)
    ensures Clean(LimitsPart(c))
  {
    hide CleanString, Key;
    KeysClean();
    assert Clean(Int(c.maxRejections)) && Clean(Int(c.maxGenerations)) && Clean(Int(c.maxWallSeconds));
    assert CleanFields(LimitsPart(c).fields);
  }

  lemma ProposalClean(c: Config)
    requires CleanConfig(c)
    ensures Clean(ProposalPart(c))
  {
    hide CleanString, Key;
    KeysClean();
    assert CleanFields(ProposalPart(c).fields);
  }
}
