/** What the documents of `agent_protocol.py` hold, key by key, and what normal artifacts are, field by field. */
module AgentDocuments {
  import opened Text
  import opened Wire
  import opened Journal
  import opened JsonChecks
  import opened ArtifactPaths
  import opened AgentProtocol
  import opened AgentCandidates
  import Order

  predicate FileSays(v: Json, f: File) {
    && HasKeys(Some(v), {"content", "executable", "path"})
    && At(v, ["content"]) == Some(Str(f.content))
    && At(v, ["executable"]) == Some(Bool(f.executable))
    && At(v, ["path"]) == Some(Str(f.path))
  }

  predicate OutputSays(v: Json, o: Output) {
    && HasKeys(Some(v), {"kind", "name", "sha256", "uri"})
    && At(v, ["kind"]) == Some(Str(o.kind)) && At(v, ["name"]) == Some(Str(o.name))
    && At(v, ["sha256"]) == Some(Str(o.sha256)) && At(v, ["uri"]) == Some(Str(o.uri))
  }

  predicate BindingSays(v: Json, b: Binding) {
    && At(v, ["commit"]) == Some(Str(b.commit)) && At(v, ["content_sha256"]) == Some(Str(b.content))
    && At(v, ["entrypoint"]) == Some(Str(b.entrypoint)) && At(v, ["git_tree"]) == Some(Str(b.tree))
    && At(v, ["repository"]) == Some(Str(b.repository))
  }

  const GIT_NAMES: set<string> := {
    "artifact_schema", "commit", "content_sha256", "entrypoint", "git_tree", "outputs", "repository"}

  /** The document of an artifact, by kind. */
  ghost predicate Says(v: Json, a: Artifact) {
    match a
    case DefaultAgent =>
      HasKeys(Some(v), {"artifact_schema"}) && At(v, ["artifact_schema"]) == Some(Str(Key("agent-default-v1")))
    case Skill(files) =>
      && HasKeys(Some(v), {"artifact_schema", "files"})
      && At(v, ["artifact_schema"]) == Some(Str(Key("agent-skill-v1")))
      && At(v, ["files"]).Some? && At(v, ["files"]).value.Arr? && |At(v, ["files"]).value.items| == |files|
      && forall i :: 0 <= i < |files| ==> FileSays(At(v, ["files"]).value.items[i], files[i])
    case GitCandidate(b, outputs) =>
      && HasKeys(Some(v), GIT_NAMES) && BindingSays(v, b)
      && At(v, ["artifact_schema"]) == Some(Str(Key("git-candidate-v1")))
      && At(v, ["outputs"]).Some? && At(v, ["outputs"]).value.Arr? && |At(v, ["outputs"]).value.items| == |outputs|
      && forall i :: 0 <= i < |outputs| ==> OutputSays(At(v, ["outputs"]).value.items[i], outputs[i])
  }

  lemma FileDocumentSays(f: File)
    ensures FileSays(FileDocument(f), f)
  {
    hide Key, At;
    AllKeysDiffer();
    AtOne(FileDocument(f), "content");
    AtOne(FileDocument(f), "executable");
    AtOne(FileDocument(f), "path");
  }

  lemma OutputDocumentSays(o: Output)
    ensures OutputSays(OutputDocument(o), o)
  {
    hide Key, At;
    AllKeysDiffer();
    AtOne(OutputDocument(o), "kind");
    AtOne(OutputDocument(o), "name");
    AtOne(OutputDocument(o), "sha256");
    AtOne(OutputDocument(o), "uri");
  }

  lemma GitNamesSay(b: Binding, outputs: seq<Json>)
    ensures HasKeys(Some(GitDocument(b, outputs)), GIT_NAMES)
  {
    hide Key;
  }

  lemma GitFieldsSay(b: Binding, outputs: seq<Json>)
    ensures var f := GitDocument(b, outputs).fields;
      && Key("artifact_schema") in f && f[Key("artifact_schema")] == Str(Key("git-candidate-v1"))
      && Key("commit") in f && f[Key("commit")] == Str(b.commit)
      && Key("content_sha256") in f && f[Key("content_sha256")] == Str(b.content)
      && Key("entrypoint") in f && f[Key("entrypoint")] == Str(b.entrypoint)
      && Key("git_tree") in f && f[Key("git_tree")] == Str(b.tree)
      && Key("outputs") in f && f[Key("outputs")] == Arr(outputs)
      && Key("repository") in f && f[Key("repository")] == Str(b.repository)
  {
    AllKeysDiffer();
    GitKeysDiffer();
    hide Key;
  }

  lemma GitDocumentSays(b: Binding, outputs: seq<Json>)
    ensures var v := GitDocument(b, outputs);
      && HasKeys(Some(v), GIT_NAMES) && BindingSays(v, b)
      && At(v, ["artifact_schema"]) == Some(Str(Key("git-candidate-v1")))
      && At(v, ["outputs"]) == Some(Arr(outputs))
  {
    hide Key, At, HasKeys, GitDocument;
    var v := GitDocument(b, outputs);
    assert v.Obj? by { GitIsObject(b, outputs); }
    GitNamesSay(b, outputs);
    GitFieldsSay(b, outputs);
    AtOne(v, "artifact_schema");
    AtOne(v, "commit");
    AtOne(v, "content_sha256");
    AtOne(v, "entrypoint");
    AtOne(v, "git_tree");
    AtOne(v, "outputs");
    AtOne(v, "repository");
  }

  lemma GitIsObject(b: Binding, outputs: seq<Json>)
    ensures GitDocument(b, outputs).Obj?
  {
  }

  lemma SkillDocumentSays(files: seq<Json>)
    ensures var v := SkillDocument(files);
      && HasKeys(Some(v), {"artifact_schema", "files"})
      && At(v, ["artifact_schema"]) == Some(Str(Key("agent-skill-v1")))
      && At(v, ["files"]) == Some(Arr(files))
  {
    hide Key, At;
    AllKeysDiffer();
    var v := SkillDocument(files);
    AtOne(v, "artifact_schema");
    AtOne(v, "files");
  }

  /** Every artifact document says what the artifact is. */
  lemma DocumentSays(a: Artifact)
    ensures Says(Document(a), a)
  {
    hide Key, At, FileSays, OutputSays, FileDocument, OutputDocument, GitDocument, SkillDocument, HasKeys, BindingSays;
    match a {
      case DefaultAgent => DefaultSays();
      case Skill(files) =>
        SkillDocumentSays(FileDocuments(files));
        forall i | 0 <= i < |files| ensures FileSays(FileDocuments(files)[i], files[i]) {
          FileDocumentSays(files[i]);
        }
      case GitCandidate(b, outputs) =>
        GitDocumentSays(b, OutputDocuments(outputs));
        forall i | 0 <= i < |outputs| ensures OutputSays(OutputDocuments(outputs)[i], outputs[i]) {
          OutputDocumentSays(outputs[i]);
        }
    }
  }

  lemma DefaultSays()
    ensures Says(Document(DefaultAgent), DefaultAgent)
  {
    hide Key, At;
    AllKeysDiffer();
    AtOne(Document(DefaultAgent), "artifact_schema");
  }

  /** A candidate record holds the artifact's document and the digest of the artifact and schema together. */
  lemma RecordSays(sha: Sha, a: Artifact)
    ensures var v := RecordOf(sha, a);
      && HasKeys(Some(v), {"artifact", "candidate_id"})
      && At(v, ["artifact"]) == Some(Document(a)) && At(v, ["candidate_id"]) == Some(Str(CandidateId(sha, a)))
  {
    hide Key, At, Document, CandidateId;
    AllKeysDiffer();
    AtOne(RecordOf(sha, a), "artifact");
    AtOne(RecordOf(sha, a), "candidate_id");
  }

  /** The identity is the digest of the artifact's document under its schema. */
  lemma IdentitySays(sha: Sha, a: Artifact)
    ensures exists v ::
      && CandidateId(sha, a) == sha(Print(v)) && HasKeys(Some(v), {"artifact", "candidate_schema"})
      && At(v, ["artifact"]) == Some(Document(a))
      && At(v, ["candidate_schema"]) == Some(Str(Key("agent-candidate-v1")))
  {
    hide Key, At, Document, Print;
    AllKeysDiffer();
    AtOne(Identified(a), "artifact");
    AtOne(Identified(a), "candidate_schema");
    assert CandidateId(sha, a) == sha(Print(Identified(a)));
  }

  // ----- normal artifacts

  predicate Named(s: seq<Code>) {
    s != [] && forall i :: 0 <= i < |s| ==> s[i] != 0 && !(0xD800 <= s[i] <= 0xDFFF)
  }

  /** What an output must be. */
  predicate OutputFits(o: Output) {
    && Named(o.kind) && Named(o.name) && Named(o.uri)
    && |o.sha256| == 64 && forall i :: 0 <= i < 64 ==> 48 <= o.sha256[i] <= 57 || 97 <= o.sha256[i] <= 102
  }

  predicate Hexadecimal(s: seq<Code>, lengths: set<nat>) {
    |s| in lengths && forall i :: 0 <= i < |s| ==> 48 <= s[i] <= 57 || 97 <= s[i] <= 102
  }

  predicate FileFits(f: File) {
    && Named(f.path) && NormalPath(f.path)
    && forall i :: 0 <= i < |f.content| ==> !(0xD800 <= f.content[i] <= 0xDFFF)
  }

  /** Normal files ascend strictly by path and hold a skill file that is not empty. */
  lemma NormalFilesAre(files: seq<File>)
    ensures NormalFiles(files) <==>
      && (forall i, j :: 0 <= i < j < |files| ==> Order.Less(files[i].path, files[j].path))
      && (forall i :: 0 <= i < |files| ==> FileFits(files[i]))
      && exists i :: 0 <= i < |files| && files[i].path == Key("SKILL.md") && files[i].content != []
  {
    hide NormalPath, Order.Less;
    forall i | 0 <= i < |files| ensures ValidFile(files[i]) <==> FileFits(files[i]) {
    }
  }

  /** Normal outputs ascend strictly by kind, and by name within a kind. */
  lemma NormalOutputsAre(outputs: seq<Output>)
    ensures NormalOutputs(outputs) <==>
      && (forall i, j :: 0 <= i < j < |outputs| ==>
            || Order.Less(outputs[i].kind, outputs[j].kind)
            || (outputs[i].kind == outputs[j].kind && Order.Less(outputs[i].name, outputs[j].name)))
      && forall i :: 0 <= i < |outputs| ==> OutputFits(outputs[i])
  {
    hide Order.Less, Pair;
    forall i, j | 0 <= i < j < |outputs|
      ensures Order.Less(Identity(outputs[i]), Identity(outputs[j])) <==>
        || Order.Less(outputs[i].kind, outputs[j].kind)
        || (outputs[i].kind == outputs[j].kind && Order.Less(outputs[i].name, outputs[j].name))
    {
      PairOrder(outputs[i].kind, outputs[i].name, outputs[j].kind, outputs[j].name);
    }
    forall i | 0 <= i < |outputs| ensures ValidOutput(outputs[i]) <==> OutputFits(outputs[i]) {
    }
  }

  lemma BindingIs(b: Binding)
    ensures ValidBinding(b) <==>
      && Hexadecimal(b.commit, {40, 64}) && Hexadecimal(b.tree, {40, 64}) && Hexadecimal(b.content, {64})
      && Named(b.entrypoint) && NormalPath(b.entrypoint) && Named(b.repository)
  {
    hide NormalPath;
  }
}
