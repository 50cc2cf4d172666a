/** `agent_protocol.py`: whole artifacts, candidate records, and what a changed path means. */
module AgentCandidates {
  import opened Text
  import opened Wire
  import opened WireRoundTrip
  import opened WireCanonical
  import opened Journal
  import opened JsonChecks
  import opened ArtifactPaths
  import opened AgentProtocol
  import opened Sorting
  import Order

  // ----- artifacts

  const GIT_KEYS: set<seq<Code>> := {
    SCHEMA_KEY, Key("commit"), Key("content_sha256"), Key("entrypoint"), Key("git_tree"), Key("outputs"),
      Key("repository")
  }

  /** `_decode_git_artifact` */
  function DecodeGit(fields: Fields): (r: Option<Artifact>)
    ensures r.Some? ==> r.value.GitCandidate?
  {
    if fields.Keys != GIT_KEYS then None
    else
      var commit, content, entrypoint := fields[Key("commit")], fields[Key("content_sha256")],
        fields[Key("entrypoint")];
      var tree, outputs, repository := fields[Key("git_tree")], fields[Key("outputs")], fields[Key("repository")];
      if !outputs.Arr? || NormaliseOutputs(outputs.items).None? then None
      else if !GitObjectId(commit) || !Sha256String(content) || !NormalPathString(entrypoint) || !GitObjectId(tree)
        || !NonEmptyString(repository) then None
      else Some(GitCandidate(Binding(commit.s, content.s, entrypoint.s, tree.s, repository.s),
        NormaliseOutputs(outputs.items).value))
  }

  function DecodeSkill(fields: Fields): (r: Option<Artifact>)
    ensures r.Some? ==> r.value.Skill?
  {
    if fields.Keys != {SCHEMA_KEY, Key("files")} || !fields[Key("files")].Arr? then None
    else
      var files := NormaliseFiles(fields[Key("files")].items);
      if files.None? then None else Some(Skill(files.value))
  }

  /** `decode_agent_artifact`: the artifact in normal form. */
  function DecodeArtifact(v: Json): Option<Artifact> {
    if !v.Obj? || SCHEMA_KEY !in v.fields then None
    else if v.fields[SCHEMA_KEY] == DEFAULT_SCHEMA then
      if v.fields.Keys == {SCHEMA_KEY} then Some(DefaultAgent) else None
    else if v.fields[SCHEMA_KEY] == GIT_SCHEMA then DecodeGit(v.fields)
    else if v.fields[SCHEMA_KEY] == SKILL_SCHEMA then DecodeSkill(v.fields)
    else None
  }

  lemma SchemasDiffer()
    ensures DEFAULT_SCHEMA != GIT_SCHEMA && DEFAULT_SCHEMA != SKILL_SCHEMA && GIT_SCHEMA != SKILL_SCHEMA
  {
    assert |DEFAULT_SCHEMA.s| == 16 && |GIT_SCHEMA.s| == 16 && |SKILL_SCHEMA.s| == 14;
    assert DEFAULT_SCHEMA.s[0] == 'a' as int && GIT_SCHEMA.s[0] == 'g' as int;
  }

  lemma GitKeysDiffer()
    ensures SCHEMA_KEY !in {Key("commit"), Key("content_sha256"), Key("entrypoint"), Key("git_tree"), Key("outputs"),
      Key("repository"), Key("files")}
    ensures Key("commit") !in {Key("content_sha256"), Key("entrypoint"), Key("git_tree"), Key("outputs"),
      Key("repository")}
    ensures Key("content_sha256") !in {Key("entrypoint"), Key("git_tree"), Key("outputs"), Key("repository")}
    ensures Key("entrypoint") !in {Key("git_tree"), Key("outputs"), Key("repository")}
    ensures Key("git_tree") !in {Key("outputs"), Key("repository")}
    ensures Key("outputs") != Key("repository")
  {
    assert |SCHEMA_KEY| == 15 && |Key("commit")| == 6 && |Key("content_sha256")| == 14 && |Key("git_tree")| == 8;
    assert |Key("outputs")| == 7 && |Key("files")| == 5 && |Key("entrypoint")| == 10 && |Key("repository")| == 10;
    assert Key("entrypoint")[0] == 'e' as int && Key("repository")[0] == 'r' as int;
  }

  lemma SkillDecodes(v: Json, files: seq<File>)
    ensures DecodeArtifact(v) == Some(Skill(files)) <==> Normal(Skill(files)) && UpToOrder(v, Skill(files))
  {
    SchemasDiffer();
    GitKeysDiffer();
    hide NormaliseFiles, NormalFiles, DecodeGit, Key, FileDocument;
    if DecodeArtifact(v) == Some(Skill(files)) {
      var docs := v.fields[Key("files")].items;
      FilesNormalise(docs, files);
      var order :| multiset(order) == multiset(files) && docs == FileDocuments(order);
      assert v.fields == Document(Skill(order)).fields;
    }
    if Normal(Skill(files)) && UpToOrder(v, Skill(files)) {
      var order :| multiset(order) == multiset(files) && v == Document(Skill(order));
      FilesNormalise(FileDocuments(order), files);
      assert v.fields.Keys == {SCHEMA_KEY, Key("files")};
    }
  }

  lemma GitFields(b: Binding, outputs: seq<Json>)
    ensures GitDocument(b, outputs).Obj?
    ensures var fields := GitDocument(b, outputs).fields;
      && fields.Keys == GIT_KEYS && fields[SCHEMA_KEY] == GIT_SCHEMA && fields[Key("outputs")] == Arr(outputs)
      && fields[Key("commit")] == Str(b.commit) && fields[Key("content_sha256")] == Str(b.content)
      && fields[Key("entrypoint")] == Str(b.entrypoint) && fields[Key("git_tree")] == Str(b.tree)
      && fields[Key("repository")] == Str(b.repository)
  {
    GitKeysDiffer();
    hide Key;
  }

  lemma GitOfDocument(b: Binding, docs: seq<Json>, outputs: seq<Output>)
    ensures DecodeGit(GitDocument(b, docs).fields) == Some(GitCandidate(b, outputs))
      <==> ValidBinding(b) && NormaliseOutputs(docs) == Some(outputs)
  {
    hide NormaliseOutputs, Key, NonEmptyString, NormalPath, IsSha256, GitObjectId;
    GitFields(b, docs);
    hide GitDocument;
  }

  lemma GitHasDocument(fields: Fields, b: Binding, outputs: seq<Output>)
    requires DecodeGit(fields) == Some(GitCandidate(b, outputs))
    ensures Key("outputs") in fields && fields[Key("outputs")].Arr?
    ensures SCHEMA_KEY in fields && fields[SCHEMA_KEY] == GIT_SCHEMA ==>
      Obj(fields) == GitDocument(b, fields[Key("outputs")].items)
  {
    hide NormaliseOutputs, Key, EncodableString, NormalPath, IsSha256;
    var docs := fields[Key("outputs")].items;
    GitFields(b, docs);
    if fields[SCHEMA_KEY] == GIT_SCHEMA {
      var document := GitDocument(b, docs).fields;
      hide GitDocument;
      assert forall k :: k in GIT_KEYS ==> fields[k] == document[k];
      assert fields == document;
    }
  }

  lemma GitDecodes(v: Json, b: Binding, outputs: seq<Output>)
    ensures DecodeArtifact(v) == Some(GitCandidate(b, outputs))
      <==> Normal(GitCandidate(b, outputs)) && UpToOrder(v, GitCandidate(b, outputs))
  {
    SchemasDiffer();
    hide NormaliseOutputs, NormalOutputs, DecodeSkill, DecodeGit, Key, OutputDocument, ValidBinding, GitDocument;
    if DecodeArtifact(v) == Some(GitCandidate(b, outputs)) {
      GitHasDocument(v.fields, b, outputs);
      var docs := v.fields[Key("outputs")].items;
      GitOfDocument(b, docs, outputs);
      OutputsNormalise(docs, outputs);
      var order :| multiset(order) == multiset(outputs) && docs == OutputDocuments(order);
      assert v == Document(GitCandidate(b, order));
    }
    if Normal(GitCandidate(b, outputs)) && UpToOrder(v, GitCandidate(b, outputs)) {
      var order :| multiset(order) == multiset(outputs) && v == Document(GitCandidate(b, order));
      var docs := OutputDocuments(order);
      OutputsNormalise(docs, outputs);
      GitOfDocument(b, docs, outputs);
      GitFields(b, docs);
      assert v == GitDocument(b, docs);
      assert SCHEMA_KEY in GIT_KEYS;
    }
  }

  /** Decoding accepts exactly the documents of normal artifacts, files and outputs in any order, and returns that
      artifact. */
  lemma DecodesUpToOrder(v: Json, a: Artifact)
    ensures DecodeArtifact(v) == Some(a) <==> Normal(a) && UpToOrder(v, a)
  {
    match a {
      case DefaultAgent =>
        SchemasDiffer();
        hide DecodeGit, DecodeSkill, Key;
        if DecodeArtifact(v) == Some(a) {
          assert v.fields == Document(a).fields;
        }
      case Skill(files) => SkillDecodes(v, files);
      case GitCandidate(b, outputs) => GitDecodes(v, b, outputs);
    }
  }

  /** Normalisation is idempotent. */
  lemma Idempotent(v: Json, a: Artifact)
    requires DecodeArtifact(v) == Some(a)
    ensures DecodeArtifact(Document(a)) == Some(a)
  {
    DecodesUpToOrder(v, a);
    InOrder(a);
    DecodesUpToOrder(Document(a), a);
  }

  lemma InOrder(a: Artifact)
    ensures UpToOrder(Document(a), a)
  {
  }

  /** One normal document per artifact. */
  lemma DocumentInjective(a: Artifact, b: Artifact)
    requires Normal(a) && Normal(b) && Document(a) == Document(b)
    ensures a == b
  {
    InOrder(a);
    InOrder(b);
    DecodesUpToOrder(Document(a), a);
    DecodesUpToOrder(Document(b), b);
  }

  // ----- candidate records

  const ARTIFACT_KEY := Key("artifact")
  const ID_KEY := Key("candidate_id")

  /** What a candidate identity is the digest of. */
  function Identified(a: Artifact): Json {
    Obj(map[ARTIFACT_KEY := Document(a), Key("candidate_schema") := CANDIDATE_SCHEMA])
  }

  function CandidateId(sha: Sha, a: Artifact): seq<Code> {
    sha(Print(Identified(a)))
  }

  function RecordOf(sha: Sha, a: Artifact): Json {
    Obj(map[ARTIFACT_KEY := Document(a), ID_KEY := Str(CandidateId(sha, a))])
  }

  /** `candidate_record` */
  function CandidateRecord(sha: Sha, v: Json): Option<Json> {
    var a := DecodeArtifact(v);
    if a.None? then None else Some(RecordOf(sha, a.value))
  }

  /** `decode_candidate` */
  function DecodeCandidate(sha: Sha, v: Json): Option<Json> {
    if !v.Obj? || v.fields.Keys != {ARTIFACT_KEY, ID_KEY} || !Sha256String(v.fields[ID_KEY]) then None
    else
      var record := CandidateRecord(sha, v.fields[ARTIFACT_KEY]);
      if record.None? || v.fields[ID_KEY] != record.value.fields[ID_KEY] then None
      else record
  }

  lemma RecordKeysDiffer()
    ensures ARTIFACT_KEY != ID_KEY && ARTIFACT_KEY != Key("candidate_schema")
  {
    assert |ARTIFACT_KEY| == 8 && |ID_KEY| == 12 && |Key("candidate_schema")| == 16;
  }

  /** The record of a normal artifact, with its files or outputs in any order. */
  ghost predicate RecordUpToOrder(sha: Sha, v: Json, a: Artifact) {
    exists x :: UpToOrder(x, a) && v == Obj(map[ARTIFACT_KEY := x, ID_KEY := Str(CandidateId(sha, a))])
  }

  /** `decode_candidate` accepts exactly the records `candidate_record` makes, up to the order of files or outputs,
      and returns the one in normal order. */
  lemma DecodesItsOwnRecords(sha: Sha, v: Json, r: Json)
    requires HexOutput(sha)
    ensures DecodeCandidate(sha, v) == Some(r)
      <==> exists a :: Normal(a) && RecordUpToOrder(sha, v, a) && r == RecordOf(sha, a)
  {
    RecordKeysDiffer();
    hide DecodeArtifact, UpToOrder, Document, Print, Normal, Key, IsSha256, Identified;
    if DecodeCandidate(sha, v) == Some(r) {
      var x := v.fields[ARTIFACT_KEY];
      var a := DecodeArtifact(x).value;
      DecodesUpToOrder(x, a);
      assert v.fields == map[ARTIFACT_KEY := x, ID_KEY := Str(CandidateId(sha, a))];
      assert RecordUpToOrder(sha, v, a);
    }
    forall a | Normal(a) && RecordUpToOrder(sha, v, a) && r == RecordOf(sha, a)
      ensures DecodeCandidate(sha, v) == Some(r) {
      var x :| UpToOrder(x, a) && v == Obj(map[ARTIFACT_KEY := x, ID_KEY := Str(CandidateId(sha, a))]);
      DecodesUpToOrder(x, a);
      assert v.fields.Keys == {ARTIFACT_KEY, ID_KEY};
    }
  }

  // ----- identities

  lemma KeyIsClean(name: string)
    ensures CleanString(Key(name))
  {
  }

  lemma HexIsClean(s: seq<Code>)
    requires forall i :: 0 <= i < |s| ==> IsDigit(s[i]) || 97 <= s[i] <= 102
    ensures CleanString(s)
  {
  }

  lemma ObjectClean(fields: Fields)
    requires forall k :: k in fields ==> CleanString(k) && Clean(fields[k])
    ensures Clean(Obj(fields))
  {
  }

  lemma NamesClean()
    ensures forall k :: k in GIT_KEYS + {Key("files"), ARTIFACT_KEY, Key("candidate_schema")} ==> CleanString(k)
    ensures Clean(DEFAULT_SCHEMA) && Clean(GIT_SCHEMA) && Clean(SKILL_SCHEMA) && Clean(CANDIDATE_SCHEMA)
  {
    KeyIsClean("artifact_schema");
    KeyIsClean("commit");
    KeyIsClean("content_sha256");
    KeyIsClean("entrypoint");
    KeyIsClean("git_tree");
    KeyIsClean("outputs");
    KeyIsClean("repository");
    KeyIsClean("files");
    KeyIsClean("artifact");
    KeyIsClean("candidate_schema");
    KeyIsClean("agent-default-v1");
    KeyIsClean("git-candidate-v1");
    KeyIsClean("agent-skill-v1");
    KeyIsClean("agent-candidate-v1");
    hide Key, CleanString;
  }

  lemma FileClean(f: File)
    requires ValidFile(f)
    ensures Clean(FileDocument(f))
  {
    EncodableIsClean(f.path);
    EncodableIsClean(f.content);
    KeyIsClean("content");
    KeyIsClean("executable");
    KeyIsClean("path");
    hide Key, CleanString, EncodableString, NormalPath;
  }

  lemma OutputClean(o: Output)
    requires ValidOutput(o)
    ensures Clean(OutputDocument(o))
  {
    EncodableIsClean(o.kind);
    EncodableIsClean(o.name);
    EncodableIsClean(o.uri);
    HexIsClean(o.sha256);
    KeyIsClean("kind");
    KeyIsClean("name");
    KeyIsClean("sha256");
    KeyIsClean("uri");
    hide Key, CleanString, EncodableString, IsSha256;
  }

  lemma BindingClean(b: Binding)
    requires ValidBinding(b)
    ensures Clean(Str(b.commit)) && Clean(Str(b.content)) && Clean(Str(b.entrypoint)) && Clean(Str(b.tree))
      && Clean(Str(b.repository))
  {
    EncodableIsClean(b.entrypoint);
    EncodableIsClean(b.repository);
    HexIsClean(b.commit);
    HexIsClean(b.content);
    HexIsClean(b.tree);
    hide CleanString, EncodableString, NormalPath;
  }

  lemma GitClean(b: Binding, docs: seq<Json>)
    requires ValidBinding(b) && Clean(Arr(docs))
    ensures Clean(GitDocument(b, docs))
  {
    hide ValidBinding, Key, Clean, CleanString;
    BindingClean(b);
    NamesClean();
    GitFields(b, docs);
    hide GitDocument;
    ObjectClean(GitDocument(b, docs).fields);
  }

  lemma SkillClean(docs: seq<Json>)
    requires Clean(Arr(docs))
    ensures Clean(SkillDocument(docs))
  {
    hide Key, Clean, CleanString;
    NamesClean();
    ObjectClean(SkillDocument(docs).fields);
  }

  lemma DocumentClean(a: Artifact)
    requires Normal(a)
    ensures Clean(Document(a))
  {
    hide Key, CleanString, FileDocument, OutputDocument, ValidFile, ValidOutput, ValidBinding, GitDocument,
      SkillDocument;
    match a {
      case DefaultAgent =>
        NamesClean();
      case Skill(files) =>
        var docs := FileDocuments(files);
        forall i | 0 <= i < |docs| ensures Clean(docs[i]) {
          FileClean(files[i]);
        }
        assert Clean(Arr(docs));
        SkillClean(docs);
      case GitCandidate(b, outputs) =>
        var docs := OutputDocuments(outputs);
        forall i | 0 <= i < |docs| ensures Clean(docs[i]) {
          OutputClean(outputs[i]);
        }
        assert Clean(Arr(docs));
        GitClean(b, docs);
    }
  }

  lemma IdentifiedClean(a: Artifact)
    requires Normal(a)
    ensures Clean(Identified(a))
  {
    hide Key, Clean, CleanString, Document, Normal;
    DocumentClean(a);
    NamesClean();
    ObjectClean(Identified(a).fields);
  }

  /** The texts whose digests are these two identities: different texts, one digest. */
  predicate IdentitiesCollide(sha: Sha, a: Artifact, b: Artifact) {
    var x, y := Print(Identified(a)), Print(Identified(b));
    x != y && sha(x) == sha(y)
  }

  /** Equal identities mean equal artifacts, unless these very two documents collide. */
  lemma IdentityFixesArtifact(sha: Sha, a: Artifact, b: Artifact)
    requires Normal(a) && Normal(b)
    ensures CandidateId(sha, a) == CandidateId(sha, b) <==> a == b || IdentitiesCollide(sha, a, b)
  {
    hide Key, Clean, Document, Print, Normal;
    IdentifiedClean(a);
    IdentifiedClean(b);
    RecordKeysDiffer();
    if Print(Identified(a)) == Print(Identified(b)) {
      PrintInjective(Identified(a), Identified(b));
      assert Identified(a).fields[ARTIFACT_KEY] == Identified(b).fields[ARTIFACT_KEY];
      DocumentInjective(a, b);
    }
  }

  // ----- changed paths

  const AT_GIT := Key("@git-candidate")

  /** `_artifact_file_map` */
  function FileMap(a: Artifact): map<seq<Code>, (seq<Code>, bool)> {
    if a.Skill? then FilesMap(a.files) else map[]
  }

  function FilesMap(files: seq<File>): map<seq<Code>, (seq<Code>, bool)> {
    if files == [] then map[]
    else
      var last := files[|files| - 1];
      FilesMap(files[..|files| - 1])[last.path := (last.content, last.executable)]
  }

  function Lookup(files: map<seq<Code>, (seq<Code>, bool)>, path: seq<Code>): Option<(seq<Code>, bool)> {
    if path in files then Some(files[path]) else None
  }

  function Differing(a: map<seq<Code>, (seq<Code>, bool)>, b: map<seq<Code>, (seq<Code>, bool)>): set<seq<Code>> {
    set path | path in a.Keys + b.Keys && Lookup(a, path) != Lookup(b, path)
  }

  /** `changed_artifact_paths` */
  function ChangedPaths(parent: Artifact, challenger: Artifact): seq<seq<int>> {
    if parent.GitCandidate? || challenger.GitCandidate? then if parent == challenger then [] else [AT_GIT]
    else Order.Sorted(Differing(FileMap(parent), FileMap(challenger)))
  }

  lemma LastIsNew(before: seq<File>, last: File)
    requires DistinctBy(before + [last], PathOf)
    ensures forall f :: f in before ==> f.path != last.path
  {
    var files := before + [last];
    forall k | 0 <= k < |before| ensures before[k].path != last.path {
      assert PathOf(files[k]) != PathOf(files[|before|]);
    }
  }

  lemma {:induction false} MapHolds(files: seq<File>, f: File)
    requires DistinctBy(files, PathOf)
    ensures f in files <==> Lookup(FilesMap(files), f.path) == Some((f.content, f.executable))
  {
    if files != [] {
      var before, last := files[..|files| - 1], files[|files| - 1];
      MapHolds(before, f);
      LastIsNew(before, last);
      assert files == before + [last];
    }
  }

  lemma SameMapSameFiles(a: seq<File>, b: seq<File>)
    requires AscendingBy(a, PathOf) && AscendingBy(b, PathOf) && FilesMap(a) == FilesMap(b)
    ensures a == b
  {
    AscendingIsDistinct(a, PathOf);
    AscendingIsDistinct(b, PathOf);
    forall f ensures f in a <==> f in b {
      MapHolds(a, f);
      MapHolds(b, f);
    }
    SameMembers(a, b);
    AscendingUnique(a, b, PathOf);
  }

  lemma {:induction false} Once(files: seq<File>, f: File)
    requires DistinctBy(files, PathOf)
    ensures multiset(files)[f] == if f in files then 1 else 0
  {
    if files != [] {
      var before, last := files[..|files| - 1], files[|files| - 1];
      assert files == before + [last];
      LastIsNew(before, last);
      Once(before, f);
    }
  }

  lemma SameMembers(a: seq<File>, b: seq<File>)
    requires DistinctBy(a, PathOf) && DistinctBy(b, PathOf) && forall f :: f in a <==> f in b
    ensures multiset(a) == multiset(b)
  {
    forall f ensures multiset(a)[f] == multiset(b)[f] {
      Once(a, f);
      Once(b, f);
    }
  }

  /** No path changed exactly when the artifacts are the same, across all three kinds. */
  lemma UnchangedIffSame(a: Artifact, b: Artifact)
    requires Normal(a) && Normal(b)
    ensures ChangedPaths(a, b) == [] <==> a == b
  {
    hide ValidFile, ValidBinding, NormalOutputs;
    if !a.GitCandidate? && !b.GitCandidate? {
      var differing := Differing(FileMap(a), FileMap(b));
      assert Order.Sorted(differing) == [] <==> differing == {};
      if differing == {} {
        forall path ensures Lookup(FileMap(a), path) == Lookup(FileMap(b), path) {
          assert path !in differing;
        }
        MapsAgree(FileMap(a), FileMap(b));
        if a.Skill? && b.Skill? {
          SameMapSameFiles(a.files, b.files);
        } else if a.Skill? {
          SkillMapNonEmpty(a.files);
        } else if b.Skill? {
          SkillMapNonEmpty(b.files);
        }
      }
    }
  }

  lemma SkillMapNonEmpty(files: seq<File>)
    requires HasSkill(files)
    ensures FilesMap(files) != map[]
  {
    assert files[|files| - 1].path in FilesMap(files);
  }

  lemma MapsAgree(a: map<seq<Code>, (seq<Code>, bool)>, b: map<seq<Code>, (seq<Code>, bool)>)
    requires forall path :: Lookup(a, path) == Lookup(b, path)
    ensures a == b
  {
    forall path ensures path in a <==> path in b {
      assert Lookup(a, path) == Lookup(b, path);
    }
    forall path | path in a ensures a[path] == b[path] {
      assert Lookup(a, path) == Lookup(b, path);
    }
  }

  /** Two candidates have equal identities exactly when no artifact path changed, or these very two documents
      collide. */
  lemma SameIdIffUnchanged(sha: Sha, a: Artifact, b: Artifact)
    requires Normal(a) && Normal(b)
    ensures CandidateId(sha, a) == CandidateId(sha, b) <==> ChangedPaths(a, b) == [] || IdentitiesCollide(sha, a, b)
  {
    hide ChangedPaths, IdentitiesCollide, CandidateId, Normal;
    UnchangedIffSame(a, b);
    IdentityFixesArtifact(sha, a, b);
  }

  /** The artifact has a file at this path with this content and mode. */
  predicate HoldsFile(a: Artifact, f: File) {
    a.Skill? && f in a.files
  }

  /** Exactly the paths at which one artifact has a file that the other does not have as it is, ascending; for Git
      candidates the one mark, when they differ at all. */
  lemma ChangedPathsAre(a: Artifact, b: Artifact, path: seq<Code>)
    requires Normal(a) && Normal(b)
    ensures Order.Ascending(ChangedPaths(a, b))
    ensures a.GitCandidate? || b.GitCandidate? ==>
      ChangedPaths(a, b) == (if a == b then [] else [Key("@git-candidate")])
    ensures !a.GitCandidate? && !b.GitCandidate? ==>
      (path in ChangedPaths(a, b) <==> exists f: File :: f.path == path && HoldsFile(a, f) != HoldsFile(b, f))
  {
    hide ValidFile, ValidBinding, NormalOutputs, Order.Less;
    if !a.GitCandidate? && !b.GitCandidate? {
      assert path in ChangedPaths(a, b) <==> path in Differing(FileMap(a), FileMap(b));
      forall f: File | f.path == path
        ensures HoldsFile(a, f) <==> Lookup(FileMap(a), path) == Some((f.content, f.executable))
        ensures HoldsFile(b, f) <==> Lookup(FileMap(b), path) == Some((f.content, f.executable))
      {
        FileLookup(a, f);
        FileLookup(b, f);
      }
      DiffersAt(a, b, path);
    }
  }

  lemma FileLookup(a: Artifact, f: File)
    requires Normal(a)
    ensures HoldsFile(a, f) <==> Lookup(FileMap(a), f.path) == Some((f.content, f.executable))
  {
    hide ValidFile, ValidBinding, NormalOutputs, Order.Less;
    if a.Skill? {
      AscendingIsDistinct(a.files, PathOf);
      MapHolds(a.files, f);
    }
  }

  lemma DiffersAt(a: Artifact, b: Artifact, path: seq<Code>)
    requires forall f: File :: f.path == path ==>
      && (HoldsFile(a, f) <==> Lookup(FileMap(a), path) == Some((f.content, f.executable)))
      && (HoldsFile(b, f) <==> Lookup(FileMap(b), path) == Some((f.content, f.executable)))
    ensures path in Differing(FileMap(a), FileMap(b)) <==>
      exists f: File :: f.path == path && HoldsFile(a, f) != HoldsFile(b, f)
  {
    hide HoldsFile, FileMap;
    var x, y := Lookup(FileMap(a), path), Lookup(FileMap(b), path);
    if x != y {
      var (content, executable) := if x.Some? then x.value else y.value;
      var f := File(path, content, executable);
      assert f.path == path && HoldsFile(a, f) != HoldsFile(b, f);
    }
  }
}
