/** `agent_protocol.py`: normalised artifacts, candidate records and their identities. */
module AgentProtocol {
  import opened Text
  import opened Wire
  import opened Journal
  import opened JsonChecks
  import opened ArtifactPaths
  import opened Sorting
  import Order

  const SCHEMA_KEY := Key("artifact_schema")
  const DEFAULT_SCHEMA := Str(Key("agent-default-v1"))
  const SKILL_SCHEMA := Str(Key("agent-skill-v1"))
  const GIT_SCHEMA := Str(Key("git-candidate-v1"))
  const CANDIDATE_SCHEMA := Str(Key("agent-candidate-v1"))
  const SKILL_PATH := Key("SKILL.md")

  datatype File = File(path: seq<Code>, content: seq<Code>, executable: bool)

  datatype Output = Output(kind: seq<Code>, name: seq<Code>, sha256: seq<Code>, uri: seq<Code>)

  datatype Binding = Binding(commit: seq<Code>, content: seq<Code>, entrypoint: seq<Code>, tree: seq<Code>,
      repository: seq<Code>)

  datatype Artifact = DefaultAgent | Skill(files: seq<File>) | GitCandidate(binding: Binding, outputs: seq<Output>)

  // ----- documents

  function FileDocument(f: File): Json {
    Obj(map[Key("content") := Str(f.content), Key("executable") := Bool(f.executable), Key("path") := Str(f.path)])
  }

  function OutputDocument(o: Output): Json {
    Obj(map[Key("kind") := Str(o.kind), Key("name") := Str(o.name), Key("sha256") := Str(o.sha256),
      Key("uri") := Str(o.uri)])
  }

  function GitDocument(b: Binding, outputs: seq<Json>): Json {
    Obj(map[
      SCHEMA_KEY := GIT_SCHEMA, Key("commit") := Str(b.commit), Key("content_sha256") := Str(b.content),
      Key("entrypoint") := Str(b.entrypoint), Key("git_tree") := Str(b.tree), Key("outputs") := Arr(outputs),
      Key("repository") := Str(b.repository)])
  }

  function SkillDocument(files: seq<Json>): Json {
    Obj(map[SCHEMA_KEY := SKILL_SCHEMA, Key("files") := Arr(files)])
  }

  function FileDocuments(files: seq<File>): (docs: seq<Json>)
    ensures |docs| == |files| && forall i :: 0 <= i < |files| ==> docs[i] == FileDocument(files[i])
  {
    seq(|files|, i requires 0 <= i < |files| => FileDocument(files[i]))
  }

  function OutputDocuments(outputs: seq<Output>): (docs: seq<Json>)
    ensures |docs| == |outputs| && forall i :: 0 <= i < |outputs| ==> docs[i] == OutputDocument(outputs[i])
  {
    seq(|outputs|, i requires 0 <= i < |outputs| => OutputDocument(outputs[i]))
  }

  function Document(a: Artifact): Json {
    match a
    case DefaultAgent => Obj(map[SCHEMA_KEY := DEFAULT_SCHEMA])
    case Skill(files) => SkillDocument(FileDocuments(files))
    case GitCandidate(b, outputs) => GitDocument(b, OutputDocuments(outputs))
  }

  // ----- decoding one item

  predicate NormalPathString(v: Json) {
    NonEmptyString(v) && NormalPath(v.s)
  }

  /** One element of `files`. */
  function DecodeFile(v: Json): Option<File> {
    if !v.Obj? || v.fields.Keys != {Key("content"), Key("executable"), Key("path")} then None
    else
      var content, executable, path := v.fields[Key("content")], v.fields[Key("executable")], v.fields[Key("path")];
      if !NormalPathString(path) || !content.Str? || !EncodableString(content.s) || !executable.Bool? then None
      else Some(File(path.s, content.s, executable.b))
  }

  /** `_decode_git_output` */
  function DecodeOutput(v: Json): Option<Output> {
    if !v.Obj? || v.fields.Keys != {Key("kind"), Key("name"), Key("sha256"), Key("uri")} then None
    else
      var kind, name, sha256, uri := v.fields[Key("kind")], v.fields[Key("name")], v.fields[Key("sha256")],
        v.fields[Key("uri")];
      if !NonEmptyString(kind) || !NonEmptyString(name) || !Sha256String(sha256) || !NonEmptyString(uri) then None
      else Some(Output(kind.s, name.s, sha256.s, uri.s))
  }

  predicate ValidFile(f: File) {
    NormalPathString(Str(f.path)) && EncodableString(f.content)
  }

  predicate ValidOutput(o: Output) {
    NonEmptyString(Str(o.kind)) && NonEmptyString(Str(o.name)) && IsSha256(o.sha256) && NonEmptyString(Str(o.uri))
  }

  lemma FileKeysDiffer()
    ensures Key("content") != Key("executable") && Key("content") != Key("path") && Key("executable") != Key("path")
  {
    assert |Key("content")| == 7 && |Key("executable")| == 10 && |Key("path")| == 4;
  }

  lemma OutputKeysDiffer()
    ensures Key("kind") != Key("name") && Key("kind") != Key("sha256") && Key("kind") != Key("uri")
    ensures Key("name") != Key("sha256") && Key("name") != Key("uri") && Key("sha256") != Key("uri")
  {
    assert Key("kind")[0] == 'k' as int && Key("name")[0] == 'n' as int;
    assert |Key("kind")| == 4 && |Key("name")| == 4 && |Key("sha256")| == 6 && |Key("uri")| == 3;
  }

  /** A file decodes from its own document and from no other. */
  lemma FileDecodes(v: Json, f: File)
    ensures DecodeFile(v) == Some(f) <==> v == FileDocument(f) && ValidFile(f)
  {
    FileKeysDiffer();
    hide NormalPath, EncodableString, Key;
    var document := FileDocument(f).fields;
    assert document.Keys == {Key("content"), Key("executable"), Key("path")};
    if DecodeFile(v) == Some(f) {
      assert v.fields[Key("content")] == document[Key("content")];
      assert v.fields[Key("executable")] == document[Key("executable")];
      assert v.fields[Key("path")] == document[Key("path")];
      assert v.fields == document;
    }
  }

  lemma OutputDecodes(v: Json, o: Output)
    ensures DecodeOutput(v) == Some(o) <==> v == OutputDocument(o) && ValidOutput(o)
  {
    OutputKeysDiffer();
    hide EncodableString, IsSha256, Key;
    var document := OutputDocument(o).fields;
    assert document.Keys == {Key("kind"), Key("name"), Key("sha256"), Key("uri")};
    if DecodeOutput(v) == Some(o) {
      assert v.fields[Key("kind")] == document[Key("kind")];
      assert v.fields[Key("name")] == document[Key("name")];
      assert v.fields[Key("sha256")] == document[Key("sha256")];
      assert v.fields[Key("uri")] == document[Key("uri")];
      assert v.fields == document;
    }
  }

  // ----- lists of items

  function PathOf(f: File): seq<int> {
    f.path
  }

  /** Python's order on `(kind, name)`: a separator below every character keeps pairs in tuple order. */
  function Pair(kind: seq<int>, name: seq<int>): seq<int> {
    kind + ([-1] + name)
  }

  function Identity(o: Output): seq<int> {
    Pair(o.kind, o.name)
  }

  lemma {:induction false} PairOrder(kind: seq<int>, name: seq<int>, kind': seq<int>, name': seq<int>)
    requires (forall i :: 0 <= i < |kind| ==> kind[i] >= 0) && forall i :: 0 <= i < |kind'| ==> kind'[i] >= 0
    ensures Order.Less(Pair(kind, name), Pair(kind', name'))
      <==> Order.Less(kind, kind') || (kind == kind' && Order.Less(name, name'))
    decreases |kind|
  {
    var a, b := Pair(kind, name), Pair(kind', name');
    if kind != [] && kind' != [] {
      PairOrder(kind[1..], name, kind'[1..], name');
      assert a[1..] == Pair(kind[1..], name) && b[1..] == Pair(kind'[1..], name');
      assert kind == [kind[0]] + kind[1..] && kind' == [kind'[0]] + kind'[1..];
    } else if kind == [] && kind' == [] {
      assert a[1..] == name && b[1..] == name';
    }
  }

  function AllFiles(docs: seq<Json>): Option<seq<File>> {
    if docs == [] then Some([])
    else
      var before, last := AllFiles(docs[..|docs| - 1]), DecodeFile(docs[|docs| - 1]);
      if before.None? || last.None? then None else Some(before.value + [last.value])
  }

  function AllOutputs(docs: seq<Json>): Option<seq<Output>> {
    if docs == [] then Some([])
    else
      var before, last := AllOutputs(docs[..|docs| - 1]), DecodeOutput(docs[|docs| - 1]);
      if before.None? || last.None? then None else Some(before.value + [last.value])
  }

  lemma {:induction false} AllFilesMeans(docs: seq<Json>, files: seq<File>)
    ensures AllFiles(docs) == Some(files)
      <==> docs == FileDocuments(files) && forall i :: 0 <= i < |files| ==> ValidFile(files[i])
  {
    hide DecodeFile, ValidFile, FileDocument;
    if docs == [] || files == [] {
    } else {
      var before, last := docs[..|docs| - 1], docs[|docs| - 1];
      var shorter := files[..|files| - 1];
      AllFilesMeans(before, shorter);
      FileDecodes(last, files[|files| - 1]);
      assert files == shorter + [files[|files| - 1]];
      assert docs == before + [last];
      assert FileDocuments(files) == FileDocuments(shorter) + [FileDocument(files[|files| - 1])];
      assert AllFiles(docs) == Some(files)
        <==> AllFiles(before) == Some(shorter) && DecodeFile(last) == Some(files[|files| - 1]);
      assert docs == FileDocuments(files)
        <==> before == FileDocuments(shorter) && last == FileDocument(files[|files| - 1]);
    }
  }

  lemma {:induction false} AllOutputsMeans(docs: seq<Json>, outputs: seq<Output>)
    ensures AllOutputs(docs) == Some(outputs)
      <==> docs == OutputDocuments(outputs) && forall i :: 0 <= i < |outputs| ==> ValidOutput(outputs[i])
  {
    hide DecodeOutput, ValidOutput, OutputDocument;
    if docs == [] || outputs == [] {
    } else {
      var before, last := docs[..|docs| - 1], docs[|docs| - 1];
      var shorter := outputs[..|outputs| - 1];
      AllOutputsMeans(before, shorter);
      OutputDecodes(last, outputs[|outputs| - 1]);
      assert outputs == shorter + [outputs[|outputs| - 1]];
      assert docs == before + [last];
      assert OutputDocuments(outputs) == OutputDocuments(shorter) + [OutputDocument(outputs[|outputs| - 1])];
      assert AllOutputs(docs) == Some(outputs)
        <==> AllOutputs(before) == Some(shorter) && DecodeOutput(last) == Some(outputs[|outputs| - 1]);
      assert docs == OutputDocuments(outputs)
        <==> before == OutputDocuments(shorter) && last == OutputDocument(outputs[|outputs| - 1]);
    }
  }

  predicate HasSkill(files: seq<File>) {
    exists i :: 0 <= i < |files| && files[i].path == SKILL_PATH && files[i].content != []
  }

  function NormaliseFiles(docs: seq<Json>): Option<seq<File>> {
    var files := AllFiles(docs);
    if files.None? || !DistinctBy(files.value, PathOf) || !HasSkill(files.value) then None
    else Some(SortBy(files.value, PathOf))
  }

  function NormaliseOutputs(docs: seq<Json>): Option<seq<Output>> {
    var outputs := AllOutputs(docs);
    if outputs.None? || !DistinctBy(outputs.value, Identity) then None
    else Some(SortBy(outputs.value, Identity))
  }

  // ----- normal form

  /** A skill as it is after normalisation. */
  ghost predicate NormalFiles(files: seq<File>) {
    && AscendingBy(files, PathOf)
    && (forall i :: 0 <= i < |files| ==> ValidFile(files[i]))
    && HasSkill(files)
  }

  ghost predicate NormalOutputs(outputs: seq<Output>) {
    AscendingBy(outputs, Identity) && forall i :: 0 <= i < |outputs| ==> ValidOutput(outputs[i])
  }

  predicate ValidBinding(b: Binding) {
    && GitObjectId(Str(b.commit)) && IsSha256(b.content) && NormalPathString(Str(b.entrypoint))
    && GitObjectId(Str(b.tree)) && NonEmptyString(Str(b.repository))
  }

  ghost predicate Normal(a: Artifact) {
    match a
    case DefaultAgent => true
    case Skill(files) => NormalFiles(files)
    case GitCandidate(b, outputs) => ValidBinding(b) && NormalOutputs(outputs)
  }

  /** The document is that of the artifact, with the files or outputs in any order. */
  ghost predicate UpToOrder(v: Json, a: Artifact) {
    match a
    case DefaultAgent => v == Document(a)
    case Skill(files) => exists order :: multiset(order) == multiset(files) && v == Document(Skill(order))
    case GitCandidate(b, outputs) =>
      exists order :: multiset(order) == multiset(outputs) && v == Document(GitCandidate(b, order))
  }

  function Paths(files: seq<File>): set<seq<Code>> {
    set k | 0 <= k < |files| :: files[k].path
  }

  lemma PathsGrow(files: seq<File>, last: File)
    ensures Paths(files + [last]) == Paths(files) + {last.path}
  {
    var more := files + [last];
    assert more[|files|] == last;
    forall k | 0 <= k < |files| ensures more[k].path in Paths(more) && more[k] == files[k] {
    }
  }

  /** The `files` loop of `decode_agent_artifact`. */
  method DecodeFiles(docs: seq<Json>) returns (r: Option<seq<File>>)
    ensures r == NormaliseFiles(docs)
  {
    hide DecodeFile, SortBy;
    var files: seq<File>, seen: set<seq<Code>> := [], {};
    for i := 0 to |docs|
      invariant AllFiles(docs[..i]) == Some(files)
      invariant DistinctBy(files, PathOf)
      invariant seen == Paths(files)
    {
      hide HasSkill;
      assert docs[..i + 1][..i] == docs[..i];
      var decoded := DecodeFile(docs[i]);
      if decoded.None? {
        StuckFiles(docs, i + 1);
        return None;
      }
      if decoded.value.path in seen {
        RepeatedFile(docs, i + 1, files, decoded.value);
        return None;
      }
      DistinctAppend(files, decoded.value, PathOf);
      assert Paths(files + [decoded.value]) == seen + {decoded.value.path} by {
        PathsGrow(files, decoded.value);
      }
      files := files + [decoded.value];
      seen := seen + {decoded.value.path};
    }
    assert docs[..|docs|] == docs;
    if !HasSkill(files) {
      return None;
    }
    return Some(SortBy(files, PathOf));
  }

  lemma {:induction false} StuckFiles(docs: seq<Json>, count: nat)
    requires count <= |docs| && AllFiles(docs[..count]).None?
    ensures AllFiles(docs).None?
    decreases |docs|
  {
    if count < |docs| {
      assert docs[..|docs| - 1][..count] == docs[..count];
      StuckFiles(docs[..|docs| - 1], count);
    } else {
      assert docs[..count] == docs;
    }
  }

  lemma RepeatedFile(docs: seq<Json>, count: nat, files: seq<File>, last: File)
    requires count <= |docs| && AllFiles(docs[..count]) == Some(files + [last])
    requires exists k :: 0 <= k < |files| && files[k].path == last.path
    ensures NormaliseFiles(docs).None?
  {
    var k :| 0 <= k < |files| && files[k].path == last.path;
    if AllFiles(docs).Some? {
      PrefixFiles(docs, count);
      var all := AllFiles(docs).value;
      assert PathOf(all[k]) == PathOf(all[|files|]);
    }
  }

  lemma {:induction false} PrefixFiles(docs: seq<Json>, count: nat)
    requires count <= |docs| && AllFiles(docs).Some?
    ensures AllFiles(docs[..count]).Some? && AllFiles(docs[..count]).value <= AllFiles(docs).value
    decreases |docs|
  {
    if count < |docs| {
      assert docs[..|docs| - 1][..count] == docs[..count];
      PrefixFiles(docs[..|docs| - 1], count);
    } else {
      assert docs[..count] == docs;
    }
  }

  // ----- normalisation

  lemma FilesNormalise(docs: seq<Json>, files: seq<File>)
    ensures NormaliseFiles(docs) == Some(files)
      <==> NormalFiles(files) && exists order :: multiset(order) == multiset(files) && docs == FileDocuments(order)
  {
    hide ValidFile, FileDocument, SortBy;
    if NormaliseFiles(docs) == Some(files) {
      var order := AllFiles(docs).value;
      AllFilesMeans(docs, order);
      SortKeeps(order, PathOf);
      SortAscends(order, PathOf);
      SameFiles(order, files);
    }
    if NormalFiles(files) {
      forall order | multiset(order) == multiset(files) && docs == FileDocuments(order)
        ensures NormaliseFiles(docs) == Some(files) {
        SameFiles(files, order);
        AllFilesMeans(docs, order);
        AscendingIsDistinct(files, PathOf);
        DistinctPermuted(files, order, PathOf);
        SortKeeps(order, PathOf);
        SortAscends(order, PathOf);
        AscendingUnique(SortBy(order, PathOf), files, PathOf);
      }
    }
  }

  /** Validity and the presence of `SKILL.md` do not depend on order. */
  lemma SameFiles(a: seq<File>, b: seq<File>)
    requires multiset(a) == multiset(b)
    ensures (forall i :: 0 <= i < |a| ==> ValidFile(a[i])) ==> forall i :: 0 <= i < |b| ==> ValidFile(b[i])
    ensures HasSkill(a) ==> HasSkill(b)
  {
    hide ValidFile;
    forall i | 0 <= i < |b| ensures exists j :: 0 <= j < |a| && a[j] == b[i] {
      var j := Members(b, a, i);
    }
    if HasSkill(a) {
      var i :| 0 <= i < |a| && a[i].path == SKILL_PATH && a[i].content != [];
      var j := Members(a, b, i);
    }
  }

  lemma OutputsNormalise(docs: seq<Json>, outputs: seq<Output>)
    ensures NormaliseOutputs(docs) == Some(outputs) <==>
      NormalOutputs(outputs)
      && exists order :: multiset(order) == multiset(outputs) && docs == OutputDocuments(order)
  {
    hide ValidOutput, OutputDocument, SortBy;
    if NormaliseOutputs(docs) == Some(outputs) {
      var order := AllOutputs(docs).value;
      AllOutputsMeans(docs, order);
      SortKeeps(order, Identity);
      SortAscends(order, Identity);
      SameOutputs(order, outputs);
    }
    if NormalOutputs(outputs) {
      forall order | multiset(order) == multiset(outputs) && docs == OutputDocuments(order)
        ensures NormaliseOutputs(docs) == Some(outputs)
      {
        SameOutputs(outputs, order);
        AllOutputsMeans(docs, order);
        AscendingIsDistinct(outputs, Identity);
        DistinctPermuted(outputs, order, Identity);
        SortKeeps(order, Identity);
        SortAscends(order, Identity);
        AscendingUnique(SortBy(order, Identity), outputs, Identity);
      }
    }
  }

  lemma SameOutputs(a: seq<Output>, b: seq<Output>)
    requires multiset(a) == multiset(b)
    ensures (forall i :: 0 <= i < |a| ==> ValidOutput(a[i])) ==> forall i :: 0 <= i < |b| ==> ValidOutput(b[i])
  {
    hide ValidOutput;
    forall i | 0 <= i < |b| ensures exists j :: 0 <= j < |a| && a[j] == b[i] {
      var j := Members(b, a, i);
    }
  }
}
