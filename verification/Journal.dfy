/** `journal.py`: content-addressed records and the canonical newline-terminated file that holds them. */
module Journal {
  import opened Text
  import opened Newlines
  import opened Wire
  import opened WireRoundTrip
  import opened WireCanonical

  /** `sha256(text).hexdigest()` on canonical ASCII text. */
  type Sha = seq<Code> -> seq<Code>

  predicate IsSha256(text: seq<Code>) {
    |text| == 64 && IsHex(text)
  }

  lemma Sha256Spells(text: seq<Code>)
    ensures IsSha256(text) <==> exists raw: seq<Byte> :: |raw| == 32 && Spells(text, raw)
  {
    hide IsHex, Spells;
    HexSpelling(text, 32);
  }

  /** What `hexdigest` promises about its output. */
  ghost predicate HexOutput(sha: Sha) {
    forall text :: IsSha256(sha(text))
  }

  /** A dictionary key written as an ordinary string. */
  function Key(name: string): (key: seq<Code>)
    ensures |key| == |name| && forall i :: 0 <= i < |name| ==> key[i] == name[i] as int
  {
    seq(|name|, i requires 0 <= i < |name| => name[i] as int)
  }

  const RECORD_ID: seq<Code> := Key("record_id")

  type Fields = map<seq<Code>, Json>

  function Digest(sha: Sha, body: Fields): seq<Code> {
    sha(Print(Obj(body)))
  }

  /** `content_record`; None when the body already holds an identity. */
  function ContentRecord(sha: Sha, body: Fields): Option<Fields> {
    if RECORD_ID in body then None else Some(body[RECORD_ID := Str(Digest(sha, body))])
  }

  function BodyOf(record: Fields): Fields {
    record - {RECORD_ID}
  }

  /** `validate_content_record`: the identity, when it is well formed and fits the rest of the record. */
  function ValidateRecord(sha: Sha, record: Fields): Option<seq<Code>> {
    if RECORD_ID !in record || !record[RECORD_ID].Str? || !IsSha256(record[RECORD_ID].s) then None
    else if Digest(sha, BodyOf(record)) != record[RECORD_ID].s then None
    else Some(record[RECORD_ID].s)
  }

  /** A record validates exactly when it is what `content_record` makes of its own body. */
  lemma ValidatesIffContentRecord(sha: Sha, record: Fields)
    requires HexOutput(sha)
    ensures ValidateRecord(sha, record).Some? <==> ContentRecord(sha, BodyOf(record)) == Some(record)
    ensures ValidateRecord(sha, record).Some? ==> ValidateRecord(sha, record) == Some(Digest(sha, BodyOf(record)))
  {
    var body := BodyOf(record);
    if RECORD_ID in record && record[RECORD_ID] == Str(Digest(sha, body)) {
      assert body[RECORD_ID := Str(Digest(sha, body))] == record;
    }
    if ContentRecord(sha, body) == Some(record) {
      assert record[RECORD_ID] == Str(Digest(sha, body));
    }
  }

  // ----- the file

  /** What `append_fsynced` writes for one record. */
  function LineOf(record: Json): seq<Code> {
    Print(record) + [NEWLINE]
  }

  function FileOf(records: seq<Json>): seq<Code> {
    if records == [] then [] else LineOf(records[0]) + FileOf(records[1..])
  }

  datatype Read = Records(records: seq<Json>) | Incomplete | EmptyLine | NotCanonical

  /** `decode_canonical_records`, line by line. */
  function DecodeLines(lines: seq<seq<Code>>): Read {
    if lines == [] then Records([])
    else if !Canonical(lines[0]) then NotCanonical
    else
      var rest := DecodeLines(lines[1..]);
      if rest.Records? then Records([Decode(lines[0]).value] + rest.records) else rest
  }

  /** The loop of `decode_canonical_records`. */
  method DecodeRecords(lines: seq<seq<Code>>) returns (r: Read)
    ensures r == DecodeLines(lines)
  {
    hide Canonical, Decode, DecodeLines;
    var records: seq<Json> := [];
    assert lines[0..] == lines;
    Appends([], DecodeLines(lines));
    for i := 0 to |lines|
      invariant DecodeLines(lines) == Appended(records, DecodeLines(lines[i..]))
    {
      var line := lines[i];
      DecodeFirst(lines[i..]);
      if !Canonical(line) {
        return NotCanonical;
      }
      CanonicalDecodes(line);
      assert lines[i..][1..] == lines[i + 1..];
      Appends(records + [Decode(line).value], DecodeLines(lines[i + 1..]));
      records := records + [Decode(line).value];
    }
    NoLines();
    assert records + [] == records;
    return Records(records);
  }

  lemma NoLines()
    ensures DecodeLines([]) == Records([])
  {
  }

  lemma DecodeFirst(lines: seq<seq<Code>>)
    requires lines != []
    ensures DecodeLines(lines) ==
      if !Canonical(lines[0]) then NotCanonical else Appended([Decode(lines[0]).value], DecodeLines(lines[1..]))
  {
    hide Canonical, Decode;
    CanonicalDecodes(lines[0]);
  }

  lemma Appends(records: seq<Json>, rest: Read)
    ensures forall a: seq<Json>, b: seq<Json> :: a + b == records ==>
      Appended(a, Appended(b, rest)) == Appended(records, rest)
  {
    forall a: seq<Json>, b: seq<Json> | a + b == records && rest.Records?
      ensures a + (b + rest.records) == records + rest.records {
    }
  }

  lemma CanonicalDecodes(line: seq<Code>)
    ensures Canonical(line) ==> Decode(line).Ok?
  {
  }

  ghost function Appended(records: seq<Json>, rest: Read): Read {
    if rest.Records? then Records(records + rest.records) else rest
  }

  /** `read_complete_lines` followed by `decode_canonical_records`; None is a missing file. */
  function ReadFile(file: Option<seq<Code>>): Read {
    if file.None? then Records([])
    else
      var text := Translate(file.value);
      if text == [] || text[|text| - 1] != LF then Incomplete
      else
        var lines := SplitLines(text);
        if [] in lines then EmptyLine else DecodeLines(lines)
  }

  /** A record the canonical file can hold: an object without split surrogate pairs. */
  ghost predicate Storable(record: Json) {
    record.Obj? && Clean(record)
  }

  ghost predicate AllStorable(records: seq<Json>) {
    forall i :: 0 <= i < |records| ==> Storable(records[i])
  }

  // ----- canonical lines survive text mode and line splitting

  lemma LinePlain(record: Json)
    ensures NoBoundary(Print(record)) && CR !in Print(record) && Print(record) != []
  {
    hide Print;
    PrintPrintable(record);
    PrintStart(record);
  }

  lemma {:induction false} TranslateFile(records: seq<Json>, tail: seq<Code>)
    requires CR !in tail
    ensures Translate(FileOf(records) + tail) == FileOf(records) + tail
  {
    FilePlain(records);
    TranslateWithoutCr(FileOf(records) + tail);
  }

  lemma {:induction false} FilePlain(records: seq<Json>)
    ensures CR !in FileOf(records)
  {
    hide Print;
    if records != [] {
      FilePlain(records[1..]);
      LinePlain(records[0]);
    }
  }

  lemma {:induction false} FileEnds(records: seq<Json>)
    requires records != []
    ensures FileOf(records) != [] && FileOf(records)[|FileOf(records)| - 1] == LF
  {
    hide Print;
    if |records| > 1 {
      FileEnds(records[1..]);
    }
  }

  function Lines(records: seq<Json>): seq<seq<Code>> {
    if records == [] then [] else [Print(records[0])] + Lines(records[1..])
  }

  lemma {:induction false} SplitFile(records: seq<Json>)
    ensures SplitLines(FileOf(records)) == Lines(records) && [] !in Lines(records)
  {
    hide Print;
    if records != [] {
      LinePlain(records[0]);
      SplitFile(records[1..]);
      SplitLine(Print(records[0]), FileOf(records[1..]));
      assert FileOf(records) == Print(records[0]) + ([LF] + FileOf(records[1..]));
    }
  }

  lemma {:induction false} DecodeFile(records: seq<Json>)
    requires AllStorable(records)
    ensures DecodeLines(Lines(records)) == Records(records)
  {
    hide Print, Decode;
    if records != [] {
      OneCanonicalText(Print(records[0]), records[0]);
      DecodeFile(records[1..]);
      assert Lines(records)[1..] == Lines(records[1..]);
      assert records == [records[0]] + records[1..];
    }
  }

  /** A file of appended records reads back as exactly those records. */
  lemma ReadBack(records: seq<Json>)
    requires AllStorable(records) && records != []
    ensures ReadFile(Some(FileOf(records))) == Records(records)
  {
    hide Print, Decode, Translate, SplitLines, FileOf, Lines;
    assert FileOf(records) + [] == FileOf(records);
    TranslateFile(records, []);
    FileEnds(records);
    SplitFile(records);
    DecodeFile(records);
  }

  /** Everything a file reads back as can be stored, so it was not changed by printing. */
  lemma {:induction false} DecodedStorable(lines: seq<seq<Code>>)
    requires DecodeLines(lines).Records?
    ensures AllStorable(DecodeLines(lines).records)
  {
    hide Print, Decode, Clean;
    if lines != [] {
      CanonicalDecodes(lines[0]);
      DecodedStorable(lines[1..]);
      OneCanonicalText(lines[0], Decode(lines[0]).value);
    }
  }

  lemma ReadStorable(file: Option<seq<Code>>)
    requires ReadFile(file).Records?
    ensures AllStorable(ReadFile(file).records)
  {
    hide DecodeLines, SplitLines, Translate, Storable;
    if file.Some? {
      DecodedStorable(SplitLines(Translate(file.value)));
    }
  }

  lemma {:induction false} FileOfAppend(records: seq<Json>, record: Json)
    ensures FileOf(records + [record]) == FileOf(records) + LineOf(record)
  {
    hide LineOf;
    if records == [] {
      assert [record][1..] == [] && LineOf(record) + [] == LineOf(record);
    } else {
      assert (records + [record])[1..] == records[1..] + [record];
      FileOfAppend(records[1..], record);
    }
  }

  lemma {:induction false} DecodeMore(lines: seq<seq<Code>>, record: Json)
    requires DecodeLines(lines).Records? && Storable(record)
    ensures DecodeLines(lines + [Print(record)]) == Records(DecodeLines(lines).records + [record])
  {
    hide Print, Decode, Canonical, Storable;
    if lines == [] {
      OneCanonicalText(Print(record), record);
      assert Storable(record) ==> record.Obj? && Clean(record) by { StorableMeans(record); }
      assert ([Print(record)])[1..] == [];
    } else {
      assert (lines + [Print(record)])[1..] == lines[1..] + [Print(record)];
      DecodeMore(lines[1..], record);
    }
  }

  lemma StorableMeans(record: Json)
    requires Storable(record)
    ensures record.Obj? && Clean(record)
  {
  }

  /** Appending one record to any readable file, whatever its line endings, reads back as the old records and the
      new one. */
  lemma AppendReads(content: seq<Code>, record: Json)
    requires ReadFile(Some(content)).Records? && Storable(record)
    ensures ReadFile(Some(content + LineOf(record))) == Records(ReadFile(Some(content)).records + [record])
  {
    hide Print, Storable, DecodeLines, Translate, SplitLines;
    var text, line := Translate(content), LineOf(record);
    LinePlain(record);
    assert line[0] == Print(record)[0] && line[0] != LF;
    TranslateAppend(content, line);
    SplitAppend(text, line);
    SplitLine(Print(record), []);
    assert Print(record) + ([LF] + []) == line;
    assert SplitLines([]) == [] by { NothingSplits(); }
    var lines := SplitLines(text);
    assert SplitLines(line) == [Print(record)] + [] == [Print(record)];
    assert SplitLines(text + line) == lines + [Print(record)];
    assert [] !in lines + [Print(record)];
    assert (text + line)[|text + line| - 1] == LF;
    DecodeMore(lines, record);
  }

  /** A readable file that exists holds a record. */
  lemma ReadableIsNonEmpty(content: seq<Code>)
    requires ReadFile(Some(content)).Records?
    ensures ReadFile(Some(content)).records != []
  {
    hide Decode, Canonical;
    var text := Translate(content);
    assert SplitLines(text) != [];
  }

  /** A readable file, whatever its line endings, cut after `count` characters of one append: the old records when
      nothing of the line is there, the new ones when all of it is, and an error for every cut between. An empty
      `content` is the file the append itself creates. */
  lemma CutAppend(content: seq<Code>, record: Json, count: nat)
    requires (content == [] || ReadFile(Some(content)).Records?) && Storable(record) && count <= |LineOf(record)|
    ensures var before := if content == [] then [] else ReadFile(Some(content)).records;
      ReadFile(Some(content + LineOf(record)[..count])) ==
        if count == |LineOf(record)| then Records(before + [record])
        else if count == 0 && content != [] then Records(before)
        else Incomplete
  {
    hide Print, FileOf, ReadFile, Storable;
    var part := LineOf(record)[..count];
    if count == |LineOf(record)| {
      assert part == LineOf(record);
      if content == [] {
        assert content + part == FileOf([record]) by { OneLineFile(record); }
        ReadBack([record]);
      } else {
        AppendReads(content, record);
      }
    } else if count == 0 {
      assert content + part == content;
      if content == [] {
        EmptyIncomplete();
      }
    } else {
      LinePlain(record);
      assert part == Print(record)[..count];
      CutIncomplete(content, part);
    }
  }

  lemma OneLineFile(record: Json)
    ensures FileOf([record]) == LineOf(record)
  {
    hide LineOf;
    assert LineOf(record) + [] == LineOf(record);
  }

  lemma EmptyIncomplete()
    ensures ReadFile(Some([])) == Incomplete
  {
  }

  lemma CutIncomplete(content: seq<Code>, part: seq<Code>)
    requires part != [] && CR !in part && NoBoundary(part)
    ensures ReadFile(Some(content + part)) == Incomplete
  {
    hide Translate, SplitLines, DecodeLines;
    TranslateAppend(content, part);
    var text := Translate(content) + part;
    assert text[|text| - 1] == part[|part| - 1];
  }
}
