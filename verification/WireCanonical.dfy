/** When a document survives `canonical_json` and strict decoding, and what a canonical text fixes. */
module WireCanonical {
  import opened Text
  import opened Wire
  import opened WireRoundTrip

  /** Printable ASCII, the only characters `canonical_json` emits. */
  predicate Printable(text: seq<Code>) {
    forall i :: 0 <= i < |text| ==> 32 <= text[i] <= 126
  }

  lemma {:induction false} EscapePrintable(s: seq<Code>)
    ensures Printable(EscapeAll(s))
  {
    if s != [] {
      EscapePrintable(s[1..]);
      assert Printable(EscapeChar(s[0])) by { EscapeCharPrintable(s[0]); }
    }
  }

  lemma EscapeCharPrintable(c: Code)
    ensures Printable(EscapeChar(c))
  {
  }

  lemma PrintStringPrintable(s: seq<Code>)
    ensures Printable(PrintString(s))
  {
    hide EscapeAll;
    EscapePrintable(s);
  }

  lemma {:induction false} PrintPrintable(v: Json)
    ensures Printable(Print(v))
    decreases v, 1
  {
    hide PrintItems, PrintMembers, EscapeAll, SortedKeys, PrintString, Decimal;
    match v
    case Str(s) => PrintStringPrintable(s);
    case Arr(items) => if items != [] { ItemsPrintable(items); }
    case Obj(fields) =>
      var keys := SortedKeys(fields.Keys);
      if keys != [] {
        MembersPrintable(v, keys);
      }
    case _ =>
  }

  lemma {:induction false} ItemsPrintable(items: seq<Json>)
    requires items != []
    ensures Printable(PrintItems(items))
    decreases items, 0
  {
    hide Print;
    PrintPrintable(items[0]);
    if |items| > 1 {
      ItemsPrintable(items[1..]);
    }
  }

  lemma {:induction false} MembersPrintable(v: Json, keys: seq<seq<Code>>)
    requires v.Obj? && keys != [] && forall i :: 0 <= i < |keys| ==> keys[i] in v.fields
    ensures Printable(PrintMembers(v, keys))
    decreases v, 0, |keys|
  {
    hide Print, PrintString;
    PrintStringPrintable(keys[0]);
    PrintPrintable(v.fields[keys[0]]);
    if |keys| > 1 {
      MembersPrintable(v, keys[1..]);
    }
  }

  // ----- what the reader can return from text without surrogates

  /** Text with no surrogate code points, such as any text decoded from UTF-8. */
  predicate Plain(text: seq<Code>) {
    forall i :: 0 <= i < |text| ==> !High(text[i]) && !Low(text[i])
  }

  lemma ReadCharPlain(text: seq<Code>)
    requires Plain(text) && text != [] && ReadChar(text).Some?
    ensures Plain(ReadChar(text).value.1)
    ensures var (c, rest) := ReadChar(text).value;
      High(c) && rest != [] && ReadChar(rest).Some? ==> !Low(ReadChar(rest).value.0)
  {
    hide ReadHex4;
    var (c, rest) := ReadChar(text).value;
    if High(c) {
      assert rest == text[6..] && (|rest| < 2 || rest[2..] == text[8..]);
    }
  }

  lemma {:induction false} ReadStringClean(text: seq<Code>)
    requires Plain(text) && ReadString(text).Some?
    ensures CleanString(ReadString(text).value.0) && Plain(ReadString(text).value.1)
    decreases |text|
  {
    hide ReadChar, High, Low;
    if text[0] != QUOTE {
      var (c, rest) := ReadChar(text).value;
      ReadCharPlain(text);
      ReadStringClean(rest);
      var s := ReadString(rest).value.0;
      assert s != [] ==> ReadChar(rest).value.0 == s[0];
      assert forall i :: 0 < i <= |s| ==> ([c] + s)[i] == s[i - 1];
    }
  }

  lemma {:induction false} SkipPlain(text: seq<Code>)
    requires Plain(text)
    ensures Plain(Skip(text))
  {
    if text != [] && Blank(text[0]) {
      SkipPlain(text[1..]);
    }
  }

  lemma ReadNumberPlain(text: seq<Code>)
    requires Plain(text) && ReadNumber(text).Ok?
    ensures Clean(ReadNumber(text).value.0) && Plain(ReadNumber(text).value.1)
  {
    hide DigitRun, Value, FloatTail;
  }

  lemma {:induction false} ReadValueClean(text: seq<Code>)
    requires Plain(text) && ReadValue(text).Ok?
    ensures Clean(ReadValue(text).value.0) && Plain(ReadValue(text).value.1)
    decreases |text|, 1
  {
    hide ReadMembers, ReadItems, ReadNumber, ReadString, Skip;
    SkipPlain(text[1..]);
    var body := Skip(text[1..]);
    if text[0] == QUOTE {
      ReadStringClean(text[1..]);
    } else if text[0] == OPEN_OBJECT && !(body != [] && body[0] == CLOSE_OBJECT) {
      ReadMembersClean(body, map[], false);
    } else if text[0] == OPEN_ARRAY && !(body != [] && body[0] == CLOSE_ARRAY) {
      ReadItemsClean(body);
    } else if text[0] == MINUS || IsDigit(text[0]) {
      ReadNumberPlain(text);
    }
  }

  lemma {:induction false} ReadItemsClean(text: seq<Code>)
    requires Plain(text) && ReadItems(text).Ok?
    ensures forall i :: 0 <= i < |ReadItems(text).value.0| ==> Clean(ReadItems(text).value.0[i])
    ensures Plain(ReadItems(text).value.1)
    decreases |text|, 2
  {
    hide ReadValue, Skip, Clean;
    ReadValueClean(text);
    var first := ReadValue(text).value;
    SkipPlain(first.1);
    var after := Skip(first.1);
    if after[0] == COMMA {
      SkipPlain(after[1..]);
      ReadItemsClean(Skip(after[1..]));
    }
  }

  lemma {:induction false} ReadMembersClean(text: seq<Code>, fields: map<seq<Code>, Json>, repeated: bool)
    requires Plain(text) && ReadMembers(text, fields, repeated).Ok?
    requires forall k :: k in fields ==> CleanString(k) && Clean(fields[k])
    ensures Clean(ReadMembers(text, fields, repeated).value.0)
    ensures Plain(ReadMembers(text, fields, repeated).value.1)
    decreases |text|, 2
  {
    hide ReadValue, ReadString, Skip, CleanString;
    ReadStringClean(text[1..]);
    var key := ReadString(text[1..]).value;
    SkipPlain(key.1);
    var colon := Skip(key.1);
    SkipPlain(colon[1..]);
    ReadValueClean(Skip(colon[1..]));
    var member := ReadValue(Skip(colon[1..])).value;
    SkipPlain(member.1);
    var after := Skip(member.1);
    if after[0] == COMMA {
      SkipPlain(after[1..]);
      ReadMembersClean(Skip(after[1..]), fields[key.0 := member.0], repeated || key.0 in fields);
    }
  }

  // ----- the round trip

  /** A document decodes back from its canonical text exactly when no string in it splits a
      surrogate pair. */
  lemma RoundTrip(v: Json)
    requires v.Obj?
    ensures Decode(Print(v)) == Ok(v) <==> Clean(v)
  {
    hide Print, ReadValue, Skip;
    PrintPrintable(v);
    PrintStart(v);
    assert Print(v) + [] == Print(v);
    Unblank(Print(v));
    Unblank([]);
    if Clean(v) {
      ReadValueOfPrint(v, []);
    }
    if Decode(Print(v)) == Ok(v) {
      ReadValueClean(Print(v));
    }
  }

  /** A canonical text, with or without its newline, decodes only to a clean document. */
  lemma DecodedClean(source: seq<Code>)
    requires Plain(source) && Decode(source).Ok?
    ensures Decode(source).value.Obj? && Clean(Decode(source).value)
  {
    hide ReadValue, Skip, Clean;
    SkipPlain(source);
    ReadValueClean(Skip(source));
  }

  /** Two different documents have two different canonical texts. */
  lemma PrintInjective(a: Json, b: Json)
    requires Clean(a) && Clean(b) && Print(a) == Print(b)
    ensures a == b
  {
    hide Print, ReadValue;
    assert Print(a) + [] == Print(b) + [];
    ReadValueOfPrint(a, []);
    ReadValueOfPrint(b, []);
  }

  /** The split pair U+D83D U+DE00 prints like the one character U+1F600: without the
      condition the canonical text does not fix the document. */
  lemma SplitPairIsLost()
    ensures !Clean(Str([0xD83D, 0xDE00])) && Print(Str([0xD83D, 0xDE00])) == Print(Str([0x1F600]))
  {
    assert !CleanString([0xD83D, 0xDE00]) by {
      assert High([0xD83D, 0xDE00][0]) && Low([0xD83D, 0xDE00][1]);
    }
    assert [0xD83D, 0xDE00][1..] == [0xDE00] && [0x1F600][1..] == [] && [0xDE00][1..] == [];
    assert EscapeAll([0xDE00]) == EscapeChar(0xDE00) + EscapeAll([]);
    assert EscapeAll([0xD83D, 0xDE00]) == EscapeChar(0xD83D) + EscapeAll([0xDE00]);
    assert EscapeAll([0x1F600]) == EscapeChar(0x1F600) + EscapeAll([]);
    assert EscapeChar(0x1F600) == Escape4(0xD83D) + Escape4(0xDE00);
  }

  /** The test `line == canonical_json(decode(line))` of the journal reader. */
  predicate Canonical(line: seq<Code>) {
    Decode(line).Ok? && line == Print(Decode(line).value)
  }

  /** The lines that pass the test and decode to `v`: its canonical text when `v` is a clean object, no line
      otherwise. */
  lemma OneCanonicalText(line: seq<Code>, v: Json)
    ensures Canonical(line) && Decode(line) == Ok(v) <==> line == Print(v) && v.Obj? && Clean(v)
  {
    hide Print, ReadValue, Skip;
    if v.Obj? {
      RoundTrip(v);
    }
  }
}
