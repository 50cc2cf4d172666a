/** The strict reader undoes the canonical printer exactly on documents whose strings hold no high
    surrogate directly followed by a low one. */
module WireRoundTrip {
  import opened Text
  import opened Wire
  import Order

  predicate CleanString(s: seq<Code>) {
    forall i :: 0 <= i < |s| - 1 ==> !(High(s[i]) && Low(s[i + 1]))
  }

  /** No string of `v`, key or value, splits a surrogate pair into two code points. */
  ghost predicate Clean(v: Json) {
    match v
    case Str(s) => CleanString(s)
    case Arr(items) => forall i :: 0 <= i < |items| ==> Clean(items[i])
    case Obj(fields) => forall k :: k in fields ==> CleanString(k) && Clean(fields[k])
    case _ => true
  }

  // ----- characters and strings

  lemma HexDigitValue(n: nat)
    requires n < 16
    ensures HexValue(HexDigit(n)) == Some(n)
  {
  }

  lemma HexParts(n: nat)
    ensures n == n / 16 * 16 + n % 16
    ensures n / 16 == n / 256 * 16 + n / 16 % 16
    ensures n / 256 == n / 4096 * 16 + n / 256 % 16
  {
    Quarters(n);
    Quarters(n / 16);
    Quarters(n / 256);
    assert n / 16 / 16 == n / 256 && n / 256 / 16 == n / 4096;
  }

  lemma Quarters(n: nat)
    ensures n == n / 16 * 16 + n % 16
  {
  }

  lemma HexText(t: seq<Code>, a: nat, b: nat, c: nat, d: nat)
    requires a < 16 && b < 16 && c < 16 && d < 16 && |t| >= 4
    requires t[0] == HexDigit(a) && t[1] == HexDigit(b) && t[2] == HexDigit(c) && t[3] == HexDigit(d)
    ensures ReadHex4(t) == Some(a * 4096 + b * 256 + c * 16 + d)
  {
    hide HexValue, HexDigit;
    HexDigitValue(a);
    HexDigitValue(b);
    HexDigitValue(c);
    HexDigitValue(d);
  }

  lemma Hex4(n: nat, text: seq<Code>)
    requires n < 0x1_0000 && |text| >= 6 && text[..6] == Escape4(n)
    ensures ReadHex4(text[2..]) == Some(n)
  {
    hide HexValue, HexDigit, ReadHex4;
    HexParts(n);
    var t := text[2..];
    assert t[0] == text[..6][2] && t[1] == text[..6][3] && t[2] == text[..6][4] && t[3] == text[..6][5];
    HexText(t, n / 4096, n / 256 % 16, n / 16 % 16, n % 16);
  }

  /** What may follow a high surrogate escape without being joined to it. */
  predicate NotJoined(rest: seq<Code>) {
    |rest| >= 2 && rest[0] == BACKSLASH && rest[1] == LETTER_U ==>
      ReadHex4(rest[2..]).Some? && !Low(ReadHex4(rest[2..]).value)
  }

  lemma ReadCharOfEscape(c: Code, rest: seq<Code>)
    requires High(c) ==> NotJoined(rest)
    ensures ReadChar(EscapeChar(c) + rest) == Some((c, rest))
  {
    hide Escape4, ReadHex4;
    var text := EscapeChar(c) + rest;
    if c < 0x1_0000 && EscapeChar(c) == Escape4(c) {
      ReadCharOfUnit(c, text, rest);
    } else if c >= 0x1_0000 {
      ReadCharOfPair(c, text, rest);
    } else {
      assert text[|EscapeChar(c)|..] == rest;
    }
  }

  lemma Escape4Shape(n: nat)
    requires n < 0x1_0000
    ensures |Escape4(n)| == 6 && Escape4(n)[0] == BACKSLASH && Escape4(n)[1] == LETTER_U
  {
  }

  lemma ReadCharOfUnit(c: Code, text: seq<Code>, rest: seq<Code>)
    requires c < 0x1_0000 && text == Escape4(c) + rest
    requires High(c) ==> NotJoined(rest)
    ensures ReadChar(text) == Some((c, rest))
  {
    hide Escape4, ReadHex4, HexValue;
    Escape4Shape(c);
    assert text[..6] == Escape4(c) && text[6..] == rest;
    assert text[0] == BACKSLASH && text[1] == LETTER_U;
    Hex4(c, text);
    if |text| >= 8 {
      assert text[8..] == rest[2..] && text[6] == rest[0] && text[7] == rest[1];
    }
  }

  lemma ReadCharOfPair(c: Code, text: seq<Code>, rest: seq<Code>)
    requires c >= 0x1_0000
    requires text == Escape4(0xD800 + (c - 0x1_0000) / 1024) + Escape4(0xDC00 + (c - 0x1_0000) % 1024) + rest
    ensures ReadChar(text) == Some((c, rest))
  {
    hide Escape4, ReadHex4, HexValue;
    var high, low := 0xD800 + (c - 0x1_0000) / 1024, 0xDC00 + (c - 0x1_0000) % 1024;
    Escape4Shape(high);
    Escape4Shape(low);
    assert text[..6] == Escape4(high) && text[6..][..6] == Escape4(low) && text[12..] == rest;
    assert text[0] == BACKSLASH && text[1] == LETTER_U && text[6] == BACKSLASH && text[7] == LETTER_U;
    Hex4(high, text);
    Hex4(low, text[6..]);
    assert text[6..][2..] == text[8..];
    assert c == 0x1_0000 + (high - 0xD800) * 1024 + (low - 0xDC00);
  }

  lemma NotJoinedChar(c: Code, rest: seq<Code>)
    requires !Low(c)
    ensures NotJoined(EscapeChar(c) + rest)
  {
    hide Escape4, ReadHex4, HexValue, HexDigit;
    var text := EscapeChar(c) + rest;
    var unit := if c < 0x1_0000 then c else 0xD800 + (c - 0x1_0000) / 1024;
    Escape4Shape(unit);
    if EscapeChar(c) == Escape4(unit) || c >= 0x1_0000 {
      assert text[..6] == Escape4(unit);
      Hex4(unit, text);
    } else {
      assert text[0] == EscapeChar(c)[0];
      assert text[0] == BACKSLASH ==> text[1] == EscapeChar(c)[1];
    }
  }

  lemma NotJoinedNext(s: seq<Code>, tail: seq<Code>)
    requires s != [] ==> !Low(s[0])
    ensures NotJoined(EscapeAll(s) + ([QUOTE] + tail))
  {
    hide EscapeChar, ReadHex4;
    var text := EscapeAll(s) + ([QUOTE] + tail);
    if s == [] {
      assert text == [QUOTE] + tail;
    } else {
      hide NotJoined;
      NotJoinedChar(s[0], EscapeAll(s[1..]) + ([QUOTE] + tail));
      assert text == EscapeChar(s[0]) + (EscapeAll(s[1..]) + ([QUOTE] + tail));
    }
  }

  lemma {:induction false} ReadStringOfEscape(s: seq<Code>, rest: seq<Code>)
    requires CleanString(s)
    ensures ReadString(EscapeAll(s) + ([QUOTE] + rest)) == Some((s, rest))
  {
    hide EscapeChar, ReadChar, NotJoined;
    var text := EscapeAll(s) + ([QUOTE] + rest);
    if s == [] {
      assert text == [QUOTE] + rest;
    } else {
      var c, tail := s[0], EscapeAll(s[1..]) + ([QUOTE] + rest);
      assert text == EscapeChar(c) + tail;
      if High(c) {
        NotJoinedNext(s[1..], rest);
      }
      ReadCharOfEscape(c, tail);
      EscapeStart(c);
      assert text[0] == EscapeChar(c)[0];
      ReadStringOfEscape(s[1..], rest);
      assert s == [c] + s[1..];
    }
  }

  lemma EscapeStart(c: Code)
    ensures EscapeChar(c) != [] && EscapeChar(c)[0] != QUOTE
  {
  }

  lemma ReadStringOfPrint(s: seq<Code>, rest: seq<Code>)
    requires CleanString(s)
    ensures PrintString(s) != [] && (PrintString(s) + rest)[0] == QUOTE
    ensures ReadString((PrintString(s) + rest)[1..]) == Some((s, rest))
  {
    hide EscapeAll, ReadString;
    ReadStringOfEscape(s, rest);
    assert (PrintString(s) + rest)[1..] == EscapeAll(s) + ([QUOTE] + rest);
  }

  // ----- integers

  /** Text that cannot continue a number: nothing, or a comma or closing bracket. */
  predicate Stops(rest: seq<Code>) {
    rest == [] || rest[0] == COMMA || rest[0] == CLOSE_ARRAY || rest[0] == CLOSE_OBJECT
  }

  lemma {:induction false} RunOfDigits(digits: seq<Code>, rest: seq<Code>)
    requires forall i :: 0 <= i < |digits| ==> IsDigit(digits[i])
    requires Stops(rest)
    ensures DigitRun(digits + rest) == |digits|
  {
    if digits == [] {
      assert digits + rest == rest;
    } else {
      assert (digits + rest)[1..] == digits[1..] + rest;
      RunOfDigits(digits[1..], rest);
    }
  }

  lemma ReadNumberOfPrint(n: int, rest: seq<Code>)
    requires Stops(rest)
    ensures ReadNumber(PrintInt(n) + rest) == Ok((Int(n), rest))
  {
    hide DigitRun, Value, Decimal;
    var m: nat := if n < 0 then -n else n;
    var digits: seq<Code> := Decimal(m);
    var text := PrintInt(n) + rest;
    var tail := digits + rest;
    assert (if n < 0 then text[1..] else text) == tail;
    assert tail[0] == digits[0];
    RunOfDigits(digits, rest);
    ValueOfDecimal(m);
    assert tail[..|digits|] == digits && tail[|digits|..] == rest;
  }

  // ----- documents

  lemma Unblank(text: seq<Code>)
    requires text == [] || !Blank(text[0])
    ensures Skip(text) == text
  {
  }

  /** Which branch of the reader the first character selects. */
  lemma PrintStart(v: Json)
    ensures Print(v) != [] && !Blank(Print(v)[0])
    ensures Print(v)[0] != CLOSE_ARRAY && Print(v)[0] != CLOSE_OBJECT
    ensures v.Int? ==> Print(v)[0] == MINUS || IsDigit(Print(v)[0])
  {
    hide PrintItems, PrintMembers, EscapeAll, SortedKeys, Decimal;
  }

  /** Everything the reader does on a printed document followed by `rest`. */
  lemma {:induction false} ReadValueOfPrint(v: Json, rest: seq<Code>)
    requires Clean(v) && Stops(rest)
    ensures ReadValue(Print(v) + rest) == Ok((v, rest))
    decreases v, 1
  {
    hide ReadMembers, ReadItems, ReadNumber, ReadString, PrintItems, PrintMembers, PrintInt, PrintString, SortedKeys,
      Skip;
    var text := Print(v) + rest;
    match v
    case Null =>
      assert text[..4] == NULL_TEXT && text[4..] == rest;
    case Bool(b) =>
      if b {
        assert text[..4] == TRUE_TEXT && text[4..] == rest;
      } else {
        assert text[..5] == FALSE_TEXT && text[5..] == rest;
      }
    case Int(n) =>
      PrintStart(v);
      assert text[0] == Print(v)[0];
      ReadNumberOfPrint(n, rest);
    case Str(s) =>
      ReadStringOfPrint(s, rest);
      assert text == PrintString(s) + rest && text[0] == QUOTE;
    case Arr(items) =>
      ReadArrayOfPrint(v, rest);
    case Obj(fields) =>
      ReadObjectOfPrint(v, rest);
  }

  lemma {:induction false} ReadArrayOfPrint(v: Json, rest: seq<Code>)
    requires v.Arr? && Clean(v) && Stops(rest)
    ensures ReadValue(Print(v) + rest) == Ok((v, rest))
    decreases v, 0
  {
    hide ReadMembers, ReadNumber, ReadString, PrintMembers, PrintInt, PrintString, SortedKeys, PrintItems, ReadItems,
      Skip;
    var text := Print(v) + rest;
    assert text[0] == OPEN_ARRAY;
    if v.items == [] {
      assert text[1..] == [CLOSE_ARRAY] + rest;
      Unblank([CLOSE_ARRAY] + rest);
      assert ([CLOSE_ARRAY] + rest)[1..] == rest;
    } else {
      var body := PrintItems(v.items) + rest;
      assert text[1..] == body;
      ItemsStart(v.items, rest);
      Unblank(body);
      ReadItemsOfPrint(v.items, rest);
    }
  }

  lemma ItemsStart(items: seq<Json>, rest: seq<Code>)
    requires items != []
    ensures var text := PrintItems(items) + rest;
      text != [] && !Blank(text[0]) && text[0] != CLOSE_ARRAY
  {
    hide Print;
    PrintStart(items[0]);
    assert (PrintItems(items) + rest)[0] == Print(items[0])[0];
  }

  lemma {:induction false} ReadItemsOfPrint(items: seq<Json>, rest: seq<Code>)
    requires items != [] && (forall i :: 0 <= i < |items| ==> Clean(items[i])) && Stops(rest)
    ensures ReadItems(PrintItems(items) + rest) == Ok((items, rest))
    decreases items, 0
  {
    hide Print, ReadValue, Skip, Clean;
    var text := PrintItems(items) + rest;
    var after: seq<Code> := if |items| == 1 then [CLOSE_ARRAY] + rest else [COMMA] + (PrintItems(items[1..]) + rest);
    assert text == Print(items[0]) + after;
    ReadValueOfPrint(items[0], after);
    Unblank(after);
    if |items| == 1 {
      assert after[1..] == rest && items == [items[0]];
    } else {
      assert after[1..] == PrintItems(items[1..]) + rest;
      ItemsStart(items[1..], rest);
      Unblank(after[1..]);
      ReadItemsOfPrint(items[1..], rest);
      assert items == [items[0]] + items[1..];
    }
  }

  /** `fields` extended by the members of `v` under `keys`. */
  ghost function Filled(fields: map<seq<Code>, Json>, v: Json, keys: seq<seq<Code>>): map<seq<Code>, Json>
    requires v.Obj? && forall i :: 0 <= i < |keys| ==> keys[i] in v.fields
    decreases |keys|
  {
    if keys == [] then fields else Filled(fields[keys[0] := v.fields[keys[0]]], v, keys[1..])
  }

  lemma {:induction false} FilledAt(fields: map<seq<Code>, Json>, v: Json, keys: seq<seq<Code>>)
    requires v.Obj? && forall i :: 0 <= i < |keys| ==> keys[i] in v.fields
    requires forall i, j :: 0 <= i < j < |keys| ==> keys[i] != keys[j]
    requires forall k :: k in fields ==> k in v.fields && fields[k] == v.fields[k]
    ensures forall k :: k in Filled(fields, v, keys) <==> k in fields || k in keys
    ensures forall k :: k in Filled(fields, v, keys) ==> k in v.fields && Filled(fields, v, keys)[k] == v.fields[k]
    decreases |keys|
  {
    if keys != [] {
      FilledAt(fields[keys[0] := v.fields[keys[0]]], v, keys[1..]);
      assert forall k :: k in keys <==> k == keys[0] || k in keys[1..];
    }
  }

  lemma PrintObject(v: Json)
    requires v.Obj?
    ensures var keys := SortedKeys(v.fields.Keys);
      Print(v) == [OPEN_OBJECT] + (if keys == [] then [CLOSE_OBJECT] else PrintMembers(v, keys))
  {
    hide SortedKeys, PrintMembers;
  }

  lemma ReadValueObject(text: seq<Code>)
    requires text != [] && text[0] == OPEN_OBJECT
    ensures var body := Skip(text[1..]);
      ReadValue(text) ==
        if body != [] && body[0] == CLOSE_OBJECT then Ok((Obj(map[]), body[1..])) else ReadMembers(body, map[], false)
  {
    hide ReadMembers, Skip;
  }

  lemma {:induction false} ReadObjectOfPrint(v: Json, rest: seq<Code>)
    requires v.Obj? && Clean(v) && Stops(rest)
    ensures ReadValue(Print(v) + rest) == Ok((v, rest))
    decreases v, 0, |v.fields| + 1
  {
    hide Print, ReadValue, SortedKeys, PrintMembers, ReadMembers, Skip, Filled, Clean;
    var text, keys := Print(v) + rest, SortedKeys(v.fields.Keys);
    PrintObject(v);
    assert text[0] == OPEN_OBJECT;
    ReadValueObject(text);
    if keys == [] {
      assert text[1..] == [CLOSE_OBJECT] + rest;
      Unblank([CLOSE_OBJECT] + rest);
      assert ([CLOSE_OBJECT] + rest)[1..] == rest;
      assert v.fields == map[] by { assert forall k :: k in v.fields ==> k in keys; }
    } else {
      var body := PrintMembers(v, keys) + rest;
      assert text[1..] == body;
      MembersStart(v, keys, rest);
      Unblank(body);
      DistinctKeys(v.fields.Keys);
      ReadMembersOfPrint(v, keys, map[], rest);
      FilledAt(map[], v, keys);
      assert Filled(map[], v, keys) == v.fields;
    }
  }

  lemma DistinctKeys(s: set<seq<Code>>)
    ensures forall i, j :: 0 <= i < j < |SortedKeys(s)| ==> SortedKeys(s)[i] != SortedKeys(s)[j]
  {
    var keys := SortedKeys(s);
    forall i, j | 0 <= i < j < |keys| ensures keys[i] != keys[j] {
      Order.Irreflexive(keys[i]);
    }
  }

  lemma MembersStart(v: Json, keys: seq<seq<Code>>, rest: seq<Code>)
    requires v.Obj? && keys != [] && forall i :: 0 <= i < |keys| ==> keys[i] in v.fields
    ensures PrintMembers(v, keys) + rest != [] && (PrintMembers(v, keys) + rest)[0] == QUOTE
  {
    hide Print, EscapeAll;
    assert (PrintMembers(v, keys) + rest)[0] == PrintString(keys[0])[0];
  }

  lemma {:induction false} ReadMembersOfPrint(v: Json, keys: seq<seq<Code>>, fields: map<seq<Code>, Json>,
      rest: seq<Code>)
    requires v.Obj? && Clean(v) && Stops(rest)
    requires keys != [] && forall i :: 0 <= i < |keys| ==> keys[i] in v.fields && keys[i] !in fields
    requires forall i, j :: 0 <= i < j < |keys| ==> keys[i] != keys[j]
    ensures ReadMembers(PrintMembers(v, keys) + rest, fields, false) == Ok((Obj(Filled(fields, v, keys)), rest))
    decreases v, 0, |keys|
  {
    hide Print, PrintString, ReadString, ReadValue, Skip, Filled;
    var key, member := keys[0], v.fields[keys[0]];
    var text := PrintMembers(v, keys) + rest;
    var after: seq<Code> :=
      if |keys| == 1 then [CLOSE_OBJECT] + rest else [COMMA] + (PrintMembers(v, keys[1..]) + rest);
    var value := Print(member) + after;
    var colon: seq<Code> := [COLON] + value;
    assert text == PrintString(key) + colon;
    ReadStringOfPrint(key, colon);
    Unblank(colon);
    assert colon[1..] == value;
    PrintStart(member);
    assert value[0] == Print(member)[0];
    Unblank(value);
    ReadValueOfPrint(member, after);
    Unblank(after);
    FilledStep(fields, v, keys);
    if |keys| == 1 {
      assert after[1..] == rest;
    } else {
      assert after[1..] == PrintMembers(v, keys[1..]) + rest;
      MembersStart(v, keys[1..], rest);
      Unblank(after[1..]);
      ReadMembersOfPrint(v, keys[1..], fields[key := member], rest);
    }
  }

  lemma FilledStep(fields: map<seq<Code>, Json>, v: Json, keys: seq<seq<Code>>)
    requires v.Obj? && keys != [] && forall i :: 0 <= i < |keys| ==> keys[i] in v.fields
    ensures Filled(fields, v, keys) == Filled(fields[keys[0] := v.fields[keys[0]]], v, keys[1..])
    ensures |keys| == 1 ==> Filled(fields, v, keys) == fields[keys[0] := v.fields[keys[0]]]
  {
  }
}
