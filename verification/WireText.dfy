/** The canonical text of a document, said without the printer: no blanks, members in ascending key order, the shortest
    escapes with lower-case hexadecimal digits, shortest numerals. */
module WireText {
  import opened Text
  import opened Wire
  import Order

  // ----- characters

  /** `\u` and four lower-case digits of this value. */
  predicate IsUnit(t: seq<Code>, n: nat) {
    && |t| == 6 && t[0] == '\\' as int && t[1] == 'u' as int
    && (forall i :: 2 <= i < 6 ==> LowerHexValue(t[i]).Some?)
    && n == 4096 * LowerHexValue(t[2]).value + 256 * LowerHexValue(t[3]).value + 16 * LowerHexValue(t[4]).value
            + LowerHexValue(t[5]).value
  }

  function Letter(c: Code): Option<char> {
    if c == '"' as int then Some('"')
    else if c == '\\' as int then Some('\\')
    else if c == 8 then Some('b')
    else if c == 9 then Some('t')
    else if c == 10 then Some('n')
    else if c == 12 then Some('f')
    else if c == 13 then Some('r')
    else None
  }

  /** How `json.dumps` writes one character: a short escape where there is one, itself when it is printable ASCII, and
      otherwise its UTF-16 units. */
  predicate IsEscape(t: seq<Code>, c: Code) {
    if Letter(c).Some? then t == ['\\' as int, Letter(c).value as int]
    else if ' ' as int <= c <= '~' as int then t == [c]
    else if c < 0x1_0000 then IsUnit(t, c)
    else
      && |t| == 12
      && exists high: nat, low: nat ::
           && 0xD800 <= high <= 0xDBFF && 0xDC00 <= low <= 0xDFFF
           && c == 0x1_0000 + 1024 * (high - 0xD800) + (low - 0xDC00)
           && IsUnit(t[..6], high) && IsUnit(t[6..], low)
  }

  lemma DigitsOf(n: nat)
    requires n < 16
    ensures LowerHexValue(HexDigit(n)) == Some(n)
  {
  }

  lemma UnitOf(n: nat)
    requires n < 0x1_0000
    ensures IsUnit(Escape4(n), n)
  {
    DigitsOf(n / 4096);
    DigitsOf(n / 256 % 16);
    DigitsOf(n / 16 % 16);
    DigitsOf(n % 16);
    Positional(n);
    hide HexDigit, LowerHexValue;
  }

  lemma Positional(n: nat)
    ensures n == 4096 * (n / 4096) + 256 * (n / 256 % 16) + 16 * (n / 16 % 16) + n % 16
  {
    assert n / 16 == 16 * (n / 256) + n / 16 % 16 by { Twice(n, 16); }
    assert n / 256 == 16 * (n / 4096) + n / 256 % 16 by { Twice(n, 256); }
  }

  lemma Twice(n: nat, d: nat)
    requires d == 16 || d == 256
    ensures n / d == 16 * (n / (16 * d)) + n / d % 16
  {
  }

  lemma EscapeIs(c: Code)
    ensures IsEscape(EscapeChar(c), c)
  {
    hide Escape4, IsUnit;
    if c >= 0x1_0000 {
      var high, low := 0xD800 + (c - 0x1_0000) / 1024, 0xDC00 + (c - 0x1_0000) % 1024;
      UnitOf(high);
      UnitOf(low);
      UnitLength(Escape4(high), high);
      UnitLength(Escape4(low), low);
      assert EscapeChar(c)[..6] == Escape4(high) && EscapeChar(c)[6..] == Escape4(low);
    } else {
      UnitOf(c);
    }
  }

  lemma UnitLength(t: seq<Code>, n: nat)
    requires IsUnit(t, n)
    ensures |t| == 6
  {
  }

  // ----- strings, numbers, documents

  function Glued(parts: seq<seq<Code>>): seq<Code> {
    if parts == [] then [] else parts[0] + Glued(parts[1..])
  }

  /** `parts` with a comma between each two. */
  function Commas(parts: seq<seq<Code>>): seq<Code> {
    if parts == [] then [] else if |parts| == 1 then parts[0] else parts[0] + [',' as int] + Commas(parts[1..])
  }

  ghost predicate IsStringText(t: seq<Code>, s: seq<Code>) {
    exists parts: seq<seq<Code>> ::
      && |parts| == |s| && (forall i :: 0 <= i < |s| ==> IsEscape(parts[i], s[i]))
      && t == ['"' as int] + Glued(parts) + ['"' as int]
  }

  /** The shortest numeral, with a sign only when negative. */
  predicate IsNumberText(t: seq<Code>, n: int) {
    var digits := if n < 0 && t != [] then t[1..] else t;
    && (n < 0 ==> t != [] && t[0] == '-' as int)
    && digits != [] && (forall i :: 0 <= i < |digits| ==> IsDigit(digits[i]))
    && (|digits| > 1 ==> digits[0] != '0' as int)
    && Value(digits) == if n < 0 then -n else n
  }

  function Spelled(name: string): (text: seq<Code>)
    ensures |text| == |name|
  {
    seq(|name|, i requires 0 <= i < |name| => name[i] as int)
  }

  ghost predicate IsItemsText(t: seq<Code>, items: seq<Json>)
    decreases items, 0
  {
    exists parts: seq<seq<Code>> ::
      && |parts| == |items| && (forall i :: 0 <= i < |items| ==> IsText(parts[i], items[i]))
      && t == ['[' as int] + Commas(parts) + [']' as int]
  }

  /** A member: its key, a colon, its value. */
  ghost predicate IsMember(t: seq<Code>, v: Json, key: seq<Code>)
    requires v.Obj? && key in v.fields
    decreases v, 0
  {
    exists name: seq<Code>, value: seq<Code> ::
      IsStringText(name, key) && IsText(value, v.fields[key]) && t == name + [':' as int] + value
  }

  ghost predicate IsMembersText(t: seq<Code>, v: Json)
    requires v.Obj?
    decreases v, 1
  {
    exists keys: seq<seq<Code>>, parts: seq<seq<Code>> ::
      && Order.Ascending(keys) && (forall k :: k in keys <==> k in v.fields)
      && |parts| == |keys| && (forall i :: 0 <= i < |keys| ==> IsMember(parts[i], v, keys[i]))
      && t == ['{' as int] + Commas(parts) + ['}' as int]
  }

  /** `t` is the canonical text of `v`. */
  ghost predicate IsText(t: seq<Code>, v: Json)
    decreases v, 2
  {
    match v
    case Null => t == Spelled("null")
    case Bool(b) => t == Spelled(if b then "true" else "false")
    case Int(n) => IsNumberText(t, n)
    case Str(s) => IsStringText(t, s)
    case Arr(items) => IsItemsText(t, items)
    case Obj(_) => IsMembersText(t, v)
  }

  function Escapes(s: seq<Code>): (parts: seq<seq<Code>>)
    ensures |parts| == |s| && forall i :: 0 <= i < |s| ==> parts[i] == EscapeChar(s[i])
  {
    seq(|s|, i requires 0 <= i < |s| => EscapeChar(s[i]))
  }

  lemma {:induction false} EscapesGlued(s: seq<Code>)
    ensures EscapeAll(s) == Glued(Escapes(s))
  {
    hide EscapeChar;
    if s != [] {
      EscapesGlued(s[1..]);
      assert Escapes(s)[1..] == Escapes(s[1..]);
    }
  }

  lemma StringText(s: seq<Code>)
    ensures IsStringText(PrintString(s), s)
  {
    hide EscapeChar, IsEscape;
    EscapesGlued(s);
    forall i | 0 <= i < |s| ensures IsEscape(Escapes(s)[i], s[i]) {
      EscapeIs(s[i]);
    }
    assert PrintString(s) == ['"' as int] + Glued(Escapes(s)) + ['"' as int];
  }

  lemma NumberText(n: int)
    ensures IsNumberText(PrintInt(n), n)
  {
    var m := if n < 0 then -n else n;
    ValueOfDecimal(m);
    hide Decimal, Value;
    if n < 0 {
      assert PrintInt(n)[1..] == Decimal(m);
    }
  }

  lemma LiteralTexts()
    ensures NULL_TEXT == Spelled("null") && TRUE_TEXT == Spelled("true") && FALSE_TEXT == Spelled("false")
  {
  }

  // ----- the printer

  /** The printer writes the canonical text. */
  lemma {:induction false} PrintIsText(v: Json)
    ensures IsText(Print(v), v)
    decreases v, 2
  {
    match v
    case Null => LiteralTexts();
    case Bool(_) => LiteralTexts();
    case Int(n) => NumberText(n);
    case Str(s) => StringText(s);
    case Arr(items) => ArrayIsText(v);
    case Obj(_) => ObjectIsText(v);
  }

  function Printed(items: seq<Json>): (parts: seq<seq<Code>>)
    ensures |parts| == |items| && forall i :: 0 <= i < |items| ==> parts[i] == Print(items[i])
  {
    seq(|items|, i requires 0 <= i < |items| => Print(items[i]))
  }

  lemma {:induction false} ItemsGlued(items: seq<Json>)
    requires items != []
    ensures PrintItems(items) == Commas(Printed(items)) + [CLOSE_ARRAY]
  {
    hide Print;
    if |items| > 1 {
      ItemsGlued(items[1..]);
      assert Printed(items)[1..] == Printed(items[1..]);
    }
  }

  lemma {:induction false} ArrayIsText(v: Json)
    requires v.Arr?
    ensures IsItemsText(Print(v), v.items)
    decreases v, 1
  {
    hide IsText;
    var parts := Printed(v.items);
    forall i | 0 <= i < |v.items| ensures IsText(parts[i], v.items[i]) {
      PrintIsText(v.items[i]);
    }
    if v.items == [] {
      assert Print(v) == ['[' as int] + Commas(parts) + [']' as int];
    } else {
      ItemsGlued(v.items);
      assert Print(v) == ['[' as int] + Commas(parts) + [']' as int];
    }
  }

  function MemberText(v: Json, key: seq<Code>): seq<Code>
    requires v.Obj? && key in v.fields
  {
    PrintString(key) + [COLON] + Print(v.fields[key])
  }

  function Members(v: Json, keys: seq<seq<Code>>): (parts: seq<seq<Code>>)
    requires v.Obj? && forall i :: 0 <= i < |keys| ==> keys[i] in v.fields
    ensures |parts| == |keys| && forall i :: 0 <= i < |keys| ==> parts[i] == MemberText(v, keys[i])
  {
    seq(|keys|, i requires 0 <= i < |keys| => MemberText(v, keys[i]))
  }

  lemma {:induction false} MembersGlued(v: Json, keys: seq<seq<Code>>)
    requires v.Obj? && keys != [] && forall i :: 0 <= i < |keys| ==> keys[i] in v.fields
    ensures PrintMembers(v, keys) == Commas(Members(v, keys)) + [CLOSE_OBJECT]
    decreases |keys|
  {
    hide Print, PrintString;
    if |keys| > 1 {
      MembersGlued(v, keys[1..]);
      assert Members(v, keys)[1..] == Members(v, keys[1..]);
    }
  }

  lemma MemberIs(v: Json, key: seq<Code>)
    requires v.Obj? && key in v.fields && IsText(Print(v.fields[key]), v.fields[key])
    ensures IsMember(MemberText(v, key), v, key)
  {
    hide IsText, Print, IsStringText, PrintString;
    StringText(key);
  }

  lemma ObjectPrinted(v: Json)
    requires v.Obj?
    ensures Print(v) == ['{' as int] + Commas(Members(v, SortedKeys(v.fields.Keys))) + ['}' as int]
  {
    hide PrintMembers, MemberText, PrintString;
    var keys := SortedKeys(v.fields.Keys);
    if keys == [] {
      assert Members(v, keys) == [];
    } else {
      MembersGlued(v, keys);
    }
  }

  lemma MembersText(v: Json, keys: seq<seq<Code>>, parts: seq<seq<Code>>)
    requires v.Obj? && Order.Ascending(keys) && Order.Lists(keys, v.fields.Keys) && |parts| == |keys|
    requires forall i :: 0 <= i < |keys| ==> IsMember(parts[i], v, keys[i])
    ensures IsMembersText(['{' as int] + Commas(parts) + ['}' as int], v)
  {
    hide IsMember, Commas;
    assert forall k :: k in keys <==> k in v.fields;
  }

  lemma {:induction false} EveryMember(v: Json, keys: seq<seq<Code>>)
    requires v.Obj? && forall i :: 0 <= i < |keys| ==> keys[i] in v.fields
    ensures forall i :: 0 <= i < |keys| ==> IsMember(Members(v, keys)[i], v, keys[i])
    decreases v, 0
  {
    hide IsText, IsMember, MemberText, Print;
    forall i | 0 <= i < |keys| ensures IsMember(Members(v, keys)[i], v, keys[i]) {
      PrintIsText(v.fields[keys[i]]);
      MemberIs(v, keys[i]);
    }
  }

  lemma {:induction false} ObjectIsText(v: Json)
    requires v.Obj?
    ensures IsMembersText(Print(v), v)
    decreases v, 1
  {
    hide IsMembersText, IsMember, MemberText, Print;
    var keys := SortedKeys(v.fields.Keys);
    EveryMember(v, keys);
    MembersText(v, keys, Members(v, keys));
    ObjectPrinted(v);
  }
}
