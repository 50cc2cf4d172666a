/** `wire.canonical_json` and `wire.decode_json_object`: the canonical printer and the strict reader. */
module Wire {
  import opened Text
  import Order

  datatype Json =
    | Null
    | Bool(b: bool)
    | Int(n: int)
    | Str(s: seq<Code>)
    | Arr(items: seq<Json>)
    | Obj(fields: map<seq<Code>, Json>)

  datatype Fault = Invalid | DuplicateKey | NonFinite | FloatToken | NotObject
  datatype Result<+T> = Ok(value: T) | Err(fault: Fault)

  const QUOTE: Code := 34
  const BACKSLASH: Code := 92
  const COMMA: Code := 44
  const COLON: Code := 58
  const OPEN_ARRAY: Code := 91
  const CLOSE_ARRAY: Code := 93
  const OPEN_OBJECT: Code := 123
  const CLOSE_OBJECT: Code := 125
  const LETTER_U: Code := 117
  const NULL_TEXT: seq<Code> := [110, 117, 108, 108]
  const TRUE_TEXT: seq<Code> := [116, 114, 117, 101]
  const FALSE_TEXT: seq<Code> := [102, 97, 108, 115, 101]
  const NAN_TEXT: seq<Code> := [78, 97, 78]
  const INFINITY_TEXT: seq<Code> := [73, 110, 102, 105, 110, 105, 116, 121]

  predicate High(c: int) { 0xD800 <= c <= 0xDBFF }
  predicate Low(c: int) { 0xDC00 <= c <= 0xDFFF }

  // ----- printing

  function HexDigit(n: nat): Code
    requires n < 16
  {
    if n < 10 then 48 + n else 87 + n
  }

  function Escape4(n: nat): seq<Code>
    requires n < 0x1_0000
  {
    [BACKSLASH, LETTER_U, HexDigit(n / 4096), HexDigit(n / 256 % 16), HexDigit(n / 16 % 16), HexDigit(n % 16)]
  }

  function EscapeChar(c: Code): seq<Code> {
    if c == QUOTE || c == BACKSLASH then [BACKSLASH, c]
    else if 32 <= c <= 126 then [c]
    else if c == 8 then [BACKSLASH, 98]
    else if c == 9 then [BACKSLASH, 116]
    else if c == 10 then [BACKSLASH, 110]
    else if c == 12 then [BACKSLASH, 102]
    else if c == 13 then [BACKSLASH, 114]
    else if c < 0x1_0000 then Escape4(c)
    else Escape4(0xD800 + (c - 0x1_0000) / 1024) + Escape4(0xDC00 + (c - 0x1_0000) % 1024)
  }

  function EscapeAll(s: seq<Code>): seq<Code> {
    if s == [] then [] else EscapeChar(s[0]) + EscapeAll(s[1..])
  }

  function PrintString(s: seq<Code>): seq<Code> {
    [QUOTE] + (EscapeAll(s) + [QUOTE])
  }

  function PrintInt(n: int): seq<Code> {
    if n < 0 then [MINUS] + Decimal(-n) else Decimal(n)
  }

  function SortedKeys(s: set<seq<Code>>): (keys: seq<seq<Code>>)
    ensures Order.Ascending(keys) && Order.Lists(keys, s) && keys == Order.Sorted(s)
  {
    var keys := Order.Sorted(s);
    assert forall i :: 0 <= i < |keys| ==> keys[i] in s;
    keys
  }

  /** `canonical_json`. */
  function Print(v: Json): seq<Code>
    decreases v, 1
  {
    match v
    case Null => NULL_TEXT
    case Bool(b) => if b then TRUE_TEXT else FALSE_TEXT
    case Int(n) => PrintInt(n)
    case Str(s) => PrintString(s)
    case Arr(items) => [OPEN_ARRAY] + (if items == [] then [CLOSE_ARRAY] else PrintItems(items))
    case Obj(fields) =>
      var keys := SortedKeys(fields.Keys);
      [OPEN_OBJECT] + (if keys == [] then [CLOSE_OBJECT] else PrintMembers(v, keys))
  }

  /** Items separated by commas, with the closing bracket. */
  function PrintItems(items: seq<Json>): seq<Code>
    requires items != []
    decreases items, 0
  {
    Print(items[0]) + (if |items| == 1 then [CLOSE_ARRAY] else [COMMA] + PrintItems(items[1..]))
  }

  /** The members of `v` under `keys`, separated by commas, with the closing brace. */
  function PrintMembers(v: Json, keys: seq<seq<Code>>): seq<Code>
    requires v.Obj? && keys != [] && forall i :: 0 <= i < |keys| ==> keys[i] in v.fields
    decreases v, 0, |keys|
  {
    PrintString(keys[0]) + ([COLON] + (Print(v.fields[keys[0]]) +
      (if |keys| == 1 then [CLOSE_OBJECT] else [COMMA] + PrintMembers(v, keys[1..]))))
  }

  // ----- reading

  function HexValue(c: Code): (r: Option<nat>)
    ensures r.Some? ==> r.value < 16
  {
    if 48 <= c <= 57 then Some(c - 48)
    else if 97 <= c <= 102 then Some(c - 87)
    else if 65 <= c <= 70 then Some(c - 55)
    else None
  }

  /** Four hexadecimal digits. */
  function ReadHex4(text: seq<Code>): (r: Option<nat>)
    ensures r.Some? ==> r.value < 0x1_0000 && |text| >= 4
  {
    if |text| < 4 then None else
      var a, b, c, d := HexValue(text[0]), HexValue(text[1]), HexValue(text[2]), HexValue(text[3]);
      if a.None? || b.None? || c.None? || d.None? then None
      else Some(a.value * 4096 + b.value * 256 + c.value * 16 + d.value)
  }

  function SimpleEscape(c: Code): Option<Code> {
    if c == QUOTE || c == BACKSLASH || c == 47 then Some(c)
    else if c == 98 then Some(8)
    else if c == 102 then Some(12)
    else if c == 110 then Some(10)
    else if c == 114 then Some(13)
    else if c == 116 then Some(9)
    else None
  }

  /** One character of a string literal and the text behind it; a high surrogate escape takes a
      low surrogate escape right behind it along. The text starts with neither quote nor nothing. */
  function ReadChar(text: seq<Code>): (r: Option<(Code, seq<Code>)>)
    requires text != []
    ensures r.Some? ==> |r.value.1| < |text|
  {
    if text[0] < 32 then None
    else if text[0] != BACKSLASH then Some((text[0], text[1..]))
    else if |text| < 2 then None
    else if text[1] != LETTER_U then
      var c := SimpleEscape(text[1]);
      if c.None? then None else Some((c.value, text[2..]))
    else
      var u := ReadHex4(text[2..]);
      if u.None? then None
      else if High(u.value) && |text| >= 8 && text[6] == BACKSLASH && text[7] == LETTER_U then
        var l := ReadHex4(text[8..]);
        if l.None? then None
        else if Low(l.value) then
          Some((0x1_0000 + (u.value - 0xD800) * 1024 + (l.value - 0xDC00), text[12..]))
        else Some((u.value, text[6..]))
      else Some((u.value, text[6..]))
  }

  /** The rest of a string literal, up to and including its closing quote. */
  function ReadString(text: seq<Code>): (r: Option<(seq<Code>, seq<Code>)>)
    ensures r.Some? ==> |r.value.1| < |text|
    decreases |text|
  {
    if text == [] then None
    else if text[0] == QUOTE then Some(([], text[1..]))
    else
      var c := ReadChar(text);
      if c.None? then None else
        var rest := ReadString(c.value.1);
        if rest.None? then None else Some(([c.value.0] + rest.value.0, rest.value.1))
  }

  predicate Blank(c: Code) {
    c == 32 || c == 9 || c == 10 || c == 13
  }

  function Skip(text: seq<Code>): (r: seq<Code>)
    ensures |r| <= |text|
  {
    if text != [] && Blank(text[0]) then Skip(text[1..]) else text
  }

  /** Length of the leading run of digits. */
  function DigitRun(text: seq<Code>): (n: nat)
    ensures n <= |text| && forall i :: 0 <= i < n ==> IsDigit(text[i])
  {
    if text == [] || !IsDigit(text[0]) then 0 else 1 + DigitRun(text[1..])
  }

  /** A fraction or exponent directly behind an integer part. */
  predicate FloatTail(text: seq<Code>) {
    || (|text| >= 2 && text[0] == 46 && IsDigit(text[1]))
    || (|text| >= 2 && (text[0] == 69 || text[0] == 101) && IsDigit(text[1]))
    || (|text| >= 3 && (text[0] == 69 || text[0] == 101) && (text[1] == PLUS || text[1] == MINUS) && IsDigit(text[2]))
  }

  function ReadNumber(text: seq<Code>): (r: Result<(Json, seq<Code>)>)
    ensures r.Ok? ==> |r.value.1| < |text|
  {
    var negative := text != [] && text[0] == MINUS;
    var digits := if negative then text[1..] else text;
    var run := if digits != [] && digits[0] == 48 then 1 else DigitRun(digits);
    if run == 0 then Err(if INFINITY_TEXT <= digits then NonFinite else Invalid)
    else if FloatTail(digits[run..]) then Err(FloatToken)
    else
      var magnitude: int := Value(digits[..run]);
      Ok((Int(if negative then -magnitude else magnitude), digits[run..]))
  }

  function ReadValue(text: seq<Code>): (r: Result<(Json, seq<Code>)>)
    ensures r.Ok? ==> |r.value.1| < |text|
    decreases |text|, 1
  {
    if text == [] then Err(Invalid)
    else if text[0] == QUOTE then
      var s := ReadString(text[1..]);
      if s.None? then Err(Invalid) else Ok((Str(s.value.0), s.value.1))
    else if text[0] == OPEN_OBJECT then
      var body := Skip(text[1..]);
      if body != [] && body[0] == CLOSE_OBJECT then Ok((Obj(map[]), body[1..]))
      else ReadMembers(body, map[], false)
    else if text[0] == OPEN_ARRAY then
      var body := Skip(text[1..]);
      if body != [] && body[0] == CLOSE_ARRAY then Ok((Arr([]), body[1..]))
      else
        var items := ReadItems(body);
        if items.Err? then Err(items.fault) else Ok((Arr(items.value.0), items.value.1))
    else if NULL_TEXT <= text then Ok((Null, text[4..]))
    else if TRUE_TEXT <= text then Ok((Bool(true), text[4..]))
    else if FALSE_TEXT <= text then Ok((Bool(false), text[5..]))
    else if NAN_TEXT <= text || INFINITY_TEXT <= text then Err(NonFinite)
    else if text[0] == MINUS || IsDigit(text[0]) then ReadNumber(text)
    else Err(Invalid)
  }

  /** Items up to and including the closing bracket; the text starts with the first item. */
  function ReadItems(text: seq<Code>): (r: Result<(seq<Json>, seq<Code>)>)
    ensures r.Ok? ==> |r.value.1| < |text|
    decreases |text|, 2
  {
    var first := ReadValue(text);
    if first.Err? then Err(first.fault) else
      var after := Skip(first.value.1);
      if after == [] then Err(Invalid)
      else if after[0] == CLOSE_ARRAY then Ok(([first.value.0], after[1..]))
      else if after[0] != COMMA then Err(Invalid)
      else
        var rest := ReadItems(Skip(after[1..]));
        if rest.Err? then Err(rest.fault) else Ok(([first.value.0] + rest.value.0, rest.value.1))
  }

  /** Members up to and including the closing brace; a repeated key is reported there. */
  function ReadMembers(text: seq<Code>, fields: map<seq<Code>, Json>, repeated: bool): (r: Result<(Json, seq<Code>)>)
    ensures r.Ok? ==> |r.value.1| < |text|
    decreases |text|, 2
  {
    if text == [] || text[0] != QUOTE then Err(Invalid) else
      var key := ReadString(text[1..]);
      if key.None? then Err(Invalid) else
        var colon := Skip(key.value.1);
        if colon == [] || colon[0] != COLON then Err(Invalid) else
          var member := ReadValue(Skip(colon[1..]));
          if member.Err? then Err(member.fault) else
            var fields' := fields[key.value.0 := member.value.0];
            var repeated' := repeated || key.value.0 in fields;
            var after := Skip(member.value.1);
            if after == [] then Err(Invalid)
            else if after[0] == CLOSE_OBJECT then
              if repeated' then Err(DuplicateKey) else Ok((Obj(fields'), after[1..]))
            else if after[0] != COMMA then Err(Invalid)
            else ReadMembers(Skip(after[1..]), fields', repeated')
  }

  /** `decode_json_object`. */
  function Decode(source: seq<Code>): Result<Json> {
    var r := ReadValue(Skip(source));
    if r.Err? then Err(r.fault)
    else if Skip(r.value.1) != [] then Err(Invalid)
    else if !r.value.0.Obj? then Err(NotObject)
    else Ok(r.value.0)
  }
}
