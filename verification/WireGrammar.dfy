/** The float-free JSON texts of RFC 8259 as syntax trees that record every choice a writer has: blanks, escapes, key
    order, the case of hexadecimal digits. */
module WireGrammar {
  import opened Text
  import opened Wire

  /** One character of a string literal as it is written. */
  datatype Piece =
    | Plain(c: Code)
    | Short(letter: Code)
    | Unit(a: Code, b: Code, c: Code, d: Code)

  datatype Tree =
    | Word(value: Json)
    | Numeral(minus: bool, digits: seq<Code>)
    | Quoted(pieces: seq<Piece>)
    | List(gap: seq<Code>, items: seq<Item>)
    | Table(gap: seq<Code>, members: seq<Member>)

  datatype Item = Item(before: seq<Code>, value: Tree, after: seq<Code>)

  datatype Member = Member(before: seq<Code>, key: seq<Piece>, gap: seq<Code>, item: Item)

  // ----- strings

  /** A hexadecimal digit of either case. */
  function HexOf(c: Code): Option<nat> {
    if 'A' as int <= c <= 'F' as int then Some(c - 'A' as int + 10) else LowerHexValue(c)
  }

  /** What may follow a backslash, and what it stands for. */
  function ShortOf(letter: Code): Option<Code> {
    if letter == '"' as int || letter == '\\' as int || letter == '/' as int then Some(letter)
    else if letter == 'b' as int then Some(8)
    else if letter == 't' as int then Some(9)
    else if letter == 'n' as int then Some(10)
    else if letter == 'f' as int then Some(12)
    else if letter == 'r' as int then Some(13)
    else None
  }

  predicate GoodPiece(p: Piece) {
    match p
    case Plain(c) => c >= ' ' as int && c != '"' as int && c != '\\' as int
    case Short(letter) => ShortOf(letter).Some?
    case Unit(a, b, c, d) => HexOf(a).Some? && HexOf(b).Some? && HexOf(c).Some? && HexOf(d).Some?
  }

  predicate GoodPieces(pieces: seq<Piece>) {
    forall i :: 0 <= i < |pieces| ==> GoodPiece(pieces[i])
  }

  function Spell(p: Piece): seq<Code> {
    match p
    case Plain(c) => [c]
    case Short(letter) => ['\\' as int, letter]
    case Unit(a, b, c, d) => ['\\' as int, 'u' as int, a, b, c, d]
  }

  function SpellAll(pieces: seq<Piece>): seq<Code> {
    if pieces == [] then [] else Spell(pieces[0]) + SpellAll(pieces[1..])
  }

  /** The code point or UTF-16 unit one piece stands for. */
  function CodeOf(p: Piece): Code {
    match p
    case Plain(c) => c
    case Short(letter) => if ShortOf(letter).Some? then ShortOf(letter).value else letter
    case Unit(a, b, c, d) => Nibble(a) * 4096 + Nibble(b) * 256 + Nibble(c) * 16 + Nibble(d)
  }

  function Nibble(c: Code): (n: nat)
    ensures n < 16
  {
    if HexOf(c).Some? then HexOf(c).value else 0
  }

  /** An escaped high surrogate and an escaped low one behind it are one character. */
  predicate Paired(pieces: seq<Piece>) {
    && |pieces| >= 2 && pieces[0].Unit? && pieces[1].Unit?
    && 0xD800 <= CodeOf(pieces[0]) <= 0xDBFF && 0xDC00 <= CodeOf(pieces[1]) <= 0xDFFF
  }

  function Characters(pieces: seq<Piece>): seq<Code> {
    if pieces == [] then []
    else if Paired(pieces) then
      [0x1_0000 + (CodeOf(pieces[0]) - 0xD800) * 1024 + (CodeOf(pieces[1]) - 0xDC00)] + Characters(pieces[2..])
    else [CodeOf(pieces[0])] + Characters(pieces[1..])
  }

  // ----- documents

  predicate Blanks(text: seq<Code>) {
    forall i :: 0 <= i < |text| ==> text[i] in {' ' as int, '\t' as int, '\n' as int, '\r' as int}
  }

  function WordText(v: Json): seq<Code> {
    match v
    case Null => NULL_TEXT
    case Bool(true) => TRUE_TEXT
    case _ => FALSE_TEXT
  }

  /** The syntax tree is one: blanks are blank, numerals have no leading zero, and no object repeats a key. */
  predicate Good(t: Tree)
    decreases t
  {
    match t
    case Word(v) => v.Null? || v.Bool?
    case Numeral(_, digits) =>
      digits != [] && (|digits| > 1 ==> digits[0] != '0' as int) && forall i :: 0 <= i < |digits| ==> IsDigit(digits[i])
    case Quoted(pieces) => GoodPieces(pieces)
    case List(gap, items) => Blanks(gap) && forall i :: 0 <= i < |items| ==> GoodItem(items[i])
    case Table(gap, members) =>
      && Blanks(gap) && (forall i :: 0 <= i < |members| ==> GoodMember(members[i]))
      && forall i, j :: 0 <= i < j < |members| ==> Characters(members[i].key) != Characters(members[j].key)
  }

  predicate GoodItem(item: Item)
    decreases item
  {
    Blanks(item.before) && Good(item.value) && Blanks(item.after)
  }

  predicate GoodMember(m: Member)
    decreases m
  {
    Blanks(m.before) && GoodPieces(m.key) && Blanks(m.gap) && GoodItem(m.item)
  }

  /** The text of a syntax tree. */
  function Written(t: Tree): seq<Code>
    decreases t, 1
  {
    match t
    case Word(v) => WordText(v)
    case Numeral(minus, digits) => (if minus then ['-' as int] else []) + digits
    case Quoted(pieces) => QuotedText(pieces)
    case List(gap, items) => ['[' as int] + ((if items == [] then gap else WrittenItems(items)) + [']' as int])
    case Table(gap, members) => ['{' as int] + ((if members == [] then gap else WrittenMembers(members)) + ['}' as int])
  }

  function QuotedText(pieces: seq<Piece>): seq<Code> {
    ['"' as int] + (SpellAll(pieces) + ['"' as int])
  }

  function WrittenItem(item: Item): seq<Code>
    decreases item, 0
  {
    item.before + (Written(item.value) + item.after)
  }

  function WrittenItems(items: seq<Item>): seq<Code>
    requires items != []
    decreases items, 0
  {
    WrittenItem(items[0]) + (if |items| == 1 then [] else [',' as int] + WrittenItems(items[1..]))
  }

  function WrittenMember(m: Member): seq<Code>
    decreases m, 0
  {
    m.before + (QuotedText(m.key) + (m.gap + ([':' as int] + WrittenItem(m.item))))
  }

  function WrittenMembers(members: seq<Member>): seq<Code>
    requires members != []
    decreases members, 0
  {
    WrittenMember(members[0]) + (if |members| == 1 then [] else [',' as int] + WrittenMembers(members[1..]))
  }

  /** The document a syntax tree stands for. */
  function Meaning(t: Tree): Json
    requires Good(t)
    decreases t, 1
  {
    match t
    case Word(v) => v
    case Numeral(minus, digits) =>
      var n: int := Value(digits);
      Int(if minus then -n else n)
    case Quoted(pieces) => Str(Characters(pieces))
    case List(_, items) => Arr(ItemsMeaning(items))
    case Table(_, members) => Obj(MembersMeaning(members))
  }

  function ItemsMeaning(items: seq<Item>): (values: seq<Json>)
    requires forall i :: 0 <= i < |items| ==> GoodItem(items[i])
    ensures |values| == |items|
    decreases items, 0
  {
    if items == [] then [] else
      assert GoodItem(items[0]);
      [Meaning(items[0].value)] + ItemsMeaning(items[1..])
  }

  function MembersMeaning(members: seq<Member>): (fields: map<seq<Code>, Json>)
    requires forall i :: 0 <= i < |members| ==> GoodMember(members[i])
    ensures forall k :: k in fields <==> exists i :: 0 <= i < |members| && Characters(members[i].key) == k
    decreases members, 0
  {
    if members == [] then map[] else
      assert GoodMember(members[0]) && GoodItem(members[0].item);
      MembersMeaning(members[1..])[Characters(members[0].key) := Meaning(members[0].item.value)]
  }

  /** `text` is a JSON text of the object `v`. */
  ghost predicate IsJson(text: seq<Code>, v: Json) {
    exists lead: seq<Code>, t: Tree, trail: seq<Code> ::
      Blanks(lead) && Blanks(trail) && t.Table? && Good(t) && text == lead + (Written(t) + trail) && v == Meaning(t)
  }
}
