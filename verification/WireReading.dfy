/** The strict reader accepts exactly the texts of the grammar, and returns what they mean. */
module WireReading {
  import opened Text
  import opened Wire
  import opened WireGrammar

  // ----- strings

  lemma SameTables(c: Code)
    ensures HexValue(c) == HexOf(c) && SimpleEscape(c) == ShortOf(c)
  {
  }

  lemma UnitIsHex4(p: Piece, rest: seq<Code>)
    requires p.Unit? && GoodPiece(p)
    ensures var text := Spell(p) + rest;
      && |text| >= 6 && text[0] == BACKSLASH && text[1] == LETTER_U && text[6..] == rest
      && ReadHex4(text[2..]) == Some(CodeOf(p))
  {
    SameTables(p.a);
    SameTables(p.b);
    SameTables(p.c);
    SameTables(p.d);
    hide HexValue, HexOf;
    assert (Spell(p) + rest)[2..] == [p.a, p.b, p.c, p.d] + rest;
  }

  lemma SpellStep(pieces: seq<Piece>, rest: seq<Code>)
    requires pieces != []
    ensures SpellAll(pieces) + rest == Spell(pieces[0]) + (SpellAll(pieces[1..]) + rest)
  {
  }

  /** What a piece and the text behind it are read as. */
  lemma ReadsOne(p: Piece, tail: seq<Code>)
    requires GoodPiece(p) && (p.Unit? && High(CodeOf(p)) ==> |tail| < 2 || tail[0] != BACKSLASH || tail[1] != LETTER_U)
    ensures ReadChar(Spell(p) + tail) == Some((CodeOf(p), tail))
  {
    hide ReadHex4, HexOf, Nibble;
    var text := Spell(p) + tail;
    match p {
      case Plain(c) => assert text[1..] == tail;
      case Short(letter) =>
        SameTables(letter);
        assert text[2..] == tail;
      case Unit(_, _, _, _) =>
        hide CodeOf, Spell, SimpleEscape;
        UnitIsHex4(p, tail);
        assert |text| >= 8 ==> text[6] == tail[0] && text[7] == tail[1];
    }
  }

  lemma ReadsTwo(high: Piece, low: Piece, rest: seq<Code>)
    requires GoodPiece(high) && GoodPiece(low) && high.Unit? && low.Unit? && High(CodeOf(high))
    ensures ReadChar(Spell(high) + (Spell(low) + rest)) ==
      if Low(CodeOf(low))
      then Some((0x1_0000 + (CodeOf(high) - 0xD800) * 1024 + (CodeOf(low) - 0xDC00), rest))
      else Some((CodeOf(high), Spell(low) + rest))
  {
    hide ReadHex4, CodeOf, Spell, SimpleEscape;
    var tail := Spell(low) + rest;
    UnitIsHex4(high, tail);
    UnitIsHex4(low, rest);
    PairRead(Spell(high) + tail, tail, rest);
  }

  /** One piece, or a surrogate pair of two, is read off. */
  lemma ReadsPiece(pieces: seq<Piece>, rest: seq<Code>)
    requires pieces != [] && GoodPieces(pieces) && rest != [] && rest[0] == QUOTE
    ensures var text := SpellAll(pieces) + rest;
      && text != [] && text[0] != QUOTE
      && ReadChar(text) ==
           if Paired(pieces)
           then Some((0x1_0000 + (CodeOf(pieces[0]) - 0xD800) * 1024 + (CodeOf(pieces[1]) - 0xDC00),
             SpellAll(pieces[2..]) + rest))
           else Some((CodeOf(pieces[0]), SpellAll(pieces[1..]) + rest))
  {
    hide ReadChar, SpellAll, CodeOf;
    var p, tail := pieces[0], SpellAll(pieces[1..]) + rest;
    SpellStep(pieces, rest);
    assert GoodPiece(p);
    if |pieces| > 1 {
      SpellStep(pieces[1..], rest);
      assert pieces[1..][0] == pieces[1] && pieces[1..][1..] == pieces[2..];
      assert GoodPiece(pieces[1]);
      if p.Unit? && High(CodeOf(p)) && pieces[1].Unit? {
        ReadsTwo(p, pieces[1], SpellAll(pieces[2..]) + rest);
      } else {
        if !pieces[1].Unit? {
          SpellStarts(pieces[1], SpellAll(pieces[2..]) + rest);
        }
        ReadsOne(p, tail);
      }
    } else {
      NothingSpelled();
      assert pieces[1..] == [] && tail == rest;
      ReadsOne(p, tail);
    }
  }

  lemma SpellStarts(p: Piece, rest: seq<Code>)
    requires GoodPiece(p) && !p.Unit?
    ensures var text := Spell(p) + rest; text[0] == BACKSLASH ==> text[1] != LETTER_U
  {
  }

  lemma NothingSpelled()
    ensures SpellAll([]) == []
  {
  }

  lemma PairRead(text: seq<Code>, tail: seq<Code>, rest: seq<Code>)
    requires |text| >= 6 && text[6..] == tail && |tail| >= 6 && tail[6..] == rest
    ensures text[6] == tail[0] && text[7] == tail[1] && text[8..] == tail[2..] && text[12..] == rest
  {
  }

  lemma {:induction false} ReadsString(pieces: seq<Piece>, rest: seq<Code>)
    requires GoodPieces(pieces)
    ensures ReadString(SpellAll(pieces) + ([QUOTE] + rest)) == Some((Characters(pieces), rest))
    decreases |pieces|
  {
    hide ReadChar, CodeOf, Spell;
    var text := SpellAll(pieces) + ([QUOTE] + rest);
    if pieces == [] {
      assert text == [QUOTE] + rest;
    } else {
      hide GoodPiece;
      ReadsPiece(pieces, [QUOTE] + rest);
      if Paired(pieces) {
        ReadsString(pieces[2..], rest);
      } else {
        ReadsString(pieces[1..], rest);
      }
    }
  }

  // ----- blanks and numerals

  lemma {:induction false} SkipBlanks(blanks: seq<Code>, text: seq<Code>)
    requires Blanks(blanks) && (text == [] || !Blank(text[0]))
    ensures Skip(blanks + text) == text
  {
    if blanks == [] {
      assert blanks + text == text;
    } else {
      assert (blanks + text)[1..] == blanks[1..] + text;
      SkipBlanks(blanks[1..], text);
    }
  }

  /** What may stand behind a value. */
  predicate Ends(rest: seq<Code>) {
    rest != [] ==> Blank(rest[0]) || rest[0] in {COMMA, CLOSE_ARRAY, CLOSE_OBJECT}
  }

  lemma EndsAfter(blanks: seq<Code>, rest: seq<Code>)
    requires Blanks(blanks) && Ends(rest)
    ensures Ends(blanks + rest)
  {
  }

  lemma {:induction false} RunIs(digits: seq<Code>, rest: seq<Code>)
    requires (forall i :: 0 <= i < |digits| ==> IsDigit(digits[i])) && (rest == [] || !IsDigit(rest[0]))
    ensures DigitRun(digits + rest) == |digits|
  {
    if digits == [] {
      assert digits + rest == rest;
    } else {
      assert (digits + rest)[1..] == digits[1..] + rest;
      RunIs(digits[1..], rest);
    }
  }

  lemma NoFloat(rest: seq<Code>)
    requires Ends(rest)
    ensures !FloatTail(rest) && (rest != [] ==> !IsDigit(rest[0]))
  {
  }

  lemma ReadsNumeral(t: Tree, rest: seq<Code>)
    requires t.Numeral? && Good(t) && Ends(rest)
    ensures ReadNumber(Written(t) + rest) == Ok((Meaning(t), rest))
  {
    hide Value, DigitRun, FloatTail;
    var text := Written(t) + rest;
    NoFloat(rest);
    RunIs(t.digits, rest);
    var digits := t.digits + rest;
    assert IsDigit(t.digits[0]);
    assert text == (if t.minus then [MINUS] else []) + digits;
    assert if t.minus then text[1..] == digits else text == digits;
    assert digits[..|t.digits|] == t.digits && digits[|t.digits|..] == rest;
    assert digits[0] == t.digits[0];
    assert t.digits[0] == 48 ==> |t.digits| == 1;
    assert text != [] && (text[0] == MINUS <==> t.minus);
  }

  // ----- every text of the grammar is read

  lemma TreeStart(t: Tree, rest: seq<Code>)
    requires Good(t)
    ensures var text := Written(t) + rest; text != [] && !Blank(text[0]) && text[0] != CLOSE_ARRAY
  {
    if t.Numeral? {
      assert IsDigit(t.digits[0]);
    }
  }

  lemma ReadsLeaf(t: Tree, rest: seq<Code>)
    requires Good(t) && Ends(rest) && (t.Word? || t.Numeral? || t.Quoted?)
    ensures ReadValue(Written(t) + rest) == Ok((Meaning(t), rest))
  {
    hide Characters, ReadNumber, ReadString, SpellAll, Value;
    var text := Written(t) + rest;
    match t {
      case Word(v) =>
        assert text[|WordText(v)|..] == rest;
      case Numeral(_, digits) =>
        ReadsNumeral(t, rest);
        assert IsDigit(digits[0]);
        assert text[0] == MINUS || IsDigit(text[0]);
      case Quoted(pieces) =>
        ReadsString(pieces, rest);
        assert text[1..] == SpellAll(pieces) + ([QUOTE] + rest);
    }
  }

  lemma {:induction false} ReadsTree(t: Tree, rest: seq<Code>)
    requires Good(t) && Ends(rest)
    ensures ReadValue(Written(t) + rest) == Ok((Meaning(t), rest))
    decreases t, 1
  {
    hide Skip, ReadItems, ReadMembers, ReadNumber, ReadString, WrittenItems, WrittenMembers, ItemsMeaning,
      MembersMeaning, Characters;
    var text := Written(t) + rest;
    match t {
      case List(gap, items) =>
        var close := [CLOSE_ARRAY] + rest;
        assert text[1..] == (if items == [] then gap else WrittenItems(items)) + close;
        if items == [] {
          SkipBlanks(gap, close);
          NoItems();
        } else {
          ReadsItems(items, rest);
          ItemsStart(items, close);
        }
      case Table(gap, members) =>
        var close := [CLOSE_OBJECT] + rest;
        assert text[1..] == (if members == [] then gap else WrittenMembers(members)) + close;
        if members == [] {
          SkipBlanks(gap, close);
          NoMembers();
        } else {
          ReadsMembers(members, map[], rest);
          MembersStart(members, close);
          assert map[] + MembersMeaning(members) == MembersMeaning(members);
        }
      case _ => ReadsLeaf(t, rest);
    }
  }

  lemma NoItems()
    ensures ItemsMeaning([]) == []
  {
  }

  lemma NoMembers()
    ensures MembersMeaning([]) == map[]
  {
  }

  /** One item, up to what follows it. */
  lemma ItemText(item: Item, tail: seq<Code>)
    requires GoodItem(item)
    ensures Skip(WrittenItem(item) + tail) == Written(item.value) + (item.after + tail)
  {
    TreeStart(item.value, item.after + tail);
    SkipBlanks(item.before, Written(item.value) + (item.after + tail));
    assert WrittenItem(item) + tail == item.before + (Written(item.value) + (item.after + tail));
  }

  lemma ItemsText(items: seq<Item>, close: seq<Code>)
    requires items != []
    ensures WrittenItems(items) + close == WrittenItem(items[0])
      + (if |items| == 1 then close else [COMMA] + (WrittenItems(items[1..]) + close))
  {
    hide WrittenItem;
  }

  lemma ItemsStart(items: seq<Item>, close: seq<Code>)
    requires items != [] && forall i :: 0 <= i < |items| ==> GoodItem(items[i])
    ensures var text := Skip(WrittenItems(items) + close); text != [] && text[0] != CLOSE_ARRAY
  {
    hide Skip, WrittenItem, WrittenItems, Written;
    assert GoodItem(items[0]);
    var tail := if |items| == 1 then close else [COMMA] + (WrittenItems(items[1..]) + close);
    ItemsText(items, close);
    ItemText(items[0], tail);
    TreeStart(items[0].value, items[0].after + tail);
  }

  lemma {:induction false} ReadsItems(items: seq<Item>, rest: seq<Code>)
    requires items != [] && forall i :: 0 <= i < |items| ==> GoodItem(items[i])
    ensures ReadItems(Skip(WrittenItems(items) + ([CLOSE_ARRAY] + rest))) == Ok((ItemsMeaning(items), rest))
    decreases items, 0
  {
    hide Skip, WrittenItem, WrittenItems, Written, ReadValue;
    var close := [CLOSE_ARRAY] + rest;
    var item, more := items[0], items[1..];
    assert GoodItem(item);
    var tail := if |items| == 1 then close else [COMMA] + (WrittenItems(more) + close);
    ItemsText(items, close);
    ItemText(item, tail);
    EndsAfter(item.after, tail);
    ReadsTree(item.value, item.after + tail);
    SkipBlanks(item.after, tail);
    assert ReadValue(Written(item.value) + (item.after + tail)) == Ok((Meaning(item.value), item.after + tail));
    assert ItemsMeaning(items) == [Meaning(item.value)] + ItemsMeaning(more);
    if |items| > 1 {
      assert tail[1..] == WrittenItems(more) + close;
      ReadsItems(more, rest);
    } else {
      assert tail[1..] == rest && more == [];
      NoItems();
      assert [Meaning(item.value)] + [] == [Meaning(item.value)];
    }
  }

  // ----- members

  lemma MemberText(m: Member, tail: seq<Code>)
    requires GoodMember(m)
    ensures var text := Skip(WrittenMember(m) + tail);
      && text != [] && text[0] == QUOTE
      && text[1..] == SpellAll(m.key) + ([QUOTE] + (m.gap + ([COLON] + (WrittenItem(m.item) + tail))))
    ensures Skip(m.gap + ([COLON] + (WrittenItem(m.item) + tail))) == [COLON] + (WrittenItem(m.item) + tail)
  {
    hide WrittenItem, SpellAll, Characters, GoodItem;
    var colon := [COLON] + (WrittenItem(m.item) + tail);
    var text := [QUOTE] + (SpellAll(m.key) + ([QUOTE] + (m.gap + colon)));
    SkipBlanks(m.before, text);
    SkipBlanks(m.gap, colon);
    assert WrittenMember(m) + tail == m.before + text;
  }

  lemma MembersText(members: seq<Member>, close: seq<Code>)
    requires members != []
    ensures WrittenMembers(members) + close == WrittenMember(members[0])
      + (if |members| == 1 then close else [COMMA] + (WrittenMembers(members[1..]) + close))
  {
    hide WrittenMember;
  }

  lemma MembersStart(members: seq<Member>, close: seq<Code>)
    requires members != [] && forall i :: 0 <= i < |members| ==> GoodMember(members[i])
    ensures var text := Skip(WrittenMembers(members) + close); text != [] && text[0] != CLOSE_OBJECT
  {
    hide Skip, WrittenMember, WrittenMembers;
    assert GoodMember(members[0]);
    MembersText(members, close);
    MemberText(members[0], if |members| == 1 then close else [COMMA] + (WrittenMembers(members[1..]) + close));
  }

  predicate Distinct(members: seq<Member>) {
    forall i, j :: 0 <= i < j < |members| ==> Characters(members[i].key) != Characters(members[j].key)
  }

  predicate Apart(members: seq<Member>, fields: map<seq<Code>, Json>) {
    forall i :: 0 <= i < |members| ==> Characters(members[i].key) !in fields
  }

  lemma MembersStep(members: seq<Member>, fields: map<seq<Code>, Json>)
    requires members != [] && forall i :: 0 <= i < |members| ==> GoodMember(members[i])
    requires Distinct(members) && Apart(members, fields)
    requires GoodItem(members[0].item)
    ensures var fields' := fields[Characters(members[0].key) := Meaning(members[0].item.value)];
      && Distinct(members[1..]) && Apart(members[1..], fields')
      && fields' + MembersMeaning(members[1..]) == fields + MembersMeaning(members)
  {
    hide Characters, Meaning;
    var more := members[1..];
    assert forall i :: 0 <= i < |more| ==> more[i] == members[i + 1];
    var key := Characters(members[0].key);
    assert key !in MembersMeaning(more) by {
      hide Good, GoodMember, GoodItem;
    }
    MembersMeaningStep(members);
    MapMoves(fields, MembersMeaning(more), key, Meaning(members[0].item.value));
  }

  lemma MapMoves(a: map<seq<Code>, Json>, b: map<seq<Code>, Json>, key: seq<Code>, v: Json)
    requires key !in b
    ensures a[key := v] + b == a + b[key := v]
  {
  }

  lemma MembersMeaningStep(members: seq<Member>)
    requires members != [] && forall i :: 0 <= i < |members| ==> GoodMember(members[i])
    requires GoodItem(members[0].item)
    ensures MembersMeaning(members) ==
      MembersMeaning(members[1..])[Characters(members[0].key) := Meaning(members[0].item.value)]
  {
  }

  lemma {:induction false} ReadsMembers(members: seq<Member>, fields: map<seq<Code>, Json>, rest: seq<Code>)
    requires members != [] && forall i :: 0 <= i < |members| ==> GoodMember(members[i])
    requires Distinct(members) && Apart(members, fields)
    ensures ReadMembers(Skip(WrittenMembers(members) + ([CLOSE_OBJECT] + rest)), fields, false) ==
      Ok((Obj(fields + MembersMeaning(members)), rest))
    decreases members, 0
  {
    hide Skip, WrittenItem, WrittenMember, WrittenMembers, Written, ReadValue, ReadString, Characters, MembersMeaning,
      SpellAll, Distinct, Meaning;
    var close := [CLOSE_OBJECT] + rest;
    var m, more := members[0], members[1..];
    assert GoodMember(m) && GoodItem(m.item);
    var tail := if |members| == 1 then close else [COMMA] + (WrittenMembers(more) + close);
    MembersText(members, close);
    MemberText(m, tail);
    ReadsString(m.key, m.gap + ([COLON] + (WrittenItem(m.item) + tail)));
    assert ([COLON] + (WrittenItem(m.item) + tail))[1..] == WrittenItem(m.item) + tail;
    ItemText(m.item, tail);
    EndsAfter(m.item.after, tail);
    ReadsTree(m.item.value, m.item.after + tail);
    SkipBlanks(m.item.after, tail);
    MembersStep(members, fields);
    var fields' := fields[Characters(m.key) := Meaning(m.item.value)];
    assert Characters(m.key) !in fields;
    if |members| > 1 {
      assert tail[1..] == WrittenMembers(more) + close;
      ReadsMembers(more, fields', rest);
    } else {
      assert tail[1..] == rest && more == [];
      NoMembers();
      assert fields' + map[] == fields';
    }
  }

  // ----- nothing else is read

  /** What was read off is one piece, or a pair of two. */
  lemma PieceOf(text: seq<Code>) returns (first: seq<Piece>)
    requires text != [] && text[0] != QUOTE && ReadChar(text).Some?
    ensures var (c, rest) := ReadChar(text).value;
      && GoodPieces(first) && text == SpellAll(first) + rest
      && (|first| == 1 || (|first| == 2 && Paired(first)))
      && Characters(first) == [c]
      && (|first| == 1 && first[0].Unit? && High(CodeOf(first[0])) ==> !StartsLow(rest))
  {
    hide ReadHex4, CodeOf, SpellAll, Characters;
    if text[0] == BACKSLASH && text[1] == LETTER_U {
      first := UnitsOf(text);
    } else if text[0] != BACKSLASH {
      first := [Plain(text[0])];
      OnePiece(first[0]);
      assert CodeOf(first[0]) == text[0] by { PlainCode(text[0]); }
    } else {
      SameTables(text[1]);
      first := [Short(text[1])];
      OnePiece(first[0]);
      assert CodeOf(first[0]) == SimpleEscape(text[1]).value by { ShortCode(text[1]); }
      assert text == [text[0], text[1]] + text[2..];
    }
  }

  lemma PlainCode(c: Code)
    ensures CodeOf(Plain(c)) == c
  {
  }

  lemma ShortCode(c: Code)
    requires ShortOf(c).Some?
    ensures CodeOf(Short(c)) == ShortOf(c).value
  {
  }

  lemma UnitsOf(text: seq<Code>) returns (first: seq<Piece>)
    requires |text| >= 2 && text[0] == BACKSLASH && text[1] == LETTER_U && ReadChar(text).Some?
    ensures var (c, rest) := ReadChar(text).value;
      && GoodPieces(first) && text == SpellAll(first) + rest
      && (|first| == 1 || (|first| == 2 && Paired(first)))
      && Characters(first) == [c]
      && (|first| == 1 && first[0].Unit? && High(CodeOf(first[0])) ==> !StartsLow(rest))
  {
    hide ReadHex4, CodeOf, Spell, SpellAll, Characters, GoodPiece, SimpleEscape;
    var unit := UnitOf(text);
    first := [unit];
    OnePiece(unit);
    if High(CodeOf(unit)) && |text| >= 8 && text[6] == BACKSLASH && text[7] == LETTER_U {
      assert text[6..][2..] == text[8..];
      var low := UnitOf(text[6..]);
      if Low(CodeOf(low)) {
        first := [unit, low];
        TwoPieces(unit, low);
        assert text[6..][6..] == text[12..];
        assert text == Spell(unit) + Spell(low) + text[12..];
      }
    }
  }

  lemma OnePiece(p: Piece)
    ensures SpellAll([p]) == Spell(p) && Characters([p]) == [CodeOf(p)]
  {
    assert [p][1..] == [];
  }

  lemma TwoPieces(a: Piece, b: Piece)
    ensures SpellAll([a, b]) == Spell(a) + Spell(b)
    ensures Paired([a, b]) ==>
      Characters([a, b]) == [0x1_0000 + (CodeOf(a) - 0xD800) * 1024 + (CodeOf(b) - 0xDC00)]
  {
    hide CodeOf, Spell;
    assert [a, b][1..] == [b] && [a, b][2..] == [];
    OnePiece(b);
    NoCharacters();
  }

  /** The text starts with an escaped low surrogate. */
  predicate StartsLow(text: seq<Code>) {
    && |text| >= 2 && text[0] == BACKSLASH && text[1] == LETTER_U
    && ReadHex4(text[2..]).Some? && Low(ReadHex4(text[2..]).value)
  }

  lemma UnitOf(text: seq<Code>) returns (unit: Piece)
    requires |text| >= 2 && text[0] == BACKSLASH && text[1] == LETTER_U && ReadHex4(text[2..]).Some?
    ensures unit.Unit? && GoodPiece(unit) && |text| >= 6 && text == Spell(unit) + text[6..]
    ensures ReadHex4(text[2..]) == Some(CodeOf(unit))
  {
    unit := Unit(text[2], text[3], text[4], text[5]);
    SameTables(text[2]);
    SameTables(text[3]);
    SameTables(text[4]);
    SameTables(text[5]);
    hide HexValue, HexOf;
  }

  lemma {:induction false} PiecesOf(text: seq<Code>) returns (pieces: seq<Piece>)
    requires ReadString(text).Some?
    ensures GoodPieces(pieces) && Characters(pieces) == ReadString(text).value.0
    ensures text == SpellAll(pieces) + ([QUOTE] + ReadString(text).value.1)
    decreases |text|
  {
    hide ReadChar, Characters, SpellAll, CodeOf, GoodPiece, ReadHex4, Spell;
    if text[0] == QUOTE {
      pieces := [];
      NothingSpelled();
      NoCharacters();
    } else {
      var (c, rest) := ReadChar(text).value;
      var first := PieceOf(text);
      var more := PiecesOf(rest);
      var after := [QUOTE] + ReadString(text).value.1;
      pieces := first + more;
      assert rest == SpellAll(more) + after;
      if |first| == 1 && more != [] && more[0].Unit? && Low(CodeOf(more[0])) {
        LowShows(more, after);
      }
      Joins(first, more);
      assert text == SpellAll(first) + SpellAll(more) + after;
    }
  }

  lemma NoCharacters()
    ensures Characters([]) == []
  {
  }

  lemma LowShows(pieces: seq<Piece>, rest: seq<Code>)
    requires pieces != [] && GoodPiece(pieces[0]) && pieces[0].Unit? && Low(CodeOf(pieces[0]))
    ensures StartsLow(SpellAll(pieces) + rest)
  {
    hide ReadHex4, CodeOf;
    SpellStep(pieces, rest);
    UnitIsHex4(pieces[0], SpellAll(pieces[1..]) + rest);
  }

  lemma Joins(first: seq<Piece>, more: seq<Piece>)
    requires |first| == 1 || (|first| == 2 && Paired(first))
    requires |first| == 1 && more != [] && more[0].Unit? && Low(CodeOf(more[0])) ==>
      !(first[0].Unit? && High(CodeOf(first[0])))
    ensures SpellAll(first + more) == SpellAll(first) + SpellAll(more)
    ensures Characters(first + more) == Characters(first) + Characters(more)
  {
    if |first| == 1 {
      JoinsOne(first[0], more);
      assert first == [first[0]];
    } else {
      JoinsPair(first[0], first[1], more);
      assert first == [first[0], first[1]];
    }
  }

  lemma JoinsOne(p: Piece, more: seq<Piece>)
    requires more != [] && more[0].Unit? && Low(CodeOf(more[0])) ==> !(p.Unit? && High(CodeOf(p)))
    ensures SpellAll([p] + more) == SpellAll([p]) + SpellAll(more)
    ensures Characters([p] + more) == Characters([p]) + Characters(more)
  {
    hide CodeOf, Spell;
    OnePiece(p);
    assert ([p] + more)[1..] == more;
  }

  lemma JoinsPair(a: Piece, b: Piece, more: seq<Piece>)
    requires Paired([a, b])
    ensures SpellAll([a, b] + more) == SpellAll([a, b]) + SpellAll(more)
    ensures Characters([a, b] + more) == Characters([a, b]) + Characters(more)
  {
    hide CodeOf, Spell;
    var all := [a, b] + more;
    TwoPieces(a, b);
    assert all[1..] == [b] + more && all[2..] == more && all[1..][1..] == more;
    assert Spell(a) + (Spell(b) + SpellAll(more)) == Spell(a) + Spell(b) + SpellAll(more);
    assert Paired(all);
  }

  lemma {:induction false} Skipped(text: seq<Code>) returns (blanks: seq<Code>)
    ensures Blanks(blanks) && text == blanks + Skip(text)
  {
    if text != [] && Blank(text[0]) {
      var rest := Skipped(text[1..]);
      blanks := [text[0]] + rest;
    } else {
      blanks := [];
    }
  }

  lemma NumeralOf(text: seq<Code>) returns (t: Tree)
    requires ReadNumber(text).Ok?
    ensures Good(t) && Meaning(t) == ReadNumber(text).value.0 && text == Written(t) + ReadNumber(text).value.1
  {
    hide Value, DigitRun, FloatTail;
    var minus := text != [] && text[0] == MINUS;
    var digits := if minus then text[1..] else text;
    var run := if digits != [] && digits[0] == 48 then 1 else DigitRun(digits);
    t := Numeral(minus, digits[..run]);
    GoodNumeral(minus, digits, run);
    hide Good;
    SplitsAt(text, digits, minus, run);
  }

  lemma GoodNumeral(minus: bool, digits: seq<Code>, run: nat)
    requires 0 < run <= |digits| && (digits[0] == 48 ==> run == 1) && forall i :: 0 <= i < run ==> IsDigit(digits[i])
    ensures Good(Numeral(minus, digits[..run]))
  {
  }

  lemma SplitsAt(text: seq<Code>, digits: seq<Code>, minus: bool, run: nat)
    requires run <= |digits| && text == (if minus then [MINUS] else []) + digits
    ensures text == Written(Numeral(minus, digits[..run])) + digits[run..]
  {
    assert digits == digits[..run] + digits[run..];
  }

  lemma LeafOf(text: seq<Code>) returns (t: Tree)
    requires ReadValue(text).Ok? && text[0] != OPEN_OBJECT && text[0] != OPEN_ARRAY
    ensures Good(t) && Meaning(t) == ReadValue(text).value.0 && text == Written(t) + ReadValue(text).value.1
  {
    hide ReadNumber, ReadString, Characters, SpellAll, Value;
    if text[0] == QUOTE {
      var pieces := PiecesOf(text[1..]);
      t := Quoted(pieces);
    } else if NULL_TEXT <= text {
      t := Word(Null);
    } else if TRUE_TEXT <= text {
      t := Word(Bool(true));
    } else if FALSE_TEXT <= text {
      t := Word(Bool(false));
    } else {
      t := NumeralOf(text);
    }
  }

  lemma EmptyTree(text: seq<Code>, open: Code, gap: seq<Code>, close: Code)
    requires text != [] && text[0] == open && text[1..] == gap + Skip(text[1..])
    requires Skip(text[1..]) != [] && Skip(text[1..])[0] == close
    ensures text == [open] + (gap + [close]) + Skip(text[1..])[1..]
  {
  }

  lemma {:induction false} TreeOf(text: seq<Code>) returns (t: Tree)
    requires ReadValue(text).Ok?
    ensures Good(t) && Meaning(t) == ReadValue(text).value.0 && text == Written(t) + ReadValue(text).value.1
    decreases |text|, 1
  {
    hide Skip, ReadItems, ReadMembers, ReadNumber, ReadString, WrittenItems, WrittenMembers, ItemsMeaning,
      MembersMeaning, Characters, Blanks;
    if text[0] == OPEN_OBJECT {
      var body := Skip(text[1..]);
      if body != [] && body[0] == CLOSE_OBJECT {
        var gap := Skipped(text[1..]);
        t := Table(gap, []);
        NoMembers();
        EmptyTree(text, OPEN_OBJECT, gap, CLOSE_OBJECT);
      } else {
        var members := MembersOf(text[1..], map[], false);
        NoBlanks();
        t := Table([], members);
        assert map[] + MembersMeaning(members) == MembersMeaning(members);
      }
    } else if text[0] == OPEN_ARRAY {
      var body := Skip(text[1..]);
      if body != [] && body[0] == CLOSE_ARRAY {
        var gap := Skipped(text[1..]);
        t := List(gap, []);
        NoItems();
        EmptyTree(text, OPEN_ARRAY, gap, CLOSE_ARRAY);
      } else {
        var items := ItemsOf(text[1..]);
        NoBlanks();
        t := List([], items);
      }
    } else {
      t := LeafOf(text);
    }
  }

  lemma NoBlanks()
    ensures Blanks([])
  {
  }

  lemma {:induction false} ItemsOf(text: seq<Code>) returns (items: seq<Item>)
    requires ReadItems(Skip(text)).Ok?
    ensures items != [] && forall i :: 0 <= i < |items| ==> GoodItem(items[i])
    ensures ItemsMeaning(items) == ReadItems(Skip(text)).value.0
    ensures text == WrittenItems(items) + ([CLOSE_ARRAY] + ReadItems(Skip(text)).value.1)
    decreases |text|, 2
  {
    hide Skip, ReadValue, Written, Meaning;
    var before := Skipped(text);
    var first := ReadValue(Skip(text)).value;
    var value := TreeOf(Skip(text));
    var after := Skipped(first.1);
    var tail := Skip(first.1);
    var item := Item(before, value, after);
    assert text == WrittenItem(item) + tail;
    if tail[0] == CLOSE_ARRAY {
      items := [item];
      assert items[1..] == [];
    } else {
      var more := ItemsOf(tail[1..]);
      items := [item] + more;
      assert items[1..] == more;
      ItemsText(items, [CLOSE_ARRAY] + ReadItems(Skip(text)).value.1);
    }
  }

  /** One member, and how the reader goes on behind it. */
  lemma MemberOf(text: seq<Code>, fields: map<seq<Code>, Json>, repeated: bool)
      returns (m: Member, tail: seq<Code>)
    requires ReadMembers(Skip(text), fields, repeated).Ok?
    ensures GoodMember(m) && GoodItem(m.item) && text == WrittenMember(m) + tail && tail != [] && |tail| < |text|
    ensures var all, key := ReadMembers(Skip(text), fields, repeated), Characters(m.key);
      var fields', repeated' := fields[key := Meaning(m.item.value)], repeated || key in fields;
      && (tail[0] == CLOSE_OBJECT ==> !repeated' && all == Ok((Obj(fields'), tail[1..])))
      && (tail[0] != CLOSE_OBJECT ==>
            tail[0] == COMMA && all == ReadMembers(Skip(tail[1..]), fields', repeated'))
    decreases |text|, 2
  {
    hide Skip, ReadValue, Written, Meaning, ReadString, Characters, SpellAll;
    var before := Skipped(text);
    var body := Skip(text);
    var key := ReadString(body[1..]).value;
    var pieces := PiecesOf(body[1..]);
    var gap := Skipped(key.1);
    var colon := Skip(key.1);
    var front := Skipped(colon[1..]);
    var value := TreeOf(Skip(colon[1..]));
    var read := ReadValue(Skip(colon[1..])).value;
    var after := Skipped(read.1);
    tail := Skip(read.1);
    var item := Item(front, value, after);
    m := Member(before, pieces, gap, item);
    assert colon == [COLON] + (WrittenItem(item) + tail);
    assert text == WrittenMember(m) + tail;
  }

  lemma {:induction false} MembersOf(text: seq<Code>, fields: map<seq<Code>, Json>, repeated: bool)
      returns (members: seq<Member>)
    requires ReadMembers(Skip(text), fields, repeated).Ok?
    ensures members != [] && forall i :: 0 <= i < |members| ==> GoodMember(members[i])
    ensures !repeated && Distinct(members) && Apart(members, fields)
    ensures ReadMembers(Skip(text), fields, repeated).value.0 == Obj(fields + MembersMeaning(members))
    ensures text == WrittenMembers(members) + ([CLOSE_OBJECT] + ReadMembers(Skip(text), fields, repeated).value.1)
    decreases |text|, 3
  {
    hide Skip, ReadMembers, WrittenMember, WrittenMembers, Meaning, MembersMeaning, Characters, Distinct, Apart;
    var m, tail := MemberOf(text, fields, repeated);
    var rest := [CLOSE_OBJECT] + ReadMembers(Skip(text), fields, repeated).value.1;
    if tail[0] == CLOSE_OBJECT {
      members := [m];
      LastMember(m, fields, rest);
      assert tail == rest;
    } else {
      var fields' := fields[Characters(m.key) := Meaning(m.item.value)];
      var more := MembersOf(tail[1..], fields', repeated || Characters(m.key) in fields);
      members := [m] + more;
      BeforeMembers(m, more, fields, rest);
      assert tail == [COMMA] + (WrittenMembers(more) + rest);
    }
  }

  lemma LastMember(m: Member, fields: map<seq<Code>, Json>, rest: seq<Code>)
    requires GoodMember(m) && GoodItem(m.item) && Characters(m.key) !in fields
    ensures Distinct([m]) && Apart([m], fields)
    ensures fields + MembersMeaning([m]) == fields[Characters(m.key) := Meaning(m.item.value)]
    ensures WrittenMembers([m]) + rest == WrittenMember(m) + rest
  {
    hide Characters, Meaning, GoodItem;
    assert [m][1..] == [];
    NoMembers();
    MembersMeaningStep([m]);
    MembersText([m], rest);
  }

  lemma BeforeMembers(m: Member, more: seq<Member>, fields: map<seq<Code>, Json>, rest: seq<Code>)
    requires GoodMember(m) && GoodItem(m.item) && Characters(m.key) !in fields
    requires more != [] && (forall i :: 0 <= i < |more| ==> GoodMember(more[i])) && Distinct(more)
    requires Apart(more, fields[Characters(m.key) := Meaning(m.item.value)])
    ensures Distinct([m] + more) && Apart([m] + more, fields)
    ensures forall i :: 0 <= i < |[m] + more| ==> GoodMember(([m] + more)[i])
    ensures fields[Characters(m.key) := Meaning(m.item.value)] + MembersMeaning(more)
      == fields + MembersMeaning([m] + more)
    ensures WrittenMembers([m] + more) + rest == WrittenMember(m) + ([COMMA] + (WrittenMembers(more) + rest))
  {
    hide Characters, Meaning, GoodMember, WrittenMembers, MembersMeaning;
    var members := [m] + more;
    assert members[1..] == more;
    AllApart(m, more, fields, Meaning(m.item.value));
    MembersText(members, rest);
    MembersStep(members, fields);
  }

  lemma AllApart(m: Member, more: seq<Member>, fields: map<seq<Code>, Json>, v: Json)
    requires Distinct(more) && Apart(more, fields[Characters(m.key) := v]) && Characters(m.key) !in fields
    ensures Distinct([m] + more) && Apart([m] + more, fields)
  {
    hide Characters;
    assert forall i :: 0 <= i < |more| ==> Characters(more[i].key) != Characters(m.key);
  }

  // ----- the theorem

  /** The reader accepts a text, as a certain object, exactly when the text is a JSON text of that object. */
  lemma DecodesExactlyTheGrammar(text: seq<Code>, v: Json)
    ensures Decode(text) == Ok(v) <==> IsJson(text, v)
  {
    hide ReadValue, Skip, Written, Meaning, Good;
    if Decode(text) == Ok(v) {
      var body := Skip(text);
      var lead := Skipped(text);
      var t := TreeOf(body);
      var trail := Skipped(ReadValue(body).value.1);
      assert text == lead + (Written(t) + trail);
      IsTable(t);
    }
    if IsJson(text, v) {
      var lead: seq<Code>, t: Tree, trail: seq<Code> :| Blanks(lead) && Blanks(trail) && t.Table? && Good(t)
        && text == lead + (Written(t) + trail) && v == Meaning(t);
      TreeStart(t, trail);
      SkipBlanks(lead, Written(t) + trail);
      assert trail + [] == trail;
      EndsAfter(trail, []);
      ReadsTree(t, trail);
      SkipBlanks(trail, []);
      IsTable(t);
    }
  }

  lemma IsTable(t: Tree)
    requires Good(t)
    ensures Meaning(t).Obj? <==> t.Table?
  {
  }
}
