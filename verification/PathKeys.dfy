/** `file_view.path_key`: unpadded URL-safe base64 (section 5 of RFC 4648) of raw path bytes, and its inverse. */
module PathKeys {
  import opened Text

  const PAD: Code := 61

  type Six = d: int | 0 <= d < 64

  /** The URL-safe alphabet: letters, digits, `-` and `_`. */
  function Symbol(d: Six): (c: Code)
    ensures c != PAD
  {
    if d < 26 then 65 + d
    else if d < 52 then 97 + (d - 26)
    else if d < 62 then 48 + (d - 52)
    else if d == 62 then 45 else 95
  }

  function Digit(c: Code): Option<Six> {
    if 65 <= c <= 90 then Some(c - 65)
    else if 97 <= c <= 122 then Some(c - 97 + 26)
    else if 48 <= c <= 57 then Some(c - 48 + 52)
    else if c == 45 then Some(62)
    else if c == 95 then Some(63)
    else None
  }

  function Group(x: Byte, y: Byte, z: Byte): (group: seq<Code>)
    ensures |group| == 4 && group[2] != PAD && group[3] != PAD
  {
    [Symbol(x / 4), Symbol(x % 4 * 16 + y / 16), Symbol(y % 16 * 4 + z / 64), Symbol(z % 64)]
  }

  /** `urlsafe_b64encode`: three bytes give four symbols; a short last group is padded. */
  function Encode64(s: seq<Byte>): (text: seq<Code>)
    ensures |text| % 4 == 0
  {
    if s == [] then []
    else if |s| == 1 then [Symbol(s[0] / 4), Symbol(s[0] % 4 * 16), PAD, PAD]
    else if |s| == 2 then [Symbol(s[0] / 4), Symbol(s[0] % 4 * 16 + s[1] / 16), Symbol(s[1] % 16 * 4), PAD]
    else Group(s[0], s[1], s[2]) + Encode64(s[3..])
  }

  /** The three bytes of four digits. */
  function Three(a: Six, b: Six, c: Six, d: Six): seq<Byte> {
    [a * 4 + b / 16, b % 16 * 16 + c / 4, c % 4 * 64 + d]
  }

  /** `urlsafe_b64decode` of a padded text; None where Python raises or would skip a foreign character. */
  function Decode64(text: seq<Code>): Option<seq<Byte>> {
    if text == [] then Some([])
    else if |text| < 4 then None
    else
      var a, b, c, d := Digit(text[0]), Digit(text[1]), Digit(text[2]), Digit(text[3]);
      if a.None? || b.None? then None
      else if text[2..] == [PAD, PAD] then Some([a.value * 4 + b.value / 16])
      else if c.None? then None
      else if text[3..] == [PAD] then Some([a.value * 4 + b.value / 16, b.value % 16 * 16 + c.value / 4])
      else if d.None? then None
      else
        var rest := Decode64(text[4..]);
        if rest.None? then None
        else Some(Three(a.value, b.value, c.value, d.value) + rest.value)
  }

  /** `rstrip("=")` */
  function StripPad(text: seq<Code>): seq<Code> {
    if text != [] && text[|text| - 1] == PAD then StripPad(text[..|text| - 1]) else text
  }

  function Pads(n: nat): (p: seq<Code>)
    ensures |p| == n
  {
    seq(n, _ => PAD)
  }

  function PathKey(path: seq<Byte>): seq<Code> {
    StripPad(Encode64(path))
  }

  /** `urlsafe_b64decode(key + "=" * (-len(key) % 4))` */
  function RawPath(key: seq<Code>): Option<seq<Byte>> {
    Decode64(key + Pads(-|key| % 4))
  }

  /** The value of each symbol in the table of section 5 of RFC 4648. */
  predicate TableValue(symbol: Code, d: Six) {
    || ('A' as int <= symbol <= 'Z' as int && d == symbol - 'A' as int)
    || ('a' as int <= symbol <= 'z' as int && d == symbol - 'a' as int + 26)
    || ('0' as int <= symbol <= '9' as int && d == symbol - '0' as int + 52)
    || (symbol == '-' as int && d == 62)
    || (symbol == '_' as int && d == 63)
  }

  /** Each digit is written as its symbol in that table. */
  lemma SymbolsFollowTheTable(d: Six)
    ensures TableValue(Symbol(d), d)
  {
  }

  /** Nothing but these symbols has a digit. */
  lemma DigitIff(c: Code, d: Six)
    ensures Digit(c) == Some(d) <==> TableValue(c, d)
  {
  }

  lemma DigitOfSymbol(d: Six)
    ensures Digit(Symbol(d)) == Some(d)
  {
  }

  lemma GroupRoundTrip(x: Byte, y: Byte, z: Byte)
    ensures x / 4 * 4 + (x % 4 * 16 + y / 16) / 16 == x
    ensures (x % 4 * 16 + y / 16) % 16 * 16 + (y % 16 * 4 + z / 64) / 4 == y
    ensures (y % 16 * 4 + z / 64) % 4 * 64 + z % 64 == z
  {
  }

  lemma DecodeOne(x: Byte)
    ensures Decode64(Encode64([x])) == Some([x])
  {
    DigitOfSymbol(x / 4);
    DigitOfSymbol(x % 4 * 16);
    GroupRoundTrip(x, 0, 0);
    hide Symbol, Digit;
    assert Encode64([x])[2..] == [PAD, PAD];
  }

  lemma DecodeTwo(x: Byte, y: Byte)
    ensures Decode64(Encode64([x, y])) == Some([x, y])
  {
    DigitOfSymbol(x / 4);
    DigitOfSymbol(x % 4 * 16 + y / 16);
    DigitOfSymbol(y % 16 * 4);
    GroupRoundTrip(x, y, 0);
    hide Symbol, Digit;
    assert Encode64([x, y])[3..] == [PAD];
    assert Encode64([x, y])[2..][0] != PAD;
  }

  /** Four symbols, whatever follows them, are three bytes. */
  lemma DecodeSymbols(a: Six, b: Six, c: Six, d: Six, text: seq<Code>, rest: seq<Code>)
    requires Decode64(rest).Some?
    requires text == [Symbol(a), Symbol(b), Symbol(c), Symbol(d)] + rest
    ensures Decode64(text) == Some(Three(a, b, c, d) + Decode64(rest).value)
  {
    DigitOfSymbol(a);
    DigitOfSymbol(b);
    DigitOfSymbol(c);
    DigitOfSymbol(d);
    hide Symbol, Digit, Three;
    assert text[4..] == rest;
    assert text[2..][0] != PAD && text[3..][0] != PAD;
  }

  lemma GroupBytes(x: Byte, y: Byte, z: Byte)
    ensures Three(x / 4, x % 4 * 16 + y / 16, y % 16 * 4 + z / 64, z % 64) == [x, y, z]
  {
    GroupRoundTrip(x, y, z);
  }

  lemma DecodeGroup(x: Byte, y: Byte, z: Byte, rest: seq<Code>)
    requires Decode64(rest).Some?
    ensures Decode64(Group(x, y, z) + rest) == Some([x, y, z] + Decode64(rest).value)
  {
    hide Symbol, Decode64, Three;
    DecodeSymbols(x / 4, x % 4 * 16 + y / 16, y % 16 * 4 + z / 64, z % 64, Group(x, y, z) + rest, rest);
    GroupBytes(x, y, z);
  }

  lemma {:induction false} DecodeOfEncode(s: seq<Byte>)
    ensures Decode64(Encode64(s)) == Some(s)
  {
    hide Group;
    if |s| == 1 {
      DecodeOne(s[0]);
      assert s == [s[0]];
    } else if |s| == 2 {
      DecodeTwo(s[0], s[1]);
      assert s == [s[0], s[1]];
    } else if |s| >= 3 {
      assert Encode64(s) == Group(s[0], s[1], s[2]) + Encode64(s[3..]);
      DecodeOfEncode(s[3..]);
      hide Decode64, Encode64;
      DecodeGroup(s[0], s[1], s[2], Encode64(s[3..]));
      assert s == [s[0], s[1], s[2]] + s[3..];
    }
  }

  lemma Remainder(n: int)
    ensures -(4 + n) % 4 == -n % 4
  {
  }

  /** Padding occurs only at the end, and the length says how much was stripped. */
  lemma {:induction false} PadsAreImplied(s: seq<Byte>)
    ensures PathKey(s) + Pads(-|PathKey(s)| % 4) == Encode64(s)
  {
    if |s| >= 3 {
      PadsAreImplied(s[3..]);
      hide Group;
      assert Encode64(s) == Group(s[0], s[1], s[2]) + Encode64(s[3..]);
      hide Encode64;
      PrefixPads(Group(s[0], s[1], s[2]), Encode64(s[3..]));
    } else {
      ShortPads(s);
    }
  }

  lemma PrefixPads(group: seq<Code>, rest: seq<Code>)
    requires |group| == 4 && group[3] != PAD
    requires StripPad(rest) + Pads(-|StripPad(rest)| % 4) == rest
    ensures StripPad(group + rest) + Pads(-|StripPad(group + rest)| % 4) == group + rest
  {
    StripSuffix(group, rest);
    Remainder(|StripPad(rest)|);
    hide StripPad;
    var kept := StripPad(rest);
    assert (group + kept) + Pads(-|kept| % 4) == group + (kept + Pads(-|kept| % 4));
  }

  lemma ShortPads(s: seq<Byte>)
    requires |s| < 3
    ensures PathKey(s) + Pads(-|PathKey(s)| % 4) == Encode64(s)
  {
    hide Symbol;
    var text := Encode64(s);
    if s != [] {
      var kept := if |s| == 1 then text[..2] else text[..3];
      assert text == kept + Pads(3 - |s|);
      StripRun(kept, 3 - |s|);
    }
  }

  lemma {:induction false} StripRun(kept: seq<Code>, n: nat)
    requires kept != [] && kept[|kept| - 1] != PAD
    ensures StripPad(kept + Pads(n)) == kept
  {
    if n == 0 {
      assert kept + Pads(0) == kept;
    } else {
      assert (kept + Pads(n))[..|kept| + n - 1] == kept + Pads(n - 1);
      StripRun(kept, n - 1);
    }
  }

  lemma {:induction false} StripSuffix(group: seq<Code>, text: seq<Code>)
    requires group != [] && group[|group| - 1] != PAD
    ensures StripPad(group + text) == group + StripPad(text)
    decreases |text|
  {
    if text == [] {
      assert group + text == group;
    } else if text[|text| - 1] == PAD {
      assert (group + text)[..|group + text| - 1] == group + text[..|text| - 1];
      StripSuffix(group, text[..|text| - 1]);
    }
  }

  /** Path keys decode back to the same raw bytes, for every path. */
  lemma KeyRoundTrip(path: seq<Byte>)
    ensures RawPath(PathKey(path)) == Some(path)
  {
    PadsAreImplied(path);
    DecodeOfEncode(path);
  }

  /** So a key identifies its path. */
  lemma KeyInjective(p: seq<Byte>, q: seq<Byte>)
    requires PathKey(p) == PathKey(q)
    ensures p == q
  {
    KeyRoundTrip(p);
    KeyRoundTrip(q);
  }
}
