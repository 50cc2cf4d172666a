/** Bytes, code points, `bytes.index`, decimal numerals and `int` of a token. */
module Text {
  import Order

  type Byte = b: int | 0 <= b < 256

  /** A code point of a Python `str`; lone surrogates are possible. */
  type Code = c: int | 0 <= c < 0x11_0000

  datatype Option<+T> = None | Some(value: T)

  const NEWLINE: Byte := 10
  const SPACE: Byte := 32
  const PLUS: Byte := 43
  const MINUS: Byte := 45
  const UNDERSCORE: Byte := 95

  /** Position of the first `b` at or after `from` (`bytes.index`; None is its ValueError). */
  function Index(s: seq<int>, b: int, from: nat): (r: Option<nat>)
    ensures r.Some? ==> from <= r.value < |s| && s[r.value] == b
    ensures r.Some? ==> forall i :: from <= i < r.value ==> s[i] != b
    ensures r.None? ==> forall i :: from <= i < |s| ==> s[i] != b
    decreases |s| - from
  {
    if |s| <= from then None
    else if s[from] == b then Some(from)
    else Index(s, b, from + 1)
  }

  lemma IndexAt(s: seq<int>, b: int, from: nat, at: nat)
    requires from <= at < |s| && s[at] == b && forall i :: from <= i < at ==> s[i] != b
    ensures Index(s, b, from) == Some(at)
  {
  }

  /** `sorted` on a set of byte strings. */
  function SortedBytes(s: set<seq<Byte>>): (keys: seq<seq<Byte>>)
    ensures keys == Order.Sorted(s)
    ensures Order.Ascending(keys) && Order.Lists(keys, s)
  {
    var keys := Order.Sorted(s);
    assert forall i :: 0 <= i < |keys| ==> keys[i] in s;
    keys
  }

  /** The value of a lower-case hexadecimal digit. */
  function LowerHexValue(c: int): Option<nat> {
    if 48 <= c <= 57 then Some(c - 48) else if 97 <= c <= 102 then Some(c - 97 + 10) else None
  }

  predicate IsHex(text: seq<int>) {
    forall i :: 0 <= i < |text| ==> IsDigit(text[i]) || 97 <= text[i] <= 102
  }

  /** A Git object id: 40 or 64 lower-case hexadecimal digits. */
  predicate IsOid(text: seq<int>) {
    |text| in {40, 64} && IsHex(text)
  }

  /** Two lower-case digits for each raw byte, the high one first. */
  predicate Spells(text: seq<int>, raw: seq<Byte>) {
    && |text| == 2 * |raw|
    && forall i :: 0 <= i < |raw| ==>
         var high, low := LowerHexValue(text[2 * i]), LowerHexValue(text[2 * i + 1]);
         high.Some? && low.Some? && 16 * high.value + low.value == raw[i]
  }

  function ByteOf(high: int, low: int): Byte
    requires LowerHexValue(high).Some? && LowerHexValue(low).Some?
  {
    16 * LowerHexValue(high).value + LowerHexValue(low).value
  }

  lemma SpellsHex(text: seq<int>, raw: seq<Byte>)
    requires Spells(text, raw)
    ensures IsHex(text)
  {
    forall k | 0 <= k < |text| ensures IsDigit(text[k]) || 97 <= text[k] <= 102 {
      var j := k / 2;
      var byte := raw[j];
      assert LowerHexValue(text[2 * j]).Some? && LowerHexValue(text[2 * j + 1]).Some?;
      assert k == 2 * j || k == 2 * j + 1;
    }
  }

  lemma HexIsSpelled(text: seq<int>, n: nat) returns (raw: seq<Byte>)
    requires |text| == 2 * n && IsHex(text)
    ensures |raw| == n && Spells(text, raw)
  {
    assert forall k :: 0 <= k < |text| ==> LowerHexValue(text[k]).Some?;
    raw := seq(n, i requires 0 <= i < n => ByteOf(text[2 * i], text[2 * i + 1]));
  }

  /** The hexadecimal texts of a length are exactly the spellings of that many bytes. */
  lemma HexSpelling(text: seq<int>, n: nat)
    ensures |text| == 2 * n && IsHex(text) <==> exists raw: seq<Byte> :: |raw| == n && Spells(text, raw)
  {
    if |text| == 2 * n && IsHex(text) {
      var raw := HexIsSpelled(text, n);
    }
    if raw: seq<Byte> :| |raw| == n && Spells(text, raw) {
      SpellsHex(text, raw);
    }
  }

  // ----- decimal numerals

  predicate IsDigit(c: int) {
    48 <= c <= 57
  }

  /** The shortest numeral of `n`, most significant digit first. */
  function Decimal(n: nat): (r: seq<Byte>)
    ensures r != [] && forall i :: 0 <= i < |r| ==> IsDigit(r[i])
    ensures r[0] == 48 ==> n == 0 && r == [48]
  {
    if n < 10 then [48 + n] else Decimal(n / 10) + [48 + n % 10]
  }

  /** Value of a digit string read left to right. */
  function Value(s: seq<int>): (n: nat)
    requires forall i :: 0 <= i < |s| ==> IsDigit(s[i])
  {
    if s == [] then 0 else
      assert IsDigit(s[|s| - 1]);
      10 * Value(s[..|s| - 1]) + (s[|s| - 1] - 48)
  }

  lemma {:induction false} ValueOfDecimal(n: nat)
    ensures Value(Decimal(n)) == n
  {
    if n >= 10 {
      var d := Decimal(n / 10);
      ValueOfDecimal(n / 10);
      assert (d + [48 + n % 10])[..|d|] == d;
    }
  }

  lemma DecimalInjective(m: nat, n: nat)
    requires Decimal(m) == Decimal(n)
    ensures m == n
  {
    ValueOfDecimal(m);
    ValueOfDecimal(n);
  }

  /** Digits with the underscores of Python's `int` literals removed; None when an underscore
      does not stand between two digits. */
  function BareDigits(s: seq<int>): (r: Option<seq<int>>)
    ensures r.Some? ==> forall i :: 0 <= i < |r.value| ==> IsDigit(r.value[i])
  {
    if s == [] || !IsDigit(s[0]) then None
    else if |s| == 1 then Some(s)
    else
      var rest := BareDigits(if s[1] == UNDERSCORE then s[2..] else s[1..]);
      if rest.None? then None else Some([s[0]] + rest.value)
  }

  lemma {:induction false} BareDigitsOfDigits(s: seq<int>)
    requires s != [] && forall i :: 0 <= i < |s| ==> IsDigit(s[i])
    ensures BareDigits(s) == Some(s)
  {
    if |s| > 1 {
      BareDigitsOfDigits(s[1..]);
      assert s == [s[0]] + s[1..];
    }
  }

  /** Python's `int(token)` on a token without whitespace. */
  function PythonInt(s: seq<int>): Option<int> {
    var negative := s != [] && s[0] == MINUS;
    var digits := BareDigits(if negative || (s != [] && s[0] == PLUS) then s[1..] else s);
    if digits.None? then None
    else
      var magnitude: int := Value(digits.value);
      Some(if negative then -magnitude else magnitude)
  }

  lemma PythonIntOfDecimal(n: nat)
    ensures PythonInt(Decimal(n)) == Some(n)
  {
    BareDigitsOfDigits(Decimal(n));
    ValueOfDecimal(n);
  }

  // ----- `bytes.split()` on whitespace

  predicate IsBlank(c: int) {
    c == 32 || 9 <= c <= 13
  }

  predicate NoBlank(s: seq<int>) {
    forall i :: 0 <= i < |s| ==> !IsBlank(s[i])
  }

  /** Maximal blank-free runs, left to right; `word` is the run read so far. */
  function SplitFrom(s: seq<Byte>, word: seq<Byte>): seq<seq<Byte>> {
    if s == [] then if word == [] then [] else [word]
    else if !IsBlank(s[0]) then SplitFrom(s[1..], word + [s[0]])
    else (if word == [] then [] else [word]) + SplitFrom(s[1..], [])
  }

  function Split(s: seq<Byte>): seq<seq<Byte>> {
    SplitFrom(s, [])
  }

  lemma {:induction false} SplitRun(run: seq<Byte>, rest: seq<Byte>, word: seq<Byte>)
    requires NoBlank(run)
    ensures SplitFrom(run + rest, word) == SplitFrom(rest, word + run)
  {
    if run == [] {
      assert run + rest == rest && word + run == word;
    } else {
      assert (run + rest)[1..] == run[1..] + rest;
      SplitRun(run[1..], rest, word + [run[0]]);
      assert word + [run[0]] + run[1..] == word + run;
    }
  }

  /** Joining blank-free words with single spaces and splitting gives the words back. */
  lemma {:induction false} SplitJoined(words: seq<seq<Byte>>)
    requires forall i :: 0 <= i < |words| ==> words[i] != [] && NoBlank(words[i])
    ensures Split(Joined(words)) == words
  {
    if |words| == 1 {
      SplitRun(words[0], [], []);
      assert words[0] + [] == words[0] && [] + words[0] == words[0];
      assert words == [words[0]];
    } else if |words| > 1 {
      var rest: seq<Byte> := [SPACE] + Joined(words[1..]);
      SplitRun(words[0], rest, []);
      assert [] + words[0] == words[0];
      assert rest[1..] == Joined(words[1..]);
      SplitJoined(words[1..]);
      assert words == [words[0]] + words[1..];
    }
  }

  function Joined(words: seq<seq<Byte>>): seq<Byte> {
    if words == [] then []
    else if |words| == 1 then words[0]
    else words[0] + ([SPACE] + Joined(words[1..]))
  }
}
