/** Universal newlines and `str.splitlines`. */
module Newlines {
  import opened Text

  const CR: Code := 13
  const LF: Code := 10

  /** Text-mode reading: every CR LF pair and every other CR becomes one LF, in one left-to-right pass. */
  function Translate(s: seq<Code>): seq<Code> {
    if s == [] then []
    else if s[0] != CR then [s[0]] + Translate(s[1..])
    else if |s| > 1 && s[1] == LF then [LF] + Translate(s[2..])
    else [LF] + Translate(s[1..])
  }

  /** `s.replace("\r\n", "\n")`. */
  function ReplaceCrLf(s: seq<Code>): seq<Code> {
    if s == [] then []
    else if |s| > 1 && s[0] == CR && s[1] == LF then [LF] + ReplaceCrLf(s[2..])
    else [s[0]] + ReplaceCrLf(s[1..])
  }

  /** `s.replace("\r", "\n")`. */
  function ReplaceCr(s: seq<Code>): seq<Code> {
    if s == [] then [] else [if s[0] == CR then LF else s[0]] + ReplaceCr(s[1..])
  }

  /** Two chained replacements are one left-to-right translation. */
  lemma {:induction false} ReplacesTranslate(s: seq<Code>)
    ensures ReplaceCr(ReplaceCrLf(s)) == Translate(s)
  {
    if s != [] {
      var skip := if |s| > 1 && s[0] == CR && s[1] == LF then 2 else 1;
      var head := if skip == 2 then LF else s[0];
      ReplacesTranslate(s[skip..]);
      assert ReplaceCrLf(s) == [head] + ReplaceCrLf(s[skip..]);
      assert ([head] + ReplaceCrLf(s[skip..]))[1..] == ReplaceCrLf(s[skip..]);
    }
  }

  lemma {:induction false} TranslateWithoutCr(s: seq<Code>)
    requires CR !in s
    ensures Translate(s) == s
  {
    if s != [] {
      TranslateWithoutCr(s[1..]);
      assert s == [s[0]] + s[1..];
    }
  }

  lemma TranslateHead(s: seq<Code>, skip: nat)
    requires s != [] && skip == if |s| > 1 && s[0] == CR && s[1] == LF then 2 else 1
    ensures Translate(s) == [if s[0] == CR then LF else s[0]] + Translate(s[skip..])
  {
  }

  lemma NothingTranslates()
    ensures Translate([]) == []
  {
  }

  lemma TranslateStep(s: seq<Code>, tail: seq<Code>, skip: nat)
    requires s != [] && skip == (if |s| > 1 && s[0] == CR && s[1] == LF then 2 else 1)
    requires tail != [] && tail[0] != LF
    requires Translate(s[skip..] + tail) == Translate(s[skip..]) + tail
    ensures Translate(s + tail) == Translate(s) + tail
  {
    hide Translate;
    var whole, head := s + tail, [if s[0] == CR then LF else s[0]];
    var below := Translate(s[skip..]);
    TranslateHead(s, skip);
    assert whole[skip..] == s[skip..] + tail && whole[0] == s[0];
    assert Translate(whole) == head + (below + tail) by {
      TranslateHead(whole, skip);
    }
    Regroup(head, below, tail);
  }

  lemma Regroup(a: seq<Code>, b: seq<Code>, c: seq<Code>)
    ensures a + (b + c) == (a + b) + c
  {
  }

  /** Text without CR that does not open with LF translates separately from what stands before it. */
  lemma {:induction false} TranslateAppend(s: seq<Code>, tail: seq<Code>)
    requires CR !in tail && tail != [] && tail[0] != LF
    ensures Translate(s + tail) == Translate(s) + tail
  {
    hide Translate;
    if s == [] {
      NothingTranslates();
      TranslateWithoutCr(tail);
      assert s + tail == tail && Translate(s) + tail == tail;
    } else {
      var skip: nat := if |s| > 1 && s[0] == CR && s[1] == LF then 2 else 1;
      TranslateAppend(s[skip..], tail);
      TranslateStep(s, tail, skip);
    }
  }

  /** The line boundaries of Python's `str.splitlines`. */
  predicate IsBoundary(c: int) {
    10 <= c <= 13 || 28 <= c <= 30 || c == 0x85 || c == 0x2028 || c == 0x2029
  }

  lemma BoundariesAre(c: int)
    ensures IsBoundary(c) <==> c in {
      0x0A, 0x0B, 0x0C, 0x0D,    // LF, VT, FF, CR
      0x1C, 0x1D, 0x1E,          // the file, group and record separators
      0x85, 0x2028, 0x2029}      // NEL, and the line and paragraph separators
  {
  }

  function FirstBoundary(s: seq<Code>): (n: nat)
    ensures n <= |s| && (n < |s| ==> IsBoundary(s[n])) && forall i :: 0 <= i < n ==> !IsBoundary(s[i])
  {
    if s == [] || IsBoundary(s[0]) then 0 else 1 + FirstBoundary(s[1..])
  }

  /** How many characters the first line boundary takes: CR LF is one boundary. */
  function BoundaryWidth(s: seq<Code>): (n: nat)
    requires FirstBoundary(s) < |s|
    ensures 1 <= n && FirstBoundary(s) + n <= |s|
  {
    var n := FirstBoundary(s);
    if s[n] == CR && n + 1 < |s| && s[n + 1] == LF then 2 else 1
  }

  function SplitLines(s: seq<Code>): seq<seq<Code>>
    decreases |s|
  {
    if s == [] then [] else
      var n := FirstBoundary(s);
      if n == |s| then [s] else [s[..n]] + SplitLines(s[n + BoundaryWidth(s)..])
  }

  predicate NoBoundary(s: seq<Code>) {
    forall i :: 0 <= i < |s| ==> !IsBoundary(s[i])
  }

  lemma SplitHead(s: seq<Code>, n: nat, rest: seq<Code>)
    requires n == FirstBoundary(s) < |s| && rest == s[n + BoundaryWidth(s)..]
    ensures SplitLines(s) == [s[..n]] + SplitLines(rest)
  {
    hide FirstBoundary, BoundaryWidth, IsBoundary;
    assert s != [];
  }

  lemma NothingSplits()
    ensures SplitLines([]) == []
  {
  }

  lemma SplitLine(line: seq<Code>, rest: seq<Code>)
    requires NoBoundary(line)
    ensures SplitLines(line + ([LF] + rest)) == [line] + SplitLines(rest)
  {
    hide FirstBoundary, SplitLines;
    var s := line + ([LF] + rest);
    assert s[|line|] == LF && forall i :: 0 <= i < |line| ==> s[i] == line[i];
    var n := FirstBoundary(s);
    assert n <= |line| by {
      assert IsBoundary(s[|line|]);
    }
    assert n == |line|;
    assert s[..n] == line && s[n + BoundaryWidth(s)..] == rest;
    SplitHead(s, n, rest);
  }

  /** A text that ends its last line splits separately from what follows. */
  lemma {:induction false} SplitAppend(s: seq<Code>, rest: seq<Code>)
    requires s != [] ==> s[|s| - 1] == LF
    ensures SplitLines(s + rest) == SplitLines(s) + SplitLines(rest)
    decreases |s|
  {
    hide FirstBoundary, SplitLines, BoundaryWidth;
    if s == [] {
      NothingSplits();
      assert s + rest == rest;
    } else {
      EndsInBoundary(s);
      SameBoundary(s, rest);
      var n := FirstBoundary(s);
      var below := s[n + BoundaryWidth(s)..];
      assert (s + rest)[..n] == s[..n] && (s + rest)[n + BoundaryWidth(s)..] == below + rest;
      SplitHead(s, n, below);
      SplitHead(s + rest, n, below + rest);
      SplitAppend(below, rest);
    }
  }

  lemma EndsInBoundary(s: seq<Code>)
    requires s != [] && s[|s| - 1] == LF
    ensures FirstBoundary(s) < |s|
  {
    hide FirstBoundary;
    assert IsBoundary(s[|s| - 1]);
  }

  lemma SameBoundary(s: seq<Code>, rest: seq<Code>)
    requires s != [] && s[|s| - 1] == LF && FirstBoundary(s) < |s|
    ensures FirstBoundary(s + rest) == FirstBoundary(s) && BoundaryWidth(s + rest) == BoundaryWidth(s)
  {
    hide FirstBoundary;
    var n, m := FirstBoundary(s), FirstBoundary(s + rest);
    assert forall k :: 0 <= k < |s| ==> (s + rest)[k] == s[k];
    assert m <= n;
  }
}
