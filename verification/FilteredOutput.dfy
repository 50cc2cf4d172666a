/** What the bounded transport keeps of stdout, said without the steps that keep it. */
module FilteredOutput {
  import opened Text
  import opened Newlines
  import opened BoundedProcess

  /** What the filter leaves of one line. */
  function Left(filter: Filter, line: seq<Byte>): seq<Byte> {
    match filter(line)
    case Kept(bytes) => bytes
    case _ => []
  }

  /** What it leaves of all lines, first to last. */
  function LeftOf(filter: Filter, lines: seq<seq<Byte>>): seq<Byte> {
    if lines == [] then [] else Left(filter, lines[0]) + LeftOf(filter, lines[1..])
  }

  function Joined(lines: seq<seq<Byte>>): seq<Byte> {
    if lines == [] then [] else lines[0] + Joined(lines[1..])
  }

  predicate Passes(filter: Filter, cap: nat, line: seq<Byte>) {
    |line| <= cap && !filter(line).Refused?
  }

  predicate AllPass(filter: Filter, cap: nat, lines: seq<seq<Byte>>) {
    forall i :: 0 <= i < |lines| ==> Passes(filter, cap, lines[i])
  }

  lemma AllPassStep(filter: Filter, cap: nat, lines: seq<seq<Byte>>)
    requires lines != []
    ensures AllPass(filter, cap, lines) <==> Passes(filter, cap, lines[0]) && AllPass(filter, cap, lines[1..])
  {
    hide Passes;
    var rest := lines[1..];
    assert forall i :: 0 < i < |lines| ==> lines[i] == rest[i - 1];
    assert forall i :: 0 <= i < |rest| ==> rest[i] == lines[i + 1];
  }

  lemma RetainIs(filter: Filter, cap: nat, kept: seq<Byte>, line: seq<Byte>)
    requires |kept| <= cap
    ensures Retain(filter, cap, kept, line) ==
      if !Passes(filter, cap, line) then if |line| <= cap then BadFilter else TooLong
      else if |kept| + |Left(filter, line)| <= cap then Fits(kept + Left(filter, line), []) else TooLong
  {
    assert kept + [] == kept;
  }

  /** The filtered lines fit exactly when each line is within the cap and not refused and what is left of them is within
      the cap together; and then that is what is kept, in order. */
  lemma {:induction false} FitsIff(filter: Filter, cap: nat, kept: seq<Byte>, lines: seq<seq<Byte>>)
    requires |kept| <= cap
    ensures FilterLines(filter, cap, kept, lines).Fits? <==>
      AllPass(filter, cap, lines) && |kept| + |LeftOf(filter, lines)| <= cap
    ensures FilterLines(filter, cap, kept, lines).Fits? ==>
      FilterLines(filter, cap, kept, lines) == Fits(kept + LeftOf(filter, lines), [])
    decreases |lines|
  {
    hide Retain, Passes, Left, AllPass;
    if lines == [] {
      assert AllPass(filter, cap, []) by { NothingFails(filter, cap); }
      assert kept + LeftOf(filter, lines) == kept;
    } else {
      var here, rest := Left(filter, lines[0]), lines[1..];
      RetainIs(filter, cap, kept, lines[0]);
      AllPassStep(filter, cap, lines);
      if Passes(filter, cap, lines[0]) && |kept| + |here| <= cap {
        FitsIff(filter, cap, kept + here, rest);
        assert kept + here + LeftOf(filter, rest) == kept + LeftOf(filter, lines);
      }
    }
  }

  lemma NothingFails(filter: Filter, cap: nat)
    ensures AllPass(filter, cap, [])
  {
  }

  /** Otherwise the first line that does not pass, or does not fit behind those before it, decides the failure. */
  ghost predicate FailsAt(filter: Filter, cap: nat, kept: seq<Byte>, lines: seq<seq<Byte>>, v: Verdict, i: nat) {
    && i < |lines|
    && (forall k :: 0 <= k < i ==> Passes(filter, cap, lines[k]))
    && |kept| + |LeftOf(filter, lines[..i])| <= cap
    && v == (if |lines[i]| <= cap && filter(lines[i]).Refused? then BadFilter else TooLong)
    && (Passes(filter, cap, lines[i]) ==> |kept| + |LeftOf(filter, lines[..i + 1])| > cap)
  }

  lemma {:induction false} FirstFailure(filter: Filter, cap: nat, kept: seq<Byte>, lines: seq<seq<Byte>>)
    returns (i: nat)
    requires |kept| <= cap && !FilterLines(filter, cap, kept, lines).Fits?
    ensures FailsAt(filter, cap, kept, lines, FilterLines(filter, cap, kept, lines), i)
    decreases |lines|
  {
    var first := Retain(filter, cap, kept, lines[0]);
    if first.Fits? {
      assert first.kept == kept + Left(filter, lines[0]);
      i := FirstFailure(filter, cap, first.kept, lines[1..]);
      hide FilterLines, Retain;
      Shift(filter, lines, i);
      assert forall k :: 0 < k < |lines| ==> lines[k] == lines[1..][k - 1];
      i := i + 1;
    } else {
      i := 0;
      OneLeft(filter, lines);
    }
  }

  lemma Shift(filter: Filter, lines: seq<seq<Byte>>, i: nat)
    requires i < |lines| - 1
    ensures LeftOf(filter, lines[..i + 1]) == Left(filter, lines[0]) + LeftOf(filter, lines[1..][..i])
    ensures LeftOf(filter, lines[..i + 2]) == Left(filter, lines[0]) + LeftOf(filter, lines[1..][..i + 1])
  {
    assert lines[..i + 1][1..] == lines[1..][..i];
    assert lines[..i + 2][1..] == lines[1..][..i + 1];
  }

  lemma OneLeft(filter: Filter, lines: seq<seq<Byte>>)
    requires lines != []
    ensures LeftOf(filter, lines[..0]) == [] && LeftOf(filter, lines[..1]) == Left(filter, lines[0])
  {
    assert lines[..1][1..] == [];
  }

  // ----- the lines of a stream

  /** Newlines end lines and stand nowhere else. */
  predicate IsLine(line: seq<Byte>, last: bool) {
    line != [] && NEWLINE !in line[..|line| - 1] && (last || line[|line| - 1] == NEWLINE)
  }

  lemma {:induction false} LinesAreTheStream(stream: seq<Byte>)
    ensures Joined(LinesOf(stream)) == stream
    ensures forall i :: 0 <= i < |LinesOf(stream)| ==> IsLine(LinesOf(stream)[i], i == |LinesOf(stream)| - 1)
    decreases |stream|
  {
    if stream != [] {
      var at := Index(stream, NEWLINE, 0);
      if at.None? {
        OneJoined(stream);
      } else {
        var first, rest := stream[..at.value + 1], stream[at.value + 1..];
        LinesAreTheStream(rest);
        var lines := LinesOf(stream);
        assert lines == [first] + LinesOf(rest);
        assert lines[1..] == LinesOf(rest);
        assert IsLine(first, false);
      }
    }
  }

  lemma OneJoined(line: seq<Byte>)
    ensures Joined([line]) == line
  {
    assert Joined([line][1..]) == [];
  }

  // ----- a filter that changes nothing

  lemma {:induction false} UnchangedIsJoined(filter: Filter, lines: seq<seq<Byte>>)
    requires forall line :: filter(line) == Kept(line)
    ensures LeftOf(filter, lines) == Joined(lines)
  {
    if lines != [] {
      UnchangedIsJoined(filter, lines[1..]);
    }
  }

  lemma {:induction false} LinesAreShorter(lines: seq<seq<Byte>>, i: nat)
    requires i < |lines|
    ensures |lines[i]| <= |Joined(lines)|
  {
    if i > 0 {
      LinesAreShorter(lines[1..], i - 1);
    }
  }

  /** With such a filter stdout fits exactly when it fits as a whole, and is kept as it is. */
  lemma UnchangedKeepsStdout(filter: Filter, cap: nat, stdout: seq<Byte>)
    requires forall line :: filter(line) == Kept(line)
    ensures StdoutVerdict(Some(filter), cap, stdout) == if |stdout| <= cap then Fits(stdout, []) else TooLong
  {
    hide FilterLines, LinesOf, Joined, LeftOf;
    var lines := LinesOf(stdout);
    LinesAreTheStream(stdout);
    UnchangedIsJoined(filter, lines);
    FitsIff(filter, cap, [], lines);
    if |stdout| <= cap {
      forall i | 0 <= i < |lines| ensures Passes(filter, cap, lines[i]) {
        LinesAreShorter(lines, i);
      }
      assert [] + stdout == stdout;
    } else {
      var i := FirstFailure(filter, cap, [], lines);
    }
  }

  // ----- the whole result

  /** What of stdout is decoded. */
  function Wanted(filter: Option<Filter>, stdout: seq<Byte>): seq<Byte> {
    if filter.None? then stdout else LeftOf(filter.value, LinesOf(stdout))
  }

  predicate WithinCaps(filter: Option<Filter>, cap: nat, stdout: seq<Byte>, stderr: seq<Byte>) {
    && |stderr| <= cap && |Wanted(filter, stdout)| <= cap
    && (filter.Some? ==> AllPass(filter.value, cap, LinesOf(stdout)))
  }

  /** The specified result, in terms of what the filter leaves of each line: it exists exactly within the caps, and is
      both texts with their line ends translated, stdout first, unless one of them does not decode. */
  lemma ExpectedIs(filter: Option<Filter>, cap: nat, decode: Decoder, stdout: seq<Byte>, stderr: seq<Byte>)
    ensures Expected(filter, cap, decode, stdout, stderr) ==
      var out, err := decode(Wanted(filter, stdout)), decode(stderr);
      if !WithinCaps(filter, cap, stdout, stderr) then None
      else if out.None? || err.None? then Some(Undecodable)
      else Some(Texts(Translate(out.value), Translate(err.value)))
  {
    hide FilterLines, LinesOf, LeftOf, Translate;
    if filter.Some? {
      FitsIff(filter.value, cap, [], LinesOf(stdout));
      assert [] + Wanted(filter, stdout) == Wanted(filter, stdout);
    }
  }

  /** A stdout that does not fit is too long or refused, as its first offending line says. */
  lemma FailureIs(filter: Filter, cap: nat, stdout: seq<Byte>, outcome: Outcome) returns (i: nat)
    requires StdoutFails(Some(filter), cap, stdout, outcome)
    ensures var v := if outcome == FilterFailed then BadFilter else TooLong;
      FailsAt(filter, cap, [], LinesOf(stdout), v, i)
  {
    hide FilterLines, LinesOf, FailsAt;
    i := FirstFailure(filter, cap, [], LinesOf(stdout));
  }
}
