/** Commit documents as `git_inventory.inventory` reads them: the tree line and the parent lines of the header. */
module GitCommit {
  import opened Text
  import opened GitBatch

  const TREE_HEADER: seq<Byte> := [116, 114, 101, 101, 32]
  const PARENT_HEADER: seq<Byte> := [112, 97, 114, 101, 110, 116, 32]
  const CR: Byte := 13

  function FirstLine(document: seq<Byte>): seq<Byte> {
    var end := Index(document, NEWLINE, 0);
    if end.None? then document else document[..end.value]
  }

  /** `document.split(b"\n\n", 1)[0]` */
  function Head(document: seq<Byte>): seq<Byte>
    decreases |document|
  {
    if |document| < 2 then document
    else if document[0] == NEWLINE && document[1] == NEWLINE then []
    else [document[0]] + Head(document[1..])
  }

  /** Where the first line of `s` ends, at a newline, a carriage return, or the end of `s`. */
  function LineEnd(s: seq<Byte>): (end: nat)
    ensures end <= |s| && (end < |s| ==> s[end] == NEWLINE || s[end] == CR)
    ensures forall i :: 0 <= i < end ==> s[i] != NEWLINE && s[i] != CR
  {
    if s == [] || s[0] == NEWLINE || s[0] == CR then 0 else 1 + LineEnd(s[1..])
  }

  /** `bytes.splitlines` */
  function ByteLines(s: seq<Byte>): seq<seq<Byte>>
    decreases |s|
  {
    if s == [] then [] else
      var end := LineEnd(s);
      if end == |s| then [s]
      else
        var pair := s[end] == CR && end + 1 < |s| && s[end + 1] == NEWLINE;
        [s[..end]] + ByteLines(s[if pair then end + 2 else end + 1..])
  }

  /** What follows `parent ` on each line that starts so. */
  function ParentLines(lines: seq<seq<Byte>>): seq<seq<Byte>> {
    if lines == [] then []
    else
      (if PARENT_HEADER <= lines[0] then [lines[0][|PARENT_HEADER|..]] else []) + ParentLines(lines[1..])
  }

  predicate Ascii(text: seq<Byte>) {
    forall i :: 0 <= i < |text| ==> text[i] < 128
  }

  /** `actual_parents`; None is the UnicodeDecodeError of a parent line that is not ASCII. */
  function Parents(document: seq<Byte>): Option<seq<seq<Byte>>> {
    var parents := ParentLines(ByteLines(Head(document)));
    if forall i :: 0 <= i < |parents| ==> Ascii(parents[i]) then Some(parents) else None
  }

  /** The document is the commit, names the tree, and has the expected parent when one is expected. */
  predicate CommitBinds(h: Digest, document: seq<Byte>, commit: seq<Byte>, tree: seq<Byte>,
      parent: Option<seq<Byte>>) {
    && ObjectDigest(h, Commit, document, commit) == commit
    && FirstLine(document) == TREE_HEADER + tree
    && Parents(document).Some?
    && (parent.Some? ==> Parents(document).value == [parent.value])
  }

  // ----- what Git writes is read as it was meant

  function Lined(lines: seq<seq<Byte>>): seq<Byte> {
    if lines == [] then [] else lines[0] + ([NEWLINE] + Lined(lines[1..]))
  }

  /** A commit object: header lines, a blank line, the message. */
  function CommitText(lines: seq<seq<Byte>>, message: seq<Byte>): seq<Byte> {
    Lined(lines) + ([NEWLINE] + message)
  }

  predicate HeaderLine(line: seq<Byte>) {
    line != [] && NEWLINE !in line
  }

  /** The header ends before the message, whatever the message holds. */
  lemma {:induction false} HeadOfCommit(lines: seq<seq<Byte>>, message: seq<Byte>)
    requires lines != [] && forall i :: 0 <= i < |lines| ==> HeaderLine(lines[i])
    ensures Head(CommitText(lines, message)) + [NEWLINE] == Lined(lines)
  {
    hide Head, Lined, CommitText, HeaderLine;
    if |lines| == 1 {
      HeadOfOne(lines, message);
    } else {
      HeadOfCommit(lines[1..], message);
      CommitStep(lines, message);
      HeadOfLine(lines[0], CommitText(lines[1..], message));
      LinedStep(lines);
      Regroup(lines[0], Head(CommitText(lines[1..], message)));
    }
  }

  lemma Regroup(line: seq<Byte>, rest: seq<Byte>)
    ensures line + ([NEWLINE] + rest) + [NEWLINE] == line + ([NEWLINE] + (rest + [NEWLINE]))
  {
  }

  lemma HeadOfOne(lines: seq<seq<Byte>>, message: seq<Byte>)
    requires |lines| == 1 && HeaderLine(lines[0])
    ensures Head(CommitText(lines, message)) + [NEWLINE] == Lined(lines)
  {
    hide Head;
    LinedOne(lines);
    assert CommitText(lines, message) == lines[0] + ([NEWLINE] + ([NEWLINE] + message));
    HeadOfLine(lines[0], [NEWLINE] + message);
  }

  lemma LinedOne(lines: seq<seq<Byte>>)
    requires |lines| == 1
    ensures Lined(lines) == lines[0] + [NEWLINE]
  {
    assert Lined(lines[1..]) == [];
  }

  lemma LinedStep(lines: seq<seq<Byte>>)
    requires lines != []
    ensures Lined(lines) == lines[0] + ([NEWLINE] + Lined(lines[1..]))
  {
  }

  lemma CommitStep(lines: seq<seq<Byte>>, message: seq<Byte>)
    requires |lines| > 1 && HeaderLine(lines[1])
    ensures CommitText(lines, message) == lines[0] + ([NEWLINE] + CommitText(lines[1..], message))
    ensures CommitText(lines[1..], message) != [] && CommitText(lines[1..], message)[0] != NEWLINE
  {
    LinedStep(lines);
    LinedStep(lines[1..]);
    hide Lined;
    assert CommitText(lines[1..], message)[0] == lines[1][0];
  }

  lemma HeadStep(b: Byte, rest: seq<Byte>)
    requires rest != []
    ensures Head([b] + rest) == if b == NEWLINE && rest[0] == NEWLINE then [] else [b] + Head(rest)
  {
    assert ([b] + rest)[1..] == rest;
  }

  lemma HeadOfByte(b: Byte, rest: seq<Byte>)
    requires b != NEWLINE && rest != []
    ensures Head([b] + ([NEWLINE] + rest)) == if rest[0] == NEWLINE then [b] else [b] + ([NEWLINE] + Head(rest))
  {
    hide Head;
    HeadStep(b, [NEWLINE] + rest);
    HeadStep(NEWLINE, rest);
  }

  lemma {:induction false} HeadOfLine(line: seq<Byte>, rest: seq<Byte>)
    requires HeaderLine(line) && rest != []
    ensures Head(line + ([NEWLINE] + rest)) == if rest[0] == NEWLINE then line else line + ([NEWLINE] + Head(rest))
  {
    hide Head;
    if |line| == 1 {
      assert line == [line[0]];
      HeadOfByte(line[0], rest);
    } else {
      var first, more := line[0], line[1..];
      assert line == [first] + more;
      HeadOfLine(more, rest);
      hide HeaderLine;
      Grouped(first, more, [NEWLINE] + rest);
      HeadStep(first, more + ([NEWLINE] + rest));
      Grouped(first, more, [NEWLINE] + Head(rest));
    }
  }

  lemma Grouped(b: Byte, more: seq<Byte>, rest: seq<Byte>)
    ensures [b] + more + rest == [b] + (more + rest)
  {
  }

  lemma {:induction false} LineEndAt(line: seq<Byte>, rest: seq<Byte>)
    requires NEWLINE !in line && rest != [] && rest[0] == NEWLINE
    ensures LineEnd(line + rest) == LineEnd(line)
  {
    if line != [] {
      assert (line + rest)[1..] == line[1..] + rest;
      LineEndAt(line[1..], rest);
    } else {
      assert line + rest == rest;
    }
  }

  lemma Uncut(s: seq<Byte>)
    requires s != [] && LineEnd(s) == |s|
    ensures ByteLines(s) == [s]
  {
  }

  lemma CutOnce(s: seq<Byte>, end: nat, next: nat)
    requires end == LineEnd(s) < |s|
    requires next == if s[end] == CR && end + 1 < |s| && s[end + 1] == NEWLINE then end + 2 else end + 1
    ensures ByteLines(s) == [s[..end]] + ByteLines(s[next..])
  {
  }

  lemma EndsInCr(line: seq<Byte>)
    requires HeaderLine(line) && LineEnd(line) < |line|
    ensures line[LineEnd(line)] == CR
    ensures LineEnd(line) + 1 < |line| ==> line[LineEnd(line) + 1] != NEWLINE && HeaderLine(line[LineEnd(line) + 1..])
  {
    hide LineEnd;
    assert line[LineEnd(line)] in line;
    if LineEnd(line) + 1 < |line| {
      assert line[LineEnd(line) + 1] in line;
    }
  }

  /** A header line is cut on its own, whatever follows it. */
  lemma {:induction false} LineThenRest(line: seq<Byte>, rest: seq<Byte>)
    requires HeaderLine(line)
    ensures ByteLines(line + ([NEWLINE] + rest)) == ByteLines(line) + ByteLines(rest)
    decreases |line|
  {
    hide LineEnd, ByteLines;
    var text, end := line + ([NEWLINE] + rest), LineEnd(line);
    LineEndAt(line, [NEWLINE] + rest);
    assert text[..end] == line[..end];
    if end == |line| {
      Uncut(line);
      CutOnce(text, end, end + 1);
      assert text[end + 1..] == rest && text[..end] == line;
    } else {
      EndsInCr(line);
      CutOnce(line, end, end + 1);
      if end + 1 == |line| {
        CutOnce(text, end, end + 2);
        NothingCut();
        assert text[end + 2..] == rest && line[end + 1..] == [];
      } else {
        CutOnce(text, end, end + 1);
        assert text[end + 1..] == line[end + 1..] + ([NEWLINE] + rest);
        LineThenRest(line[end + 1..], rest);
        assert [line[..end]] + (ByteLines(line[end + 1..]) + ByteLines(rest)) ==
          [line[..end]] + ByteLines(line[end + 1..]) + ByteLines(rest);
      }
    }
  }

  lemma NothingCut()
    ensures ByteLines([]) == []
  {
  }

  /** The header lines, each cut at its carriage returns. */
  function Pieces(lines: seq<seq<Byte>>): seq<seq<Byte>> {
    if lines == [] then [] else ByteLines(lines[0]) + Pieces(lines[1..])
  }

  lemma {:induction false} LinesOfLined(lines: seq<seq<Byte>>, text: seq<Byte>)
    requires lines != [] && forall i :: 0 <= i < |lines| ==> HeaderLine(lines[i])
    requires text + [NEWLINE] == Lined(lines)
    ensures ByteLines(text) == Pieces(lines)
    decreases |lines|
  {
    hide ByteLines;
    var line := lines[0];
    if |lines| == 1 {
      LinedOne(lines);
      assert text == line by { assert (text + [NEWLINE])[..|text|] == line; }
      assert Pieces(lines) == ByteLines(line) + [];
    } else {
      var after := Lined(lines[1..]);
      LinedEnds(lines[1..]);
      var short := after[..|after| - 1];
      assert after == short + [NEWLINE];
      assert text == line + ([NEWLINE] + short) by {
        assert text + [NEWLINE] == line + ([NEWLINE] + short) + [NEWLINE];
        assert (text + [NEWLINE])[..|text|] == (line + ([NEWLINE] + short) + [NEWLINE])[..|text|];
      }
      LineThenRest(line, short);
      LinesOfLined(lines[1..], short);
    }
  }

  lemma LinedEnds(lines: seq<seq<Byte>>)
    requires lines != []
    ensures Lined(lines) != [] && Lined(lines)[|Lined(lines)| - 1] == NEWLINE
  {
    if |lines| > 1 {
      LinedEnds(lines[1..]);
    }
  }

  lemma {:induction false} ParentLinesConcat(a: seq<seq<Byte>>, b: seq<seq<Byte>>)
    ensures ParentLines(a + b) == ParentLines(a) + ParentLines(b)
  {
    if a == [] {
      assert a + b == b;
    } else {
      assert (a + b)[1..] == a[1..] + b;
      ParentLinesConcat(a[1..], b);
    }
  }

  // ----- exactly when the parents are read as written

  /** A carriage return neither shortens a parent line nor makes one of another line. */
  predicate Plain(line: seq<Byte>) {
    if PARENT_HEADER <= line then CR !in line
    else forall i :: 0 <= i < |ByteLines(line)| ==> !(PARENT_HEADER <= ByteLines(line)[i])
  }

  lemma {:induction false} NoParentLines(lines: seq<seq<Byte>>)
    ensures ParentLines(lines) == [] <==> forall i :: 0 <= i < |lines| ==> !(PARENT_HEADER <= lines[i])
  {
    if lines != [] {
      NoParentLines(lines[1..]);
    }
  }

  lemma OneLine(line: seq<Byte>)
    ensures ParentLines([line]) == if PARENT_HEADER <= line then [line[|PARENT_HEADER|..]] else []
  {
    var lines: seq<seq<Byte>> := [line];
    assert lines[1..] == [];
  }

  /** One line gives at least the parents written on it, and exactly those when it is plain. */
  lemma LineParents(line: seq<Byte>)
    requires HeaderLine(line)
    ensures |ParentLines(ByteLines(line))| >= |ParentLines([line])|
    ensures ParentLines(ByteLines(line)) == ParentLines([line]) <==> Plain(line)
  {
    hide LineEnd, ByteLines, ParentLines;
    OneLine(line);
    if !(PARENT_HEADER <= line) {
      NoParentLines(ByteLines(line));
    } else if LineEnd(line) == |line| {
      Uncut(line);
    } else {
      CutParent(line);
    }
  }

  lemma CutParent(line: seq<Byte>)
    requires HeaderLine(line) && PARENT_HEADER <= line && LineEnd(line) < |line|
    ensures CR in line
    ensures ParentLines(ByteLines(line)) != [] && ParentLines(ByteLines(line))[0] != line[|PARENT_HEADER|..]
  {
    hide LineEnd, ByteLines, ParentLines;
    var end := LineEnd(line);
    EndsInCr(line);
    assert line[end] in line;
    assert forall i :: 0 <= i < |PARENT_HEADER| ==> line[i] == PARENT_HEADER[i];
    assert end >= |PARENT_HEADER|;
    CutOnce(line, end, end + 1);
    var first := line[..end];
    assert PARENT_HEADER <= first;
    OneLine(first);
    ParentLinesConcat([first], ByteLines(line[end + 1..]));
    assert ParentLines(ByteLines(line))[0] == first[|PARENT_HEADER|..];
    assert |first[|PARENT_HEADER|..]| < |line[|PARENT_HEADER|..]|;
  }

  lemma {:induction false} PiecesParents(lines: seq<seq<Byte>>)
    requires forall i :: 0 <= i < |lines| ==> HeaderLine(lines[i])
    ensures |ParentLines(Pieces(lines))| >= |ParentLines(lines)|
    ensures ParentLines(Pieces(lines)) == ParentLines(lines) <==> forall i :: 0 <= i < |lines| ==> Plain(lines[i])
  {
    hide ByteLines, Plain, HeaderLine;
    if lines != [] {
      var first, rest := [lines[0]], lines[1..];
      assert lines == first + rest;
      LineParents(lines[0]);
      PiecesParents(rest);
      ParentLinesConcat(ByteLines(lines[0]), Pieces(rest));
      ParentLinesConcat(first, rest);
      SameParts(ParentLines(ByteLines(lines[0])), ParentLines(Pieces(rest)), ParentLines(first), ParentLines(rest));
      assert (forall i :: 0 <= i < |lines| ==> Plain(lines[i])) <==>
        Plain(lines[0]) && forall i :: 0 <= i < |rest| ==> Plain(rest[i]);
    }
  }

  lemma SameParts<T>(a: seq<T>, b: seq<T>, c: seq<T>, d: seq<T>)
    requires |a| >= |c| && |b| >= |d|
    ensures a + b == c + d <==> a == c && b == d
  {
    if a + b == c + d {
      assert |a + b| == |c + d|;
      assert a == (a + b)[..|a|] && c == (c + d)[..|c|];
      assert b == (a + b)[|a|..] && d == (c + d)[|c|..];
    }
  }

  /** Whatever the message holds, a commit's parents are read as they are written on its header lines if and only if
      those lines are plain and the parents are ASCII. */
  lemma ParentsOfCommit(lines: seq<seq<Byte>>, message: seq<Byte>)
    requires lines != [] && forall i :: 0 <= i < |lines| ==> HeaderLine(lines[i])
    ensures Parents(CommitText(lines, message)) == Some(ParentLines(lines)) <==>
      && (forall i :: 0 <= i < |lines| ==> Plain(lines[i]))
      && forall i, k :: 0 <= i < |ParentLines(lines)| && 0 <= k < |ParentLines(lines)[i]| ==>
           ParentLines(lines)[i][k] < 128
  {
    hide Head, ByteLines, Lined, CommitText, ParentLines, HeaderLine, Plain;
    HeadOfCommit(lines, message);
    LinesOfLined(lines, Head(CommitText(lines, message)));
    PiecesParents(lines);
  }

  /** Two commit objects with the same header lines have the same parents, whatever carriage returns those hold. */
  lemma MessageNamesNoParent(lines: seq<seq<Byte>>, a: seq<Byte>, b: seq<Byte>)
    requires lines != [] && forall i :: 0 <= i < |lines| ==> HeaderLine(lines[i])
    ensures Parents(CommitText(lines, a)) == Parents(CommitText(lines, b))
  {
    hide Head, ByteLines, Lined, CommitText, ParentLines, HeaderLine;
    HeadOfCommit(lines, a);
    HeadOfCommit(lines, b);
    var x, y := Head(CommitText(lines, a)), Head(CommitText(lines, b));
    assert x == (x + [NEWLINE])[..|x|] && y == (y + [NEWLINE])[..|y|];
  }

  /** The condition is needed: what follows a carriage return can be read as a parent line. */
  lemma CutLineIsParent(name: seq<Byte>, parent: seq<Byte>, message: seq<Byte>)
    requires HeaderLine(name) && CR !in name && !(PARENT_HEADER <= name + [CR])
    requires NEWLINE !in parent && CR !in parent && Ascii(parent)
    ensures var line := name + [CR] + (PARENT_HEADER + parent);
      && ParentLines([line]) == []
      && Parents(CommitText([line], message)) == Some([parent])
  {
    hide LineEnd, ByteLines, ParentLines, Head, CommitText, Lined;
    var last := PARENT_HEADER + parent;
    var line := name + [CR] + last;
    HeaderStays(name, line);
    OneLine(line);
    OneLine(name);
    OneLine(last);
    assert last[|PARENT_HEADER|..] == parent;
    EndsAt(line, |name|);
    EndsAt(last, |last|);
    CutOnce(line, |name|, |name| + 1);
    Uncut(last);
    assert line[..|name|] == name && line[|name| + 1..] == last;
    ParentLinesConcat([name], [last]);
    HeadOfCommit([line], message);
    LinesOfLined([line], Head(CommitText([line], message)));
    PiecesOne(line);
    assert ByteLines(line) == [name] + [last];
    assert ParentLines(ByteLines(line)) == [] + [parent] == [parent];
  }

  lemma PiecesOne(line: seq<Byte>)
    ensures Pieces([line]) == ByteLines(line)
  {
    hide ByteLines;
    var lines: seq<seq<Byte>> := [line];
    assert lines[1..] == [];
  }

  /** A line is no parent line when no beginning of it is one. */
  lemma HeaderStays(name: seq<Byte>, line: seq<Byte>)
    requires name + [CR] <= line && !(PARENT_HEADER <= name + [CR])
    ensures !(PARENT_HEADER <= line) && !(PARENT_HEADER <= name)
  {
    assert forall i :: 0 <= i < |PARENT_HEADER| ==> PARENT_HEADER[i] != CR;
    assert line[|name|] == (name + [CR])[|name|] == CR;
    assert forall i :: 0 <= i < |name| ==> line[i] == (name + [CR])[i] == name[i];
  }

  lemma {:induction false} EndsAt(s: seq<Byte>, end: nat)
    requires end <= |s| && (end < |s| ==> s[end] == CR || s[end] == NEWLINE)
    requires forall i :: 0 <= i < end ==> s[i] != CR && s[i] != NEWLINE
    ensures LineEnd(s) == end
  {
    if end > 0 {
      EndsAt(s[1..], end - 1);
    }
  }

  // ----- what a bound commit says

  lemma FirstLineIs(document: seq<Byte>, line: seq<Byte>)
    ensures FirstLine(document) == line <==> NEWLINE !in line && (document == line || line + [NEWLINE] <= document)
  {
    if line + [NEWLINE] <= document && NEWLINE !in line {
      assert forall i :: 0 <= i < |line| ==> document[i] == (line + [NEWLINE])[i] == line[i];
      assert document[|line|] == (line + [NEWLINE])[|line|] == NEWLINE;
      IndexAt(document, NEWLINE, 0, |line|);
    }
  }

  /** Exactly one line names a parent, this one. */
  ghost predicate OnlyParent(lines: seq<seq<Byte>>, parent: seq<Byte>) {
    exists i :: 0 <= i < |lines| && lines[i] == PARENT_HEADER + parent
      && forall k :: 0 <= k < |lines| && k != i ==> !(PARENT_HEADER <= lines[k])
  }

  lemma {:induction false} OneParentLine(lines: seq<seq<Byte>>, parent: seq<Byte>)
    ensures ParentLines(lines) == [parent] <==> OnlyParent(lines, parent)
  {
    hide ParentLines;
    if lines != [] {
      var first, rest := lines[0], lines[1..];
      assert lines == [first] + rest;
      ParentLinesConcat([first], rest);
      OneLine(first);
      assert forall k :: 0 < k < |lines| ==> lines[k] == rest[k - 1];
      if PARENT_HEADER <= first {
        NoParentLines(rest);
        var named := first[|PARENT_HEADER|..];
        assert first == PARENT_HEADER + named && (PARENT_HEADER + parent)[|PARENT_HEADER|..] == parent;
        SameParts([named], ParentLines(rest), [parent], []);
        assert [parent] + [] == [parent];
      } else {
        OneParentLine(rest, parent);
        assert [] + ParentLines(rest) == ParentLines(rest);
        if OnlyParent(rest, parent) {
          var i :| 0 <= i < |rest| && rest[i] == PARENT_HEADER + parent
            && forall k :: 0 <= k < |rest| && k != i ==> !(PARENT_HEADER <= rest[k]);
          assert lines[i + 1] == PARENT_HEADER + parent;
        }
      }
    } else {
      NoParentLines(lines);
    }
  }

  /** A commit written with plain ASCII header lines is bound exactly when its bytes have the commit's digest, its first
      line names the tree, and the expected parent, if any, is its one parent. */
  lemma BindsIff(h: Digest, lines: seq<seq<Byte>>, message: seq<Byte>, commit: seq<Byte>, tree: seq<Byte>,
      parent: Option<seq<Byte>>)
    requires lines != [] && forall i :: 0 <= i < |lines| ==> HeaderLine(lines[i]) && Plain(lines[i])
    requires forall i, k :: 0 <= i < |lines| && 0 <= k < |lines[i]| ==> lines[i][k] < 128
    ensures CommitBinds(h, CommitText(lines, message), commit, tree, parent) <==>
      && ObjectDigest(h, Commit, CommitText(lines, message), commit) == commit
      && lines[0] == TREE_HEADER + tree
      && (parent.Some? ==> OnlyParent(lines, parent.value))
  {
    hide Parents, ParentLines, CommitText, ObjectDigest, FirstLine, Plain, OnlyParent;
    ParentsAscii(lines);
    ParentsOfCommit(lines, message);
    FirstOfCommit(lines, message);
    FirstLineIs(CommitText(lines, message), lines[0]);
    if parent.Some? {
      OneParentLine(lines, parent.value);
    }
  }

  lemma FirstOfCommit(lines: seq<seq<Byte>>, message: seq<Byte>)
    requires lines != []
    ensures lines[0] + [NEWLINE] <= CommitText(lines, message)
  {
    assert Lined(lines) == lines[0] + [NEWLINE] + Lined(lines[1..]);
  }

  lemma {:induction false} ParentsAscii(lines: seq<seq<Byte>>)
    requires forall i, k :: 0 <= i < |lines| && 0 <= k < |lines[i]| ==> lines[i][k] < 128
    ensures forall i, k :: 0 <= i < |ParentLines(lines)| && 0 <= k < |ParentLines(lines)[i]| ==>
      ParentLines(lines)[i][k] < 128
  {
    if lines != [] {
      ParentsAscii(lines[1..]);
    }
  }
}
