/** `trace_labels.py`: bijective base-26 branch suffixes and one-pass branch labels. */
module TraceLabels {
  import opened Text
  import Order

  // ----- suffixes

  const LETTER_A: Code := 97

  /** The suffix of branch `index`: a, b, ..., z, aa, ab, ... */
  function Suffix(index: nat): (word: seq<Code>)
    ensures IsWord(word)
  {
    (if index < 26 then [] else Suffix(index / 26 - 1)) + [LETTER_A + index % 26]
  }

  predicate IsWord(word: seq<Code>) {
    word != [] && forall i :: 0 <= i < |word| ==> LETTER_A <= word[i] < LETTER_A + 26
  }

  function SuffixFrom(index: int): seq<Code> {
    if index < 0 then [] else Suffix(index)
  }

  lemma SuffixStep(index: nat)
    ensures Suffix(index) == SuffixFrom(index / 26 - 1) + [LETTER_A + index % 26]
  {
  }

  /** `branch_suffix`. */
  method BranchSuffix(index: int) returns (result: seq<Code>)
    ensures result == SuffixFrom(index)
  {
    hide Suffix, SuffixFrom;
    NoDigits();
    result := [];
    assert SuffixFrom(index) + [] == SuffixFrom(index);
    var rest := index;
    while rest >= 0
      invariant SuffixFrom(index) == SuffixFrom(rest) + result
    {
      DigitStep(rest, result);
      result := [LETTER_A + rest % 26] + result;
      rest := rest / 26 - 1;
    }
  }

  lemma NoDigits()
    ensures forall index: int :: index < 0 ==> SuffixFrom(index) == []
  {
  }

  lemma DigitStep(rest: nat, result: seq<Code>)
    ensures SuffixFrom(rest) + result == SuffixFrom(rest / 26 - 1) + ([LETTER_A + rest % 26] + result)
  {
    SuffixStep(rest);
    hide Suffix;
    assert SuffixFrom(rest) == Suffix(rest);
    hide SuffixFrom;
    var before, digit := SuffixFrom(rest / 26 - 1), [LETTER_A + rest % 26];
    assert (before + digit) + result == before + (digit + result);
  }

  /** The branch a word names. */
  function IndexOf(word: seq<Code>): nat
    requires IsWord(word)
  {
    var last := word[|word| - 1] - LETTER_A;
    if |word| == 1 then last else (IndexOf(word[..|word| - 1]) + 1) * 26 + last
  }

  /** Suffixes and branch numbers are in one-to-one correspondence. */
  lemma {:induction false} IndexOfSuffix(index: nat)
    ensures IndexOf(Suffix(index)) == index
  {
    if index >= 26 {
      IndexOfSuffix(index / 26 - 1);
      var init := Suffix(index / 26 - 1);
      assert Suffix(index)[..|Suffix(index)| - 1] == init;
    }
  }

  lemma SuffixAppend(n: nat, last: nat)
    requires last < 26
    ensures Suffix((n + 1) * 26 + last) == Suffix(n) + [LETTER_A + last]
  {
    hide Suffix;
    var index := (n + 1) * 26 + last;
    assert index / 26 == n + 1 && index % 26 == last;
    SuffixStep(index);
  }

  lemma SuffixLetter(last: nat)
    requires last < 26
    ensures Suffix(last) == [LETTER_A + last]
  {
  }

  lemma IndexOfLast(init: seq<Code>, last: nat)
    requires last < 26 && (init == [] || IsWord(init))
    ensures IsWord(init + [LETTER_A + last])
    ensures IndexOf(init + [LETTER_A + last]) == if init == [] then last else (IndexOf(init) + 1) * 26 + last
  {
    var word := init + [LETTER_A + last];
    assert word[..|word| - 1] == init;
  }

  lemma {:induction false} SuffixOfIndex(word: seq<Code>)
    requires IsWord(word)
    ensures Suffix(IndexOf(word)) == word
  {
    hide Suffix, IndexOf;
    var init, last := word[..|word| - 1], word[|word| - 1] - LETTER_A;
    assert word == init + [LETTER_A + last];
    IndexOfLast(init, last);
    if |word| > 1 {
      SuffixOfIndex(init);
      SuffixAppend(IndexOf(init), last);
    } else {
      SuffixLetter(last);
    }
  }

  predicate ShortLex(a: seq<Code>, b: seq<Code>) {
    |a| < |b| || (|a| == |b| && Order.Less(a, b))
  }

  lemma {:induction false} LessExtend(a: seq<Code>, b: seq<Code>, x: Code, y: Code)
    requires |a| == |b| && (Order.Less(a, b) || (a == b && x < y))
    ensures Order.Less(a + [x], b + [y])
  {
    if a != [] {
      assert (a + [x])[1..] == a[1..] + [x] && (b + [y])[1..] == b[1..] + [y];
      if a[0] == b[0] {
        LessExtend(a[1..], b[1..], x, y);
      }
    }
  }

  /** Later branches get longer, or equally long and alphabetically later, suffixes. */
  lemma {:induction false} SuffixOrdered(i: nat, j: nat)
    requires i < j
    ensures ShortLex(Suffix(i), Suffix(j))
    decreases j
  {
    hide Order.Less, Suffix, IsWord;
    SuffixStep(i);
    SuffixStep(j);
    LowerQuotient(i, j);
    var p, q := i / 26 - 1, j / 26 - 1;
    var a, b := SuffixFrom(p), SuffixFrom(q);
    if p < q {
      WordsNonEmpty(q);
      if p >= 0 {
        SuffixOrdered(p, q);
      }
    }
    if |a| == |b| {
      LessExtend(a, b, LETTER_A + i % 26, LETTER_A + j % 26);
    }
  }

  lemma LowerQuotient(i: nat, j: nat)
    requires i < j
    ensures i / 26 < j / 26 || (i / 26 == j / 26 && i % 26 < j % 26)
    ensures j / 26 - 1 < j
  {
  }

  lemma WordsNonEmpty(index: nat)
    ensures Suffix(index) != []
  {
  }

  // ----- labels

  type Id = seq<Code>

  /** The `parents` dictionary in registration order. */
  datatype Entry = Entry(id: Id, parent: Option<Id>)

  predicate Registered(forest: seq<Entry>, id: Id) {
    exists i :: 0 <= i < |forest| && forest[i].id == id
  }

  /** Identities are distinct keys and every parent is registered before its child. */
  predicate ParentsFirst(forest: seq<Entry>) {
    && (forall i, j :: 0 <= i < j < |forest| ==> forest[i].id != forest[j].id)
    && (forall i :: 0 <= i < |forest| && forest[i].parent.Some? ==> Registered(forest[..i], forest[i].parent.value))
  }

  predicate HasChild(forest: seq<Entry>, id: Id) {
    exists i :: 0 <= i < |forest| && forest[i].parent == Some(id)
  }

  /** The entry starts a branch: a root, or a later child of its parent. */
  predicate StartsBranch(before: seq<Entry>, e: Entry) {
    e.parent.None? || HasChild(before, e.parent.value)
  }

  /** How many branches the forest has. */
  function Branches(forest: seq<Entry>): nat {
    if forest == [] then 0
    else
      Branches(forest[..|forest| - 1])
      + (if StartsBranch(forest[..|forest| - 1], forest[|forest| - 1]) then 1 else 0)
  }

  datatype Label = Label(display: seq<Code>, depth: nat, branch: seq<Code>, index: nat,
      parentDisplay: Option<seq<Code>>)

  function Display(prefix: seq<Code>, depth: nat, index: nat): seq<Code> {
    prefix + Decimal(depth) + (if depth != 0 || index != 0 then Suffix(index) else [])
  }

  lemma InitParentsFirst(forest: seq<Entry>, count: nat)
    requires ParentsFirst(forest) && count <= |forest|
    ensures ParentsFirst(forest[..count])
  {
    forall i | 0 <= i < count && forest[i].parent.Some?
      ensures Registered(forest[..count][..i], forest[i].parent.value) {
      assert forest[..count][..i] == forest[..i];
    }
  }

  /** The labels, entry by entry. */
  function Labels(prefix: seq<Code>, forest: seq<Entry>): (labels: map<Id, Label>)
    requires ParentsFirst(forest)
    ensures forall id :: id in labels <==> Registered(forest, id)
    decreases |forest|
  {
    if forest == [] then map[] else
      var before, e := forest[..|forest| - 1], forest[|forest| - 1];
      InitParentsFirst(forest, |forest| - 1);
      var labels := Labels(prefix, before);
      assert e.parent.Some? ==> Registered(before, e.parent.value);
      LabelsKeys(forest);
      var index := if StartsBranch(before, e) then Branches(before) else labels[e.parent.value].index;
      var depth := if e.parent.None? then 0 else labels[e.parent.value].depth + 1;
      labels[e.id := Label(Display(prefix, depth, index), depth, Suffix(index), index,
        if e.parent.None? then None else Some(labels[e.parent.value].display))]
  }

  lemma LabelsKeys(forest: seq<Entry>)
    requires forest != []
    ensures forall id ::
      Registered(forest, id) <==> Registered(forest[..|forest| - 1], id) || id == forest[|forest| - 1].id
  {
    var before := forest[..|forest| - 1];
    forall id ensures Registered(forest, id) <==> Registered(before, id) || id == forest[|forest| - 1].id {
      if Registered(before, id) {
        var i :| 0 <= i < |before| && before[i].id == id;
        assert forest[i].id == id;
      }
      if Registered(forest, id) && id != forest[|forest| - 1].id {
        var i :| 0 <= i < |forest| && forest[i].id == id;
        assert before[i].id == id;
      }
    }
  }

  /** `branch_labels`. */
  method BranchLabels(prefix: seq<Code>, forest: seq<Entry>) returns (labels: map<Id, Label>)
    requires ParentsFirst(forest)
    ensures labels == Labels(prefix, forest)
  {
    hide Branches, Display, Suffix, Registered, Labels, Decimal, HasChild;
    labels := map[];
    var childCounts: map<Id, nat> := map[];
    var nextBranch := 0;
    LabelsStart(prefix, forest);
    for i := 0 to |forest|
      invariant ParentsFirst(forest[..i]) && labels == Labels(prefix, forest[..i])
      invariant nextBranch == Branches(forest[..i])
      invariant forall id :: (id in childCounts && childCounts[id] > 0) <==> HasChild(forest[..i], id)
    {
      var e := forest[i];
      LabelsStep(prefix, forest, i);
      CountsStep(forest, i);
      var branch;
      if e.parent.None? || (e.parent.value in childCounts && childCounts[e.parent.value] > 0) {
        branch := nextBranch;
        nextBranch := nextBranch + 1;
      } else {
        branch := labels[e.parent.value].index;
      }
      var depth := if e.parent.Some? then labels[e.parent.value].depth + 1 else 0;
      var suffix := BranchSuffix(branch);
      var parentDisplay := if e.parent.Some? then Some(labels[e.parent.value].display) else None;
      DisplayIs(prefix, depth, branch);
      labels := labels[e.id := Label(
        prefix + Decimal(depth) + (if depth != 0 || branch != 0 then suffix else []), depth, suffix, branch,
          parentDisplay)];
      if e.parent.Some? {
        var count := if e.parent.value in childCounts then childCounts[e.parent.value] else 0;
        childCounts := childCounts[e.parent.value := count + 1];
      }
    }
    assert forest[..|forest|] == forest;
  }

  lemma LabelsStart(prefix: seq<Code>, forest: seq<Entry>)
    ensures ParentsFirst(forest[..0]) && Labels(prefix, forest[..0]) == map[] && Branches(forest[..0]) == 0
    ensures forall id :: !HasChild(forest[..0], id)
  {
  }

  lemma DisplayIs(prefix: seq<Code>, depth: nat, index: nat)
    ensures Display(prefix, depth, index) ==
      prefix + Decimal(depth) + (if depth != 0 || index != 0 then Suffix(index) else [])
  {
  }

  lemma LabelsStep(prefix: seq<Code>, forest: seq<Entry>, i: nat)
    requires ParentsFirst(forest) && i < |forest|
    ensures ParentsFirst(forest[..i]) && ParentsFirst(forest[..i + 1])
    ensures var labels, e := Labels(prefix, forest[..i]), forest[i];
      && (e.parent.Some? ==> e.parent.value in labels)
      && var index := if StartsBranch(forest[..i], e) then Branches(forest[..i]) else labels[e.parent.value].index;
      && var depth := if e.parent.None? then 0 else labels[e.parent.value].depth + 1;
      && Labels(prefix, forest[..i + 1]) ==
           labels[e.id := Label(Display(prefix, depth, index), depth, Suffix(index), index,
          if e.parent.None? then None else Some(labels[e.parent.value].display))]
      && Branches(forest[..i + 1]) == Branches(forest[..i]) + (if StartsBranch(forest[..i], e) then 1 else 0)
  {
    hide Display, Suffix, Registered, HasChild;
    InitParentsFirst(forest, i);
    InitParentsFirst(forest, i + 1);
    assert forest[..i + 1][..i] == forest[..i];
  }

  lemma CountsStep(forest: seq<Entry>, i: nat)
    requires i < |forest|
    ensures forall id :: HasChild(forest[..i + 1], id) <==> HasChild(forest[..i], id) || forest[i].parent == Some(id)
  {
    forall id ensures HasChild(forest[..i + 1], id) <==> HasChild(forest[..i], id) || forest[i].parent == Some(id) {
      if HasChild(forest[..i], id) {
        var j :| 0 <= j < i && forest[..i][j].parent == Some(id);
        assert forest[..i + 1][j].parent == Some(id);
      }
      if forest[i].parent == Some(id) {
        assert forest[..i + 1][i].parent == Some(id);
      }
      if HasChild(forest[..i + 1], id) && forest[i].parent != Some(id) {
        var j :| 0 <= j < i + 1 && forest[..i + 1][j].parent == Some(id);
        assert forest[..i][j].parent == Some(id);
      }
    }
  }
}
