/** What `branch_labels` says about the forest: chains, leaves, stable and distinct labels. */
module TraceForest {
  import opened Text
  import opened TraceLabels

  /** The label of the `i`th registered candidate. */
  function At(prefix: seq<Code>, forest: seq<Entry>, i: nat): Label
    requires ParentsFirst(forest) && i < |forest|
  {
    assert Registered(forest, forest[i].id);
    Labels(prefix, forest)[forest[i].id]
  }

  /** Registering more candidates never changes an existing label. */
  lemma {:induction false} LabelsStable(prefix: seq<Code>, forest: seq<Entry>, count: nat, i: nat)
    requires ParentsFirst(forest) && i < count <= |forest|
    ensures ParentsFirst(forest[..count]) && At(prefix, forest, i) == At(prefix, forest[..count], i)
    decreases |forest|
  {
    hide Display, Suffix, Branches, HasChild;
    InitParentsFirst(forest, count);
    if count < |forest| {
      var before := forest[..|forest| - 1];
      InitParentsFirst(forest, |forest| - 1);
      LabelsStable(prefix, before, count, i);
      assert before[..count] == forest[..count];
      LabelsStep(prefix, forest, |forest| - 1);
      assert forest[..|forest| - 1 + 1] == forest;
      assert Registered(before, before[i].id);
    } else {
      assert forest[..count] == forest;
    }
  }

  /** Position at which an identity was registered. */
  function Position(forest: seq<Entry>, id: Id): (i: nat)
    requires Registered(forest, id)
    ensures i < |forest| && forest[i].id == id
  {
    if forest[|forest| - 1].id == id then |forest| - 1
    else
      assert Registered(forest[..|forest| - 1], id) by { LabelsKeys(forest); }
      Position(forest[..|forest| - 1], id)
  }

  lemma ParentPosition(forest: seq<Entry>, i: nat) returns (q: nat)
    requires ParentsFirst(forest) && i < |forest| && forest[i].parent.Some?
    ensures q < i && forest[q].id == forest[i].parent.value
  {
    q := Position(forest[..i], forest[i].parent.value);
    assert forest[q] == forest[..i][q];
  }

  /** Depth, branch and text of one label in terms of the labels registered before it. */
  lemma LabelFacts(prefix: seq<Code>, forest: seq<Entry>, i: nat) returns (q: nat)
    requires ParentsFirst(forest) && i < |forest|
    ensures var own := At(prefix, forest, i);
      && own.display == Display(prefix, own.depth, own.index) && own.branch == Suffix(own.index)
      && (forest[i].parent.None? ==> own.depth == 0)
      && (StartsBranch(forest[..i], forest[i]) ==> own.index == Branches(forest[..i]))
      && (forest[i].parent.Some? ==>
          && q < i && forest[q].id == forest[i].parent.value
          && own.depth == At(prefix, forest, q).depth + 1
          && own.parentDisplay == Some(At(prefix, forest, q).display)
          && (!StartsBranch(forest[..i], forest[i]) ==> own.index == At(prefix, forest, q).index))
  {
    hide Display, Suffix, Branches, HasChild, Labels;
    q := 0;
    LabelsStable(prefix, forest, i + 1, i);
    LabelsStep(prefix, forest, i);
    if forest[i].parent.Some? {
      q := ParentPosition(forest, i);
      LabelsStable(prefix, forest, i, q);
      assert forest[..i][q] == forest[q];
    }
  }

  lemma {:induction false} BranchesMonotone(forest: seq<Entry>, i: nat, j: nat)
    requires i <= j <= |forest|
    ensures Branches(forest[..i]) <= Branches(forest[..j])
    decreases j
  {
    hide HasChild;
    if i < j {
      BranchesMonotone(forest, i, j - 1);
      assert forest[..j][..j - 1] == forest[..j - 1];
    }
  }

  lemma {:induction false} IndexBelowBranches(prefix: seq<Code>, forest: seq<Entry>, i: nat)
    requires ParentsFirst(forest) && i < |forest|
    ensures At(prefix, forest, i).index < Branches(forest[..i + 1])
    decreases i
  {
    hide HasChild, Labels, At, Branches, StartsBranch;
    var q := LabelFacts(prefix, forest, i);
    OneMoreBranch(forest, i);
    if !StartsBranch(forest[..i], forest[i]) {
      IndexBelowBranches(prefix, forest, q);
      BranchesMonotone(forest, q + 1, i + 1);
    }
  }

  lemma OneMoreBranch(forest: seq<Entry>, i: nat)
    requires i < |forest|
    ensures Branches(forest[..i + 1]) == Branches(forest[..i]) + (if StartsBranch(forest[..i], forest[i]) then 1 else 0)
    ensures forest[i].parent.None? ==> StartsBranch(forest[..i], forest[i])
  {
    hide HasChild;
    assert forest[..i + 1][..i] == forest[..i];
  }

  /** An entry that shares its branch with an earlier one does not start the branch. */
  lemma LaterMemberContinues(prefix: seq<Code>, forest: seq<Entry>, i: nat, j: nat)
    requires ParentsFirst(forest) && i < j < |forest| && At(prefix, forest, i).index == At(prefix, forest, j).index
    ensures !StartsBranch(forest[..j], forest[j])
  {
    hide HasChild, Labels, At, Branches;
    IndexBelowBranches(prefix, forest, i);
    BranchesMonotone(forest, i + 1, j);
    var q := LabelFacts(prefix, forest, j);
  }

  lemma HasChildGrows(forest: seq<Entry>, id: Id, i: nat, j: nat)
    requires i <= j <= |forest| && HasChild(forest[..i], id)
    ensures HasChild(forest[..j], id)
  {
    var k :| 0 <= k < i && forest[..i][k].parent == Some(id);
    assert forest[..j][k].parent == Some(id);
  }

  /** Once a branch goes on past `i`, candidate `i` has a child. */
  lemma {:induction false} OlderMemberHasChild(prefix: seq<Code>, forest: seq<Entry>, i: nat, j: nat)
    requires ParentsFirst(forest) && i < j < |forest| && At(prefix, forest, i).index == At(prefix, forest, j).index
    ensures HasChild(forest[..j + 1], forest[i].id)
    decreases j, 0
  {
    hide Labels, At, Branches;
    LaterMemberContinues(prefix, forest, i, j);
    var q := LabelFacts(prefix, forest, j);
    if q == i {
      assert forest[..j + 1][j].parent == Some(forest[i].id);
    } else if q > i {
      OlderMemberHasChild(prefix, forest, i, q);
      HasChildGrows(forest, forest[i].id, q + 1, j + 1);
    } else {
      OlderHasChildLater(prefix, forest, q, i, j);
    }
  }

  lemma {:induction false} OlderHasChildLater(prefix: seq<Code>, forest: seq<Entry>, q: nat, i: nat, j: nat)
    requires ParentsFirst(forest) && q < i < j < |forest| && At(prefix, forest, q).index == At(prefix, forest, i).index
    ensures HasChild(forest[..j], forest[q].id)
    decreases i, 1
  {
    hide Labels, At, Branches, HasChild;
    OlderMemberHasChild(prefix, forest, q, i);
    HasChildGrows(forest, forest[q].id, i + 1, j);
  }

  /** Consecutive members of a branch are a parent and its first registered child. */
  lemma BranchIsChain(prefix: seq<Code>, forest: seq<Entry>, i: nat, j: nat)
    requires ParentsFirst(forest) && i < j < |forest| && At(prefix, forest, i).index == At(prefix, forest, j).index
    requires forall k :: i < k < j ==> At(prefix, forest, k).index != At(prefix, forest, j).index
    ensures forest[j].parent == Some(forest[i].id) && !HasChild(forest[..j], forest[i].id)
    ensures At(prefix, forest, j).depth == At(prefix, forest, i).depth + 1
  {
    hide Labels, At, Branches, HasChild;
    LaterMemberContinues(prefix, forest, i, j);
    var q := LabelFacts(prefix, forest, j);
    if q < i {
      OlderMemberHasChild(prefix, forest, q, i);
      HasChildGrows(forest, forest[q].id, i + 1, j);
    }
  }

  lemma {:induction false} LaterMemberDeeper(prefix: seq<Code>, forest: seq<Entry>, i: nat, j: nat)
    requires ParentsFirst(forest) && i < j < |forest| && At(prefix, forest, i).index == At(prefix, forest, j).index
    ensures At(prefix, forest, i).depth < At(prefix, forest, j).depth
    decreases j
  {
    hide Labels, At, Branches, HasChild;
    LaterMemberContinues(prefix, forest, i, j);
    var q := LabelFacts(prefix, forest, j);
    if q < i {
      OlderMemberHasChild(prefix, forest, q, i);
      HasChildGrows(forest, forest[q].id, i + 1, j);
    } else if i < q {
      LaterMemberDeeper(prefix, forest, i, q);
    }
  }

  // ----- distinct display labels

  lemma {:induction false} DigitsThenLetters(a: seq<Code>, x: seq<Code>, b: seq<Code>, y: seq<Code>)
    requires a + x == b + y
    requires (forall i :: 0 <= i < |a| ==> IsDigit(a[i])) && (forall i :: 0 <= i < |b| ==> IsDigit(b[i]))
    requires (x != [] ==> IsWord(x)) && (y != [] ==> IsWord(y))
    ensures a == b && x == y
  {
    var t := a + x;
    forall i | |a| <= i < |t| ensures !IsDigit(t[i]) {
      assert t[i] == x[i - |a|];
    }
    forall i | |b| <= i < |t| ensures !IsDigit(t[i]) {
      assert t[i] == y[i - |b|];
    }
    assert forall i :: 0 <= i < |a| ==> t[i] == a[i];
    assert forall i :: 0 <= i < |b| ==> t[i] == b[i];
    assert |a| < |t| ==> !IsDigit(t[|a|]);
    assert |b| < |t| ==> !IsDigit(t[|b|]);
    assert |a| == |b|;
    assert a == t[..|a|] && b == t[..|b|] && x == t[|a|..] && y == t[|b|..];
  }

  lemma DisplayInjective(prefix: seq<Code>, depth: nat, index: nat, depth': nat, index': nat)
    requires Display(prefix, depth, index) == Display(prefix, depth', index')
    ensures depth == depth' && index == index'
  {
    hide Suffix, IndexOf, Decimal;
    var s: seq<Code> := if depth != 0 || index != 0 then Suffix(index) else [];
    var s': seq<Code> := if depth' != 0 || index' != 0 then Suffix(index') else [];
    var d: seq<Code>, d': seq<Code> := Decimal(depth), Decimal(depth');
    assert d + s == Display(prefix, depth, index)[|prefix|..];
    assert d' + s' == Display(prefix, depth', index')[|prefix|..];
    DigitsThenLetters(d, s, d', s');
    DecimalInjective(depth, depth');
    IndexOfSuffix(index);
    IndexOfSuffix(index');
  }

  /** No two candidates of a forest share a display label. */
  lemma DisplaysDistinct(prefix: seq<Code>, forest: seq<Entry>, i: nat, j: nat)
    requires ParentsFirst(forest) && i < j < |forest|
    ensures At(prefix, forest, i).display != At(prefix, forest, j).display
  {
    hide Labels, At, Branches, HasChild, Display;
    var q := LabelFacts(prefix, forest, i);
    var r := LabelFacts(prefix, forest, j);
    if At(prefix, forest, i).display == At(prefix, forest, j).display {
      DisplayInjective(prefix, At(prefix, forest, i).depth, At(prefix, forest, i).index,
        At(prefix, forest, j).depth, At(prefix, forest, j).index);
      LaterMemberDeeper(prefix, forest, i, j);
    }
  }

  // ----- branches and leaves

  function Leaves(forest: seq<Entry>): set<nat> {
    set i: nat | i < |forest| && !HasChild(forest, forest[i].id)
  }

  /** There are as many branches as candidates without children. */
  lemma {:induction false} BranchesAreLeaves(forest: seq<Entry>)
    requires ParentsFirst(forest)
    ensures Branches(forest) == |Leaves(forest)|
  {
    hide HasChild;
    if forest == [] {
      assert Leaves(forest) == {};
    } else {
      var n := |forest| - 1;
      var before, e := forest[..n], forest[n];
      InitParentsFirst(forest, n);
      BranchesAreLeaves(before);
      LeavesStep(forest);
      if !StartsBranch(before, e) {
        var q := ParentPosition(forest, n);
        assert before[q] == forest[q] && q in Leaves(before);
      }
    }
  }

  /** The last entry is a leaf, and its parent no longer is one. */
  lemma LeavesStep(forest: seq<Entry>)
    requires ParentsFirst(forest) && forest != []
    ensures var n := |forest| - 1; var before, e := forest[..n], forest[n];
      && n !in Leaves(before)
      && (e.parent.None? ==> Leaves(forest) == Leaves(before) + {n})
      && (e.parent.Some? && HasChild(before, e.parent.value) ==> Leaves(forest) == Leaves(before) + {n})
      && (e.parent.Some? && !HasChild(before, e.parent.value) ==>
          exists q: nat :: q in Leaves(before) && Leaves(forest) == Leaves(before) - {q} + {n})
  {
    hide HasChild;
    var n := |forest| - 1;
    var before, e := forest[..n], forest[n];
    assert forest[..n + 1] == forest;
    CountsStep(forest, n);
    NoChildYet(forest);
    forall i: nat | i < n ensures i in Leaves(forest) <==> i in Leaves(before) && e.parent != Some(forest[i].id) {
      assert before[i] == forest[i];
    }
    assert n in Leaves(forest);
    if e.parent.Some? {
      var q := ParentPosition(forest, n);
      assert before[q] == forest[q];
      assert forall i: nat :: i < n && e.parent == Some(forest[i].id) ==> i == q;
      if HasChild(before, e.parent.value) {
        assert q !in Leaves(before);
        assert Leaves(forest) == Leaves(before) + {n};
      } else {
        assert q in Leaves(before) && Leaves(forest) == Leaves(before) - {q} + {n};
      }
    } else {
      assert Leaves(forest) == Leaves(before) + {n};
    }
  }

  lemma NoChildYet(forest: seq<Entry>)
    requires ParentsFirst(forest) && forest != []
    ensures !HasChild(forest, forest[|forest| - 1].id)
  {
    if HasChild(forest, forest[|forest| - 1].id) {
      var j :| 0 <= j < |forest| && forest[j].parent == Some(forest[|forest| - 1].id);
      var q := ParentPosition(forest, j);
    }
  }
}
