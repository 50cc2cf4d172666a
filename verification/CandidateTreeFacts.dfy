/** What the candidate tree shows: every registered candidate once, at its depth, three characters a level. */
module CandidateTreeFacts {
  import opened Text
  import opened TraceLabels
  import opened TraceForest
  import opened CandidateTree

  function ParentOf(forest: seq<Entry>, id: Id): (parent: Option<Id>)
    requires ParentsFirst(forest) && Registered(forest, id)
    ensures parent.Some? ==> Registered(forest, parent.value) && Position(forest, parent.value) < Position(forest, id)
  {
    var i := Position(forest, id);
    if forest[i].parent.Some? then
      assert Registered(forest, forest[i].parent.value) && Position(forest, forest[i].parent.value) < i by {
        var q := ParentPosition(forest, i);
        PositionIs(forest, q);
      }
      forest[i].parent
    else None
  }

  /** The number of ancestors. */
  function Ancestors(forest: seq<Entry>, id: Id): nat
    requires ParentsFirst(forest) && Registered(forest, id)
    decreases Position(forest, id)
  {
    var parent := ParentOf(forest, id);
    if parent.None? then 0 else Ancestors(forest, parent.value) + 1
  }

  /** `a` is `c` or one of its ancestors. */
  predicate Above(forest: seq<Entry>, a: Id, c: Id)
    requires ParentsFirst(forest) && Registered(forest, c)
    decreases Position(forest, c)
  {
    a == c || (ParentOf(forest, c).Some? && Above(forest, a, ParentOf(forest, c).value))
  }

  lemma {:induction false} AboveIsEarlier(forest: seq<Entry>, a: Id, c: Id)
    requires ParentsFirst(forest) && Registered(forest, c) && Above(forest, a, c)
    ensures Registered(forest, a) && Position(forest, a) <= Position(forest, c)
    decreases Position(forest, c)
  {
    hide Registered, Position;
    if a != c {
      AboveIsEarlier(forest, a, ParentOf(forest, c).value);
    }
  }

  lemma {:induction false} SiblingsApart(forest: seq<Entry>, a: Id, b: Id, c: Id)
    requires ParentsFirst(forest) && Registered(forest, c) && Registered(forest, a) && Registered(forest, b)
    requires Above(forest, a, c) && Above(forest, b, c) && ParentOf(forest, a) == ParentOf(forest, b)
    ensures a == b
    decreases Position(forest, c)
  {
    hide Registered, Position;
    if a != b {
      if a == c {
        AboveIsEarlier(forest, b, ParentOf(forest, c).value);
      } else if b == c {
        AboveIsEarlier(forest, a, ParentOf(forest, c).value);
      } else {
        SiblingsApart(forest, a, b, ParentOf(forest, c).value);
      }
    }
  }

  // ----- children lists

  lemma {:induction false} ChildListed(forest: seq<Entry>, i: nat)
    requires ParentsFirst(forest) && i < |forest|
    ensures forest[i].id in Children(forest, forest[i].parent)
    decreases |forest|
  {
    if i < |forest| - 1 {
      InitParentsFirst(forest, |forest| - 1);
      ChildListed(forest[..|forest| - 1], i);
    }
  }

  lemma {:induction false} ChildrenDistinct(forest: seq<Entry>, parent: Option<Id>, j: nat, k: nat)
    requires ParentsFirst(forest) && j < k < |Children(forest, parent)|
    ensures Children(forest, parent)[j] != Children(forest, parent)[k]
    decreases |forest|
  {
    var before := forest[..|forest| - 1];
    InitParentsFirst(forest, |forest| - 1);
    if k < |Children(before, parent)| {
      ChildrenDistinct(before, parent, j, k);
    } else {
      ChildrenLater(before, parent, j);
    }
  }

  lemma KidFacts(forest: seq<Entry>, parent: Option<Id>, k: nat)
    requires ParentsFirst(forest) && k < |Children(forest, parent)|
    ensures Registered(forest, Children(forest, parent)[k])
    ensures ParentOf(forest, Children(forest, parent)[k]) == parent
  {
    hide Registered, Children;
    ChildrenLater(forest, parent, k);
  }

  /** At most one sibling leads to `c`. */
  lemma OneKid(forest: seq<Entry>, parent: Option<Id>, j: nat, k: nat, c: Id)
    requires ParentsFirst(forest) && Registered(forest, c)
    requires j < |Children(forest, parent)| && k < |Children(forest, parent)|
    requires Above(forest, Children(forest, parent)[j], c) && Above(forest, Children(forest, parent)[k], c)
    ensures j == k
  {
    hide Registered, Children, Above;
    KidFacts(forest, parent, j);
    KidFacts(forest, parent, k);
    SiblingsApart(forest, Children(forest, parent)[j], Children(forest, parent)[k], c);
    if j < k {
      ChildrenDistinct(forest, parent, j, k);
    } else if k < j {
      ChildrenDistinct(forest, parent, k, j);
    }
  }

  /** Some root leads to `c`; and if `c` lies properly below `id`, some child of `id` does. */
  lemma {:induction false} KidToward(forest: seq<Entry>, top: Option<Id>, c: Id) returns (k: nat)
    requires ParentsFirst(forest) && Registered(forest, c)
    requires top.Some? ==> top.value != c && Above(forest, top.value, c)
    ensures k < |Children(forest, top)| && Above(forest, Children(forest, top)[k], c)
    decreases Position(forest, c)
  {
    hide Registered, Children, Position;
    var parent := ParentOf(forest, c);
    if parent == top {
      var i := Position(forest, c);
      ChildListed(forest, i);
      k :| 0 <= k < |Children(forest, top)| && Children(forest, top)[k] == c;
    } else {
      k := KidToward(forest, top, parent.value);
    }
  }

  lemma KidBelow(forest: seq<Entry>, id: Id, k: nat, c: Id)
    requires ParentsFirst(forest) && Registered(forest, c) && Registered(forest, id) && k < |Children(forest, Some(id))|
    requires Above(forest, Children(forest, Some(id))[k], c)
    ensures Above(forest, id, c) && id != c
    decreases Position(forest, c)
  {
    hide Registered, Children, Position;
    KidFacts(forest, Some(id), k);
    if Children(forest, Some(id))[k] != c {
      KidBelow(forest, id, k, ParentOf(forest, c).value);
      AboveIsEarlier(forest, id, ParentOf(forest, c).value);
    }
  }

  // ----- every candidate exactly once

  function Count(rows: seq<Row>, c: Id): nat {
    if rows == [] then 0 else (if rows[0].id == c then 1 else 0) + Count(rows[1..], c)
  }

  lemma {:induction false} CountConcat(a: seq<Row>, b: seq<Row>, c: Id)
    ensures Count(a + b, c) == Count(a, c) + Count(b, c)
  {
    if a == [] {
      assert a + b == b;
    } else {
      assert (a + b)[1..] == a[1..] + b;
      CountConcat(a[1..], b, c);
    }
  }

  ghost predicate SomeKid(forest: seq<Entry>, parent: Option<Id>, from: nat, c: Id)
    requires ParentsFirst(forest) && Registered(forest, c)
  {
    exists k :: from <= k < |Children(forest, parent)| && Above(forest, Children(forest, parent)[k], c)
  }

  lemma SomeKidStep(forest: seq<Entry>, parent: Option<Id>, from: nat, c: Id)
    requires ParentsFirst(forest) && Registered(forest, c) && from < |Children(forest, parent)|
    ensures (if SomeKid(forest, parent, from, c) then 1 else 0) ==
      (if Above(forest, Children(forest, parent)[from], c) then 1 else 0)
        + (if SomeKid(forest, parent, from + 1, c) then 1 else 0)
  {
    hide Registered, Children, Above;
    if Above(forest, Children(forest, parent)[from], c) && SomeKid(forest, parent, from + 1, c) {
      var k :| from + 1 <= k < |Children(forest, parent)| && Above(forest, Children(forest, parent)[k], c);
      OneKid(forest, parent, from, k, c);
    }
  }

  lemma {:induction false} CountPreorder(forest: seq<Entry>, item: Item, c: Id)
    requires ParentsFirst(forest) && Registered(forest, item.id) && Registered(forest, c)
    ensures Count(Preorder(forest, item), c) == if Above(forest, item.id, c) then 1 else 0
    decreases |forest| - Position(forest, item.id), 0
  {
    hide Registered, Children, Above, PreorderKids;
    var head := [Row(item.id, item.prefix + item.branch, item.depth)];
    var below := PreorderKids(forest, item.id, 0, ChildPrefix(item), item.depth + 1);
    CountConcat(head, below, c);
    assert Count(head, c) == (if item.id == c then 1 else 0) + Count([], c) by { assert head[1..] == []; }
    CountKids(forest, item.id, 0, ChildPrefix(item), item.depth + 1, c);
    AboveSelf(forest, c);
    if SomeKid(forest, Some(item.id), 0, c) {
      var k :| 0 <= k < |Children(forest, Some(item.id))| && Above(forest, Children(forest, Some(item.id))[k], c);
      KidBelow(forest, item.id, k, c);
    } else if Above(forest, item.id, c) && item.id != c {
      var k := KidToward(forest, Some(item.id), c);
    }
  }

  lemma AboveSelf(forest: seq<Entry>, c: Id)
    requires ParentsFirst(forest) && Registered(forest, c)
    ensures Above(forest, c, c)
  {
  }

  lemma {:induction false} CountKids(forest: seq<Entry>, id: Id, from: nat, prefix: seq<Code>, depth: nat, c: Id)
    requires ParentsFirst(forest) && Registered(forest, id) && Registered(forest, c)
      && from <= |Children(forest, Some(id))|
    ensures Count(PreorderKids(forest, id, from, prefix, depth), c) == if SomeKid(forest, Some(id), from, c) then 1
      else 0
    decreases |forest| - Position(forest, id), 0, |Children(forest, Some(id))| - from
  {
    hide Registered, Children, Above, Preorder;
    var kids := Children(forest, Some(id));
    if from < |kids| {
      ChildrenLater(forest, Some(id), from);
      var first := Item(kids[from], prefix, if from == |kids| - 1 then LAST else MIDDLE, depth);
      CountConcat(Preorder(forest, first), PreorderKids(forest, id, from + 1, prefix, depth), c);
      CountPreorder(forest, first, c);
      CountKids(forest, id, from + 1, prefix, depth, c);
      SomeKidStep(forest, Some(id), from, c);
    }
  }

  lemma {:induction false} CountRoots(forest: seq<Entry>, from: nat, c: Id)
    requires ParentsFirst(forest) && Registered(forest, c) && from <= |Children(forest, None)|
    ensures Known(forest, Roots(Children(forest, None))[from..])
    ensures Count(PreorderAll(forest, Roots(Children(forest, None))[from..]), c) ==
      if SomeKid(forest, None, from, c) then 1 else 0
    decreases |Children(forest, None)| - from
  {
    hide Registered, Children, Above, Preorder;
    RootsKnown(forest);
    var roots := Roots(Children(forest, None));
    if from < |roots| {
      assert roots[from..][1..] == roots[from + 1..];
      CountRoots(forest, from + 1, c);
      CountConcat(Preorder(forest, roots[from]), PreorderAll(forest, roots[from + 1..]), c);
      CountPreorder(forest, roots[from], c);
      SomeKidStep(forest, None, from, c);
    }
  }

  /** The tree emits every registered candidate exactly once. */
  lemma TreeListsOnce(forest: seq<Entry>, c: Id)
    requires ParentsFirst(forest) && Registered(forest, c)
    ensures Count(Tree(forest), c) == 1
  {
    hide Registered, Children, Above, PreorderAll, Known;
    CountRoots(forest, 0, c);
    TreeIs(forest);
    assert Roots(Children(forest, None))[0..] == Roots(Children(forest, None));
    var k := KidToward(forest, None, c);
  }

  // ----- depth and indentation

  /** The prefix and branch mark an item of this depth carries. */
  predicate WellDrawn(item: Item) {
    if item.depth == 0 then item.prefix == [] && item.branch == []
    else |item.prefix| == 3 * (item.depth - 1) && |item.branch| == 3
  }

  ghost predicate RowsPlaced(forest: seq<Entry>, rows: seq<Row>)
    requires ParentsFirst(forest)
  {
    forall i :: 0 <= i < |rows| ==>
      Registered(forest, rows[i].id) && rows[i].depth == Ancestors(forest, rows[i].id)
        && |rows[i].treePrefix| == 3 * rows[i].depth
  }

  lemma {:induction false} PreorderPlaced(forest: seq<Entry>, item: Item)
    requires ParentsFirst(forest) && Registered(forest, item.id)
    requires item.depth == Ancestors(forest, item.id) && WellDrawn(item)
    ensures RowsPlaced(forest, Preorder(forest, item))
    decreases |forest| - Position(forest, item.id), 0
  {
    hide Registered, Children, Ancestors, PreorderKids;
    KidsPlaced(forest, item.id, 0, ChildPrefix(item), item.depth + 1);
  }

  lemma {:induction false} KidsPlaced(forest: seq<Entry>, id: Id, from: nat, prefix: seq<Code>, depth: nat)
    requires ParentsFirst(forest) && Registered(forest, id) && from <= |Children(forest, Some(id))|
    requires depth == Ancestors(forest, id) + 1 && |prefix| == 3 * (depth - 1)
    ensures RowsPlaced(forest, PreorderKids(forest, id, from, prefix, depth))
    decreases |forest| - Position(forest, id), 0, |Children(forest, Some(id))| - from
  {
    hide Registered, Children, Preorder;
    var kids := Children(forest, Some(id));
    if from < |kids| {
      ChildrenLater(forest, Some(id), from);
      KidFacts(forest, Some(id), from);
      PreorderPlaced(forest, Item(kids[from], prefix, if from == |kids| - 1 then LAST else MIDDLE, depth));
      KidsPlaced(forest, id, from + 1, prefix, depth);
    }
  }

  lemma {:induction false} AllPlaced(forest: seq<Entry>, from: nat)
    requires ParentsFirst(forest) && from <= |Children(forest, None)|
    ensures Known(forest, Roots(Children(forest, None))[from..])
    ensures RowsPlaced(forest, PreorderAll(forest, Roots(Children(forest, None))[from..]))
    decreases |Children(forest, None)| - from
  {
    hide Registered, Children, Preorder;
    RootsKnown(forest);
    var roots := Roots(Children(forest, None));
    if from < |roots| {
      assert roots[from..][1..] == roots[from + 1..];
      AllPlaced(forest, from + 1);
      KidFacts(forest, None, from);
      PreorderPlaced(forest, roots[from]);
    }
  }

  /** Each row shows a registered candidate with its number of ancestors as depth and an indent of
      three characters per level. */
  lemma TreePlacesRows(forest: seq<Entry>)
    requires ParentsFirst(forest)
    ensures RowsPlaced(forest, Tree(forest))
  {
    hide Registered, Children, RowsPlaced, PreorderAll;
    AllPlaced(forest, 0);
    assert Roots(Children(forest, None))[0..] == Roots(Children(forest, None));
  }
}
