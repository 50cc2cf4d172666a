/** How the candidate tree is drawn and ordered, said of the forest alone: parents before children, older siblings
    before younger ones, and a line down from every candidate that has a younger sibling. */
module CandidateTreeShape {
  import opened Text
  import opened TraceLabels
  import opened TraceForest
  import opened CandidateTree
  import opened CandidateTreeFacts

  // ----- siblings

  /** No later registration has the same parent. */
  predicate Youngest(forest: seq<Entry>, c: Id)
    requires ParentsFirst(forest) && Registered(forest, c)
  {
    forall i :: Position(forest, c) < i < |forest| ==> forest[i].parent != ParentOf(forest, c)
  }

  /** Children are listed in registration order. */
  lemma {:induction false} ChildrenAscend(forest: seq<Entry>, parent: Option<Id>, j: nat, k: nat)
    requires ParentsFirst(forest) && j < k < |Children(forest, parent)|
    ensures Registered(forest, Children(forest, parent)[j]) && Registered(forest, Children(forest, parent)[k])
    ensures Position(forest, Children(forest, parent)[j]) < Position(forest, Children(forest, parent)[k])
    decreases |forest|
  {
    hide Registered, Position;
    var n := |forest| - 1;
    var before, kids := forest[..n], Children(forest, parent);
    InitParentsFirst(forest, n);
    ChildrenLater(forest, parent, j);
    ChildrenLater(forest, parent, k);
    ChildrenLater(before, parent, j);
    PositionIs(before, Position(before, kids[j]));
    PositionIs(forest, Position(before, kids[j]));
    if k < |Children(before, parent)| {
      ChildrenAscend(before, parent, j, k);
      PositionIs(forest, Position(before, kids[k]));
    } else {
      PositionIs(forest, n);
    }
  }

  /** The last child listed is the youngest, and no other. */
  lemma LastIsYoungest(forest: seq<Entry>, parent: Option<Id>, k: nat)
    requires ParentsFirst(forest) && k < |Children(forest, parent)|
    ensures Registered(forest, Children(forest, parent)[k])
    ensures Youngest(forest, Children(forest, parent)[k]) <==> k == |Children(forest, parent)| - 1
  {
    hide Registered, Position, Children;
    var kids := Children(forest, parent);
    KidFacts(forest, parent, k);
    ChildrenLater(forest, parent, k);
    if k < |kids| - 1 {
      ChildrenAscend(forest, parent, k, |kids| - 1);
      ChildrenLater(forest, parent, |kids| - 1);
    } else {
      forall i | Position(forest, kids[k]) < i < |forest| ensures forest[i].parent != parent {
        if forest[i].parent == parent {
          ChildListed(forest, i);
          var j :| 0 <= j < |kids| && kids[j] == forest[i].id;
          PositionIs(forest, i);
          if j < k {
            ChildrenAscend(forest, parent, j, k);
          }
        }
      }
    }
  }

  // ----- the drawing

  /** What stands before the mark of the children of `c`: for `c` and each ancestor below its root, a line when it has a
      younger sibling and blanks when it has none. */
  ghost function Indent(forest: seq<Entry>, c: Id): seq<Code>
    requires ParentsFirst(forest) && Registered(forest, c)
    decreases Position(forest, c)
  {
    var parent := ParentOf(forest, c);
    if parent.None? then []
    else Indent(forest, parent.value) + (if Youngest(forest, c) then [0x20, 0x20, 0x20] else [0x2502, 0x20, 0x20])
  }

  /** The whole prefix of `c`: its parent's indent and its own mark. */
  ghost function Drawn(forest: seq<Entry>, c: Id): seq<Code>
    requires ParentsFirst(forest) && Registered(forest, c)
  {
    var parent := ParentOf(forest, c);
    if parent.None? then []
    else
      Indent(forest, parent.value)
      + (if Youngest(forest, c) then [0x2514, 0x2500, 0x20] else [0x251C, 0x2500, 0x20])
  }

  /** The item carries its candidate's drawing. */
  ghost predicate ItemDrawn(forest: seq<Entry>, item: Item)
    requires ParentsFirst(forest) && Registered(forest, item.id)
  {
    item.prefix + item.branch == Drawn(forest, item.id) && ChildPrefix(item) == Indent(forest, item.id)
  }

  ghost predicate RowsDrawn(forest: seq<Entry>, rows: seq<Row>)
    requires ParentsFirst(forest)
  {
    forall i :: 0 <= i < |rows| ==>
      Registered(forest, rows[i].id) && rows[i].treePrefix == Drawn(forest, rows[i].id)
  }

  lemma KidDrawn(forest: seq<Entry>, id: Id, k: nat, depth: nat)
    requires ParentsFirst(forest) && Registered(forest, id) && k < |Children(forest, Some(id))|
    ensures var kids := Children(forest, Some(id));
      && Registered(forest, kids[k])
      && ItemDrawn(forest, Item(kids[k], Indent(forest, id), if k == |kids| - 1 then LAST else MIDDLE, depth))
  {
    hide Registered, Children, Position, Youngest, ParentOf;
    KidFacts(forest, Some(id), k);
    LastIsYoungest(forest, Some(id), k);
    assert LAST != MIDDLE && MIDDLE != [] by { assert LAST[0] != MIDDLE[0]; }
  }

  lemma RootDrawn(forest: seq<Entry>, k: nat)
    requires ParentsFirst(forest) && k < |Children(forest, None)|
    ensures Registered(forest, Children(forest, None)[k])
    ensures ItemDrawn(forest, Item(Children(forest, None)[k], [], [], 0))
  {
    hide Registered, Children, Position, Youngest, ParentOf;
    KidFacts(forest, None, k);
    assert LAST != [];
  }

  lemma {:induction false} PreorderDrawn(forest: seq<Entry>, item: Item)
    requires ParentsFirst(forest) && Registered(forest, item.id) && ItemDrawn(forest, item)
    ensures RowsDrawn(forest, Preorder(forest, item))
    decreases |forest| - Position(forest, item.id), 0
  {
    hide Registered, Children, PreorderKids, Drawn, Indent;
    KidsDrawn(forest, item.id, 0, item.depth + 1);
  }

  lemma {:induction false} KidsDrawn(forest: seq<Entry>, id: Id, from: nat, depth: nat)
    requires ParentsFirst(forest) && Registered(forest, id) && from <= |Children(forest, Some(id))|
    ensures RowsDrawn(forest, PreorderKids(forest, id, from, Indent(forest, id), depth))
    decreases |forest| - Position(forest, id), 0, |Children(forest, Some(id))| - from
  {
    hide Registered, Children, Preorder, Drawn, Indent;
    var kids := Children(forest, Some(id));
    if from < |kids| {
      ChildrenLater(forest, Some(id), from);
      KidDrawn(forest, id, from, depth);
      PreorderDrawn(forest, Item(kids[from], Indent(forest, id), if from == |kids| - 1 then LAST else MIDDLE, depth));
      KidsDrawn(forest, id, from + 1, depth);
    }
  }

  lemma {:induction false} AllDrawn(forest: seq<Entry>, from: nat)
    requires ParentsFirst(forest) && from <= |Children(forest, None)|
    ensures Known(forest, Roots(Children(forest, None))[from..])
    ensures RowsDrawn(forest, PreorderAll(forest, Roots(Children(forest, None))[from..]))
    decreases |Children(forest, None)| - from
  {
    hide Registered, Children, Preorder, Drawn, Indent, ItemDrawn;
    RootsKnown(forest);
    var roots := Roots(Children(forest, None));
    if from < |roots| {
      assert roots[from..][1..] == roots[from + 1..];
      AllDrawn(forest, from + 1);
      RootDrawn(forest, from);
      PreorderDrawn(forest, roots[from]);
    }
  }

  /** Every row of the tree carries the drawing of its candidate. */
  lemma TreeIsDrawn(forest: seq<Entry>)
    requires ParentsFirst(forest)
    ensures RowsDrawn(forest, Tree(forest))
  {
    hide Registered, Children, PreorderAll, RowsDrawn;
    AllDrawn(forest, 0);
    TreeIs(forest);
    assert Roots(Children(forest, None))[0..] == Roots(Children(forest, None));
  }

  // ----- the order

  /** `a` is an ancestor of `b`, or lies under an older sibling of one that `b` lies under. */
  ghost predicate Before(forest: seq<Entry>, a: Id, b: Id)
    requires ParentsFirst(forest) && Registered(forest, a) && Registered(forest, b)
  {
    || (a != b && Above(forest, a, b))
    || exists x: Id, y: Id :: Splits(forest, x, y, a, b)
  }

  ghost predicate Splits(forest: seq<Entry>, x: Id, y: Id, a: Id, b: Id)
    requires ParentsFirst(forest) && Registered(forest, a) && Registered(forest, b)
  {
    && Registered(forest, x) && Registered(forest, y) && ParentOf(forest, x) == ParentOf(forest, y)
    && Position(forest, x) < Position(forest, y) && Above(forest, x, a) && Above(forest, y, b)
  }

  ghost predicate Ordered(forest: seq<Entry>, rows: seq<Row>)
    requires ParentsFirst(forest)
  {
    && (forall i :: 0 <= i < |rows| ==> Registered(forest, rows[i].id))
    && forall i, j :: 0 <= i < j < |rows| ==> Before(forest, rows[i].id, rows[j].id)
  }

  lemma {:induction false} Counted(rows: seq<Row>, i: nat)
    requires i < |rows|
    ensures Count(rows, rows[i].id) > 0
  {
    if i > 0 {
      Counted(rows[1..], i - 1);
    }
  }

  lemma OrderedConcat(forest: seq<Entry>, a: seq<Row>, b: seq<Row>)
    requires ParentsFirst(forest) && Ordered(forest, a) && Ordered(forest, b)
    requires forall i, j :: 0 <= i < |a| && 0 <= j < |b| ==> Before(forest, a[i].id, b[j].id)
    ensures Ordered(forest, a + b)
  {
    hide Before, Registered;
  }

  lemma {:induction false} PreorderOrdered(forest: seq<Entry>, item: Item)
    requires ParentsFirst(forest) && Registered(forest, item.id)
    ensures Ordered(forest, Preorder(forest, item))
    decreases |forest| - Position(forest, item.id), 0
  {
    hide Registered, Children, PreorderKids, Before, Above;
    var kids := PreorderKids(forest, item.id, 0, ChildPrefix(item), item.depth + 1);
    KidsOrdered(forest, item.id, 0, ChildPrefix(item), item.depth + 1);
    var head := [Row(item.id, item.prefix + item.branch, item.depth)];
    forall j | 0 <= j < |kids| ensures Before(forest, item.id, kids[j].id) {
      Counted(kids, j);
      CountKids(forest, item.id, 0, ChildPrefix(item), item.depth + 1, kids[j].id);
      var k :| 0 <= k < |Children(forest, Some(item.id))|
        && Above(forest, Children(forest, Some(item.id))[k], kids[j].id);
      KidBelow(forest, item.id, k, kids[j].id);
      AncestorBefore(forest, item.id, kids[j].id);
    }
    OrderedConcat(forest, head, kids);
  }

  lemma AncestorBefore(forest: seq<Entry>, a: Id, b: Id)
    requires ParentsFirst(forest) && Registered(forest, a) && Registered(forest, b) && a != b && Above(forest, a, b)
    ensures Before(forest, a, b)
  {
  }

  /** What lies under an older child comes before what lies under a younger one. */
  lemma SiblingsBefore(forest: seq<Entry>, parent: Option<Id>, j: nat, k: nat, a: Id, b: Id)
    requires ParentsFirst(forest) && Registered(forest, a) && Registered(forest, b)
    requires j < k < |Children(forest, parent)|
    requires Above(forest, Children(forest, parent)[j], a) && Above(forest, Children(forest, parent)[k], b)
    ensures Before(forest, a, b)
  {
    hide Registered, Children, Above, Position, ParentOf;
    KidFacts(forest, parent, j);
    KidFacts(forest, parent, k);
    ChildrenAscend(forest, parent, j, k);
    assert Splits(forest, Children(forest, parent)[j], Children(forest, parent)[k], a, b);
  }

  lemma {:induction false} KidsOrdered(forest: seq<Entry>, id: Id, from: nat, prefix: seq<Code>, depth: nat)
    requires ParentsFirst(forest) && Registered(forest, id) && from <= |Children(forest, Some(id))|
    ensures Ordered(forest, PreorderKids(forest, id, from, prefix, depth))
    decreases |forest| - Position(forest, id), 0, |Children(forest, Some(id))| - from
  {
    hide Registered, Children, Preorder, Before, Above;
    var kids := Children(forest, Some(id));
    if from < |kids| {
      ChildrenLater(forest, Some(id), from);
      var item := Item(kids[from], prefix, if from == |kids| - 1 then LAST else MIDDLE, depth);
      var first, rest := Preorder(forest, item), PreorderKids(forest, id, from + 1, prefix, depth);
      PreorderOrdered(forest, item);
      KidsOrdered(forest, id, from + 1, prefix, depth);
      forall i, j | 0 <= i < |first| && 0 <= j < |rest| ensures Before(forest, first[i].id, rest[j].id) {
        Counted(first, i);
        Counted(rest, j);
        CountPreorder(forest, item, first[i].id);
        CountKids(forest, id, from + 1, prefix, depth, rest[j].id);
        var k :| from + 1 <= k < |kids| && Above(forest, kids[k], rest[j].id);
        SiblingsBefore(forest, Some(id), from, k, first[i].id, rest[j].id);
      }
      OrderedConcat(forest, first, rest);
    }
  }

  lemma {:induction false} AllOrdered(forest: seq<Entry>, from: nat)
    requires ParentsFirst(forest) && from <= |Children(forest, None)|
    ensures Known(forest, Roots(Children(forest, None))[from..])
    ensures Ordered(forest, PreorderAll(forest, Roots(Children(forest, None))[from..]))
    decreases |Children(forest, None)| - from
  {
    hide Registered, Children, Preorder, Before, Above;
    RootsKnown(forest);
    var kids := Children(forest, None);
    var roots := Roots(kids);
    if from < |roots| {
      assert roots[from..][1..] == roots[from + 1..];
      AllOrdered(forest, from + 1);
      var first, rest := Preorder(forest, roots[from]), PreorderAll(forest, roots[from + 1..]);
      PreorderOrdered(forest, roots[from]);
      forall i, j | 0 <= i < |first| && 0 <= j < |rest| ensures Before(forest, first[i].id, rest[j].id) {
        Counted(first, i);
        Counted(rest, j);
        CountPreorder(forest, roots[from], first[i].id);
        CountRoots(forest, from + 1, rest[j].id);
        var k :| from + 1 <= k < |kids| && Above(forest, kids[k], rest[j].id);
        SiblingsBefore(forest, None, from, k, first[i].id, rest[j].id);
      }
      OrderedConcat(forest, first, rest);
    }
  }

  /** The rows come with every parent before its children and everything under an older sibling before everything under
      a younger one. */
  lemma TreeIsOrdered(forest: seq<Entry>)
    requires ParentsFirst(forest)
    ensures Ordered(forest, Tree(forest))
  {
    hide Registered, Children, PreorderAll, Ordered;
    AllOrdered(forest, 0);
    TreeIs(forest);
    assert Roots(Children(forest, None))[0..] == Roots(Children(forest, None));
  }
}
