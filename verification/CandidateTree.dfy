/** `ExperimentView.tree`: the explicit-stack walk is the recursive preorder of the candidate forest. */
module CandidateTree {
  import opened Text
  import opened TraceLabels
  import opened TraceForest

  const LAST: seq<Code> := [0x2514, 0x2500, 32]
  const MIDDLE: seq<Code> := [0x251C, 0x2500, 32]
  const BAR: seq<Code> := [0x2502, 32, 32]
  const GAP: seq<Code> := [32, 32, 32]

  datatype Row = Row(id: Id, treePrefix: seq<Code>, depth: nat)

  /** One stack item: a candidate still to be emitted, the prefix its parent hands down, and its branch mark. */
  datatype Item = Item(id: Id, prefix: seq<Code>, branch: seq<Code>, depth: nat)

  /** `children.get(parent, [])`: children in registration order; None collects the roots. */
  function Children(forest: seq<Entry>, parent: Option<Id>): seq<Id> {
    if forest == [] then []
    else
      var last := forest[|forest| - 1];
      Children(forest[..|forest| - 1], parent) + (if last.parent == parent then [last.id] else [])
  }

  function ChildPrefix(item: Item): seq<Code> {
    item.prefix + (if item.branch == LAST then GAP else if item.branch != [] then BAR else [])
  }

  /** The items of `kids` from position `from` on, top of the stack first. */
  function Items(kids: seq<Id>, from: nat, prefix: seq<Code>, depth: nat): seq<Item>
    requires from <= |kids|
    decreases |kids| - from
  {
    if from == |kids| then []
    else
      [Item(kids[from], prefix, if from == |kids| - 1 then LAST else MIDDLE, depth)]
      + Items(kids, from + 1, prefix, depth)
  }

  function Roots(kids: seq<Id>): seq<Item> {
    seq(|kids|, i requires 0 <= i < |kids| => Item(kids[i], [], [], 0))
  }

  predicate Known(forest: seq<Entry>, items: seq<Item>) {
    forall i :: 0 <= i < |items| ==> Registered(forest, items[i].id)
  }

  /** Children are registered, and after their parent. */
  lemma {:induction false} ChildrenLater(forest: seq<Entry>, parent: Option<Id>, k: nat)
    requires ParentsFirst(forest) && k < |Children(forest, parent)|
    ensures var kid := Children(forest, parent)[k];
      && Registered(forest, kid) && forest[Position(forest, kid)].parent == parent
      && (parent.Some? ==> Registered(forest, parent.value) && Position(forest, parent.value) < Position(forest, kid))
    decreases |forest|
  {
    hide Registered, Position;
    var n := |forest| - 1;
    var before, last := forest[..n], forest[n];
    InitParentsFirst(forest, n);
    LabelsKeys(forest);
    PositionIs(forest, n);
    if k < |Children(before, parent)| {
      ChildrenLater(before, parent, k);
      var kid := Children(before, parent)[k];
      PositionIs(forest, Position(before, kid));
      if parent.Some? {
        PositionIs(forest, Position(before, parent.value));
      }
    } else if parent.Some? {
      var q := ParentPosition(forest, n);
      PositionIs(forest, q);
    }
  }

  lemma PositionIs(forest: seq<Entry>, i: nat)
    requires ParentsFirst(forest) && i < |forest|
    ensures Registered(forest, forest[i].id) && Position(forest, forest[i].id) == i
  {
  }

  // ----- the recursive preorder

  ghost function Preorder(forest: seq<Entry>, item: Item): seq<Row>
    requires ParentsFirst(forest) && Registered(forest, item.id)
    decreases |forest| - Position(forest, item.id), 0
  {
    [Row(item.id, item.prefix + item.branch, item.depth)] +
    PreorderKids(forest, item.id, 0, ChildPrefix(item), item.depth + 1)
  }

  ghost function PreorderKids(forest: seq<Entry>, id: Id, from: nat, prefix: seq<Code>, depth: nat): seq<Row>
    requires ParentsFirst(forest) && Registered(forest, id) && from <= |Children(forest, Some(id))|
    decreases |forest| - Position(forest, id), 0, |Children(forest, Some(id))| - from
  {
    var kids := Children(forest, Some(id));
    if from == |kids| then [] else
      ChildrenLater(forest, Some(id), from);
      Preorder(forest, Item(kids[from], prefix, if from == |kids| - 1 then LAST else MIDDLE, depth)) +
      PreorderKids(forest, id, from + 1, prefix, depth)
  }

  ghost function PreorderAll(forest: seq<Entry>, items: seq<Item>): seq<Row>
    requires ParentsFirst(forest) && Known(forest, items)
  {
    if items == [] then [] else Preorder(forest, items[0]) + PreorderAll(forest, items[1..])
  }

  /** The whole tree: every root and what lies below it. */
  ghost function Tree(forest: seq<Entry>): seq<Row>
    requires ParentsFirst(forest)
  {
    RootsKnown(forest);
    PreorderAll(forest, Roots(Children(forest, None)))
  }

  lemma RootsKnown(forest: seq<Entry>)
    requires ParentsFirst(forest)
    ensures Known(forest, Roots(Children(forest, None)))
  {
    var kids := Children(forest, None);
    forall i | 0 <= i < |kids| ensures Registered(forest, Roots(kids)[i].id) {
      ChildrenLater(forest, None, i);
    }
  }

  lemma {:induction false} PreorderAllConcat(forest: seq<Entry>, a: seq<Item>, b: seq<Item>)
    requires ParentsFirst(forest) && Known(forest, a) && Known(forest, b)
    ensures Known(forest, a + b) && PreorderAll(forest, a + b) == PreorderAll(forest, a) + PreorderAll(forest, b)
  {
    hide Preorder, Registered;
    if a == [] {
      assert a + b == b;
    } else {
      assert (a + b)[1..] == a[1..] + b;
      PreorderAllConcat(forest, a[1..], b);
      assert PreorderAll(forest, a + b) ==
        Preorder(forest, a[0]) + (PreorderAll(forest, a[1..]) + PreorderAll(forest, b));
    }
  }

  lemma {:induction false} ItemsPreorder(forest: seq<Entry>, id: Id, from: nat, prefix: seq<Code>, depth: nat)
    requires ParentsFirst(forest) && Registered(forest, id) && from <= |Children(forest, Some(id))|
    ensures var items := Items(Children(forest, Some(id)), from, prefix, depth);
      Known(forest, items) && PreorderAll(forest, items) == PreorderKids(forest, id, from, prefix, depth)
    decreases |Children(forest, Some(id))| - from
  {
    hide Preorder, Registered, Children;
    var kids := Children(forest, Some(id));
    if from < |kids| {
      ChildrenLater(forest, Some(id), from);
      ItemsPreorder(forest, id, from + 1, prefix, depth);
      var items := Items(kids, from, prefix, depth);
      assert items[1..] == Items(kids, from + 1, prefix, depth);
    }
  }

  // ----- the walk

  /** The `for index` loop: the children go on the stack last first, so the first is popped first. */
  method PushChildren(kids: seq<Id>, prefix: seq<Code>, depth: nat, below: seq<Item>) returns (stack: seq<Item>)
    ensures stack == below + Reversed(Items(kids, 0, prefix, depth))
  {
    hide Reversed;
    stack := below;
    var index := |kids|;
    NothingReversed();
    while index > 0
      invariant 0 <= index <= |kids|
      invariant stack == below + Reversed(Items(kids, index, prefix, depth))
    {
      index := index - 1;
      var next := Item(kids[index], prefix, if index == |kids| - 1 then LAST else MIDDLE, depth);
      ReversedCons(next, Items(kids, index + 1, prefix, depth));
      assert Items(kids, index, prefix, depth) == [next] + Items(kids, index + 1, prefix, depth);
      stack := stack + [next];
    }
  }

  lemma NothingReversed()
    ensures Reversed<Item>([]) == []
  {
  }

  /** `ExperimentView.tree`. The last element of `stack` is the next to be popped. */
  method TreeRows(forest: seq<Entry>) returns (output: seq<Row>)
    requires ParentsFirst(forest)
    ensures output == Tree(forest)
  {
    hide Preorder, PreorderAll, Registered, Children, Tree, ParentsFirst, Known, Reversed, Items;
    output := [];
    var roots := Children(forest, None);
    var stack := Reversed(Roots(roots));
    ghost var rest := Roots(roots);
    TreeIs(forest);
    while stack != []
      invariant stack == Reversed(rest) && Known(forest, rest)
      invariant output + PreorderAll(forest, rest) == Tree(forest)
      decreases |PreorderAll(forest, rest)|
    {
      ReversedLast(rest);
      var item := stack[|stack| - 1];
      stack := stack[..|stack| - 1];
      PopStep(forest, output, rest);
      output := output + [Row(item.id, item.prefix + item.branch, item.depth)];
      var kids := Children(forest, Some(item.id));
      ghost var items := Items(kids, 0, ChildPrefix(item), item.depth + 1);
      ReversedConcat(items, rest[1..]);
      stack := PushChildren(kids, ChildPrefix(item), item.depth + 1, stack);
      rest := items + rest[1..];
    }
    NothingLeft(forest, rest);
  }

  lemma NothingLeft(forest: seq<Entry>, rest: seq<Item>)
    requires ParentsFirst(forest) && Known(forest, rest) && Reversed(rest) == []
    ensures PreorderAll(forest, rest) == []
  {
  }

  /** One round of the walk: what is emitted and what is left to emit still make the same listing. */
  lemma PopStep(forest: seq<Entry>, output: seq<Row>, rest: seq<Item>)
    requires ParentsFirst(forest) && Known(forest, rest) && rest != []
    ensures Registered(forest, rest[0].id)
    ensures var item := rest[0];
      var row := Row(item.id, item.prefix + item.branch, item.depth);
      var left := Items(Children(forest, Some(item.id)), 0, ChildPrefix(item), item.depth + 1) + rest[1..];
      && Known(forest, left)
      && output + PreorderAll(forest, rest) == output + [row] + PreorderAll(forest, left)
      && |PreorderAll(forest, left)| < |PreorderAll(forest, rest)|
  {
    hide PreorderKids, Registered, Children, ParentsFirst;
    KnownParts(forest, rest);
    var item := rest[0];
    var row := Row(item.id, item.prefix + item.branch, item.depth);
    var items := Items(Children(forest, Some(item.id)), 0, ChildPrefix(item), item.depth + 1);
    HeadPreorder(forest, item);
    ItemsPreorder(forest, item.id, 0, ChildPrefix(item), item.depth + 1);
    hide Items, Preorder, Known;
    PreorderAllConcat(forest, items, rest[1..]);
    PreorderHead(forest, rest);
    hide PreorderAll;
    var here, later := PreorderAll(forest, items), PreorderAll(forest, rest[1..]);
    assert PreorderAll(forest, rest) == ([row] + here) + later;
    assert output + (([row] + here) + later) == output + [row] + (here + later);
  }

  lemma HeadPreorder(forest: seq<Entry>, item: Item)
    requires ParentsFirst(forest) && Registered(forest, item.id)
    ensures Preorder(forest, item) ==
      [Row(item.id, item.prefix + item.branch, item.depth)]
        + PreorderKids(forest, item.id, 0, ChildPrefix(item), item.depth + 1)
  {
    hide PreorderKids, Registered, Children, ParentsFirst;
  }

  lemma PreorderHead(forest: seq<Entry>, rest: seq<Item>)
    requires ParentsFirst(forest) && Known(forest, rest) && rest != []
    ensures Registered(forest, rest[0].id) && Known(forest, rest[1..])
    ensures PreorderAll(forest, rest) == Preorder(forest, rest[0]) + PreorderAll(forest, rest[1..])
  {
    KnownParts(forest, rest);
    hide Preorder, Registered, ParentsFirst;
  }

  function Reversed<T>(s: seq<T>): (r: seq<T>)
    ensures |r| == |s| && forall i :: 0 <= i < |s| ==> r[i] == s[|s| - 1 - i]
  {
    if s == [] then [] else Reversed(s[1..]) + [s[0]]
  }

  lemma ReversedLast<T>(s: seq<T>)
    requires s != []
    ensures Reversed(s)[|s| - 1] == s[0] && Reversed(s)[..|s| - 1] == Reversed(s[1..])
  {
  }

  lemma ReversedCons<T>(x: T, s: seq<T>)
    ensures Reversed([x] + s) == Reversed(s) + [x]
  {
  }

  lemma ReversedConcat<T>(a: seq<T>, b: seq<T>)
    ensures Reversed(a + b) == Reversed(b) + Reversed(a)
  {
  }

  lemma TreeIs(forest: seq<Entry>)
    requires ParentsFirst(forest)
    ensures Known(forest, Roots(Children(forest, None)))
      && Tree(forest) == PreorderAll(forest, Roots(Children(forest, None)))
  {
    RootsKnown(forest);
  }

  lemma KnownParts(forest: seq<Entry>, items: seq<Item>)
    requires Known(forest, items) && items != []
    ensures Registered(forest, items[0].id) && Known(forest, items[1..])
  {
  }
}
