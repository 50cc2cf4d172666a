/** `final_assay.select_final_candidate`: the finalists, the floor draw among them, and its fairness. */
module FinalSelection {
  import opened Text
  import Order

  type Id = seq<Code>

  /** Development evidence of one archive member; the two figures are compared here, never computed. */
  datatype Score = Score(rate: real, reliability: real)

  /** The members of an archive, keyed by candidate identity. */
  type Members = map<Id, Score>

  /** An exact draw; `normalize_draw` admits only fair ones into a task profile. */
  datatype Draw = Draw(numerator: nat, denominator: nat)

  predicate Fair(draw: Draw) {
    draw.numerator < draw.denominator
  }

  // ----- the finalists

  ghost predicate NonEmpty(values: set<real>) {
    exists v :: v in values
  }

  lemma GreatestExists(values: set<real>) returns (best: real)
    requires NonEmpty(values)
    ensures best in values && forall v :: v in values ==> v <= best
  {
    best :| best in values;
    var rest := values - {best};
    assert forall v :: v in values ==> v == best || v in rest;
    if NonEmpty(rest) {
      var other := GreatestExists(rest);
      best := if other > best then other else best;
    }
  }

  /** Python's `max` over a non-empty collection. */
  function Greatest(values: set<real>): (best: real)
    requires NonEmpty(values)
    ensures best in values && forall v :: v in values ==> v <= best
  {
    assert exists best :: best in values && forall v :: v in values ==> v <= best by {
      var best := GreatestExists(values);
    }
    var best :| best in values && forall v :: v in values ==> v <= best;
    best
  }

  lemma Inhabited(members: Members) returns (id: Id)
    requires members != map[]
    ensures id in members
  {
    assert members.Keys == {} ==> members == map[];
    id :| id in members.Keys;
  }

  function Rates(members: Members): (values: set<real>)
    requires members != map[]
    ensures NonEmpty(values)
  {
    var values := set id | id in members :: members[id].rate;
    assert NonEmpty(values) by {
      var id := Inhabited(members);
      assert members[id].rate in values;
    }
    values
  }

  function BestRate(members: Members): real
    requires members != map[]
  {
    Greatest(Rates(members))
  }

  /** The reliabilities of the members that reach the best rate. */
  function TopReliabilities(members: Members): (values: set<real>)
    requires members != map[]
    ensures NonEmpty(values)
  {
    var values := set id | id in members && members[id].rate == BestRate(members) :: members[id].reliability;
    assert NonEmpty(values) by {
      assert BestRate(members) in Rates(members);
      var id :| id in members && members[id].rate == BestRate(members);
      assert members[id].reliability in values;
    }
    values
  }

  /** `eligible`, before sorting. */
  function Finalists(members: Members): (finalists: set<Id>)
    requires members != map[]
    ensures finalists != {} && finalists <= members.Keys
  {
    var best := Greatest(TopReliabilities(members));
    var finalists := set id | id in members && members[id].rate == BestRate(members) && members[id].reliability == best;
    assert finalists != {} by {
      assert best in TopReliabilities(members);
      var id :| id in members && members[id].rate == BestRate(members) && members[id].reliability == best;
      assert id in finalists;
    }
    finalists
  }

  /** Capability first: a better task rate, or the same rate and better reliability. */
  predicate Beats(a: Score, b: Score) {
    a.rate > b.rate || (a.rate == b.rate && a.reliability > b.reliability)
  }

  /** The two maxima pick exactly the members that no member beats. */
  lemma FinalistsAreUnbeaten(members: Members, id: Id)
    requires members != map[]
    ensures id in Finalists(members)
      <==> id in members && forall other :: other in members ==> !Beats(members[other], members[id])
  {
    assert forall other :: other in members ==> members[other].rate in Rates(members);
    forall other | other in members && members[other].rate == BestRate(members)
      ensures members[other].reliability in TopReliabilities(members)
    {
    }
    var champion :| champion in Finalists(members);
    if id in members && id !in Finalists(members) {
      assert Beats(members[champion], members[id]);
    }
  }

  // ----- the floor draw

  /** `numerator * count // denominator`. */
  function Pick(draw: Draw, count: nat): (index: nat)
    requires Fair(draw) && count > 0
    ensures index < count
  {
    Below(draw.numerator * count, draw.denominator, count, draw.numerator);
    draw.numerator * count / draw.denominator
  }

  lemma Grows(c: nat, gap: nat)
    ensures c * gap >= 0
    ensures gap > 0 ==> c * gap >= c
  {
    if gap > 0 {
      assert c * gap == c * (gap - 1) + c;
    }
  }

  lemma Scaled(c: nat, x: int, y: int)
    requires c > 0
    ensures x <= y <==> c * x <= c * y
  {
    if x <= y {
      Grows(c, y - x);
      assert c * (y - x) == c * y - c * x;
    } else {
      Grows(c, x - y);
      assert c * (x - y) == c * x - c * y;
    }
  }

  lemma DivisionBounds(a: nat, b: nat)
    requires b > 0
    ensures b * (a / b) <= a < b * (a / b) + b
  {
    assert a == b * (a / b) + a % b;
  }

  lemma Below(product: nat, denominator: nat, count: nat, numerator: nat)
    requires numerator < denominator && count > 0 && product == numerator * count
    ensures product / denominator < count
  {
    DivisionBounds(product, denominator);
    Scaled(count, denominator, numerator);
    Scaled(denominator, count, product / denominator);
  }

  /** The smallest whole number no less than `a / b`. */
  function Ceiling(a: nat, b: nat): nat
    requires b > 0
  {
    (a + b - 1) / b
  }

  lemma CeilingBounds(a: nat, b: nat)
    requires b > 0
    ensures b * Ceiling(a, b) - b < a <= b * Ceiling(a, b)
  {
    DivisionBounds(a + b - 1, b);
  }

  lemma AtLeastCeiling(a: nat, b: nat, x: nat)
    requires b > 0
    ensures x >= Ceiling(a, b) <==> b * x >= a
  {
    CeilingBounds(a, b);
    hide Ceiling;
    Scaled(b, Ceiling(a, b), x);
    Scaled(b, x, Ceiling(a, b) - 1);
  }

  lemma QuotientIs(a: nat, b: nat, i: nat)
    requires b > 0
    ensures a / b == i <==> b * i <= a < b * i + b
  {
    DivisionBounds(a, b);
    Scaled(b, i, a / b);
    Scaled(b, a / b, i);
    Scaled(b, i + 1, a / b);
    Scaled(b, a / b + 1, i);
  }

  /** The numerators, out of `denominator`, that pick index `i` among `count`. */
  function Choosers(denominator: nat, count: nat, i: nat): set<nat>
    requires count > 0
  {
    set numerator: nat | 0 <= numerator < denominator && Pick(Draw(numerator, denominator), count) == i
  }

  function Range(low: nat, high: nat): (s: set<nat>)
    requires low <= high
    ensures forall x: nat :: x in s <==> low <= x < high
    ensures |s| == high - low
    decreases high
  {
    if low == high then {} else Range(low, high - 1) + {high - 1}
  }

  lemma PicksBetween(denominator: nat, count: nat, i: nat, x: nat)
    requires x < denominator && count > 0
    ensures Pick(Draw(x, denominator), count) == i
      <==> Ceiling(denominator * i, count) <= x < Ceiling(denominator * (i + 1), count)
  {
    AtLeastCeiling(denominator * i, count, x);
    AtLeastCeiling(denominator * (i + 1), count, x);
    hide Ceiling;
    QuotientIs(x * count, denominator, i);
    assert x * count == count * x;
    assert denominator * (i + 1) == denominator * i + denominator;
  }

  lemma CeilingsClimb(denominator: nat, count: nat, i: nat)
    requires denominator > 0 && i < count
    ensures Ceiling(denominator * i, count) <= Ceiling(denominator * (i + 1), count) <= denominator
  {
    var high := Ceiling(denominator * (i + 1), count);
    assert denominator * (i + 1) == denominator * i + denominator;
    CeilingBounds(denominator * (i + 1), count);
    AtLeastCeiling(denominator * i, count, high);
    AtLeastCeiling(denominator * (i + 1), count, denominator);
    Scaled(denominator, i + 1, count);
    assert count * denominator == denominator * count;
  }

  /** Index `i` is drawn by one unbroken run of numerators. */
  lemma ChoosersAreARange(denominator: nat, count: nat, i: nat)
    requires denominator > 0 && i < count
    ensures Ceiling(denominator * i, count) <= Ceiling(denominator * (i + 1), count)
    ensures Choosers(denominator, count, i) ==
      Range(Ceiling(denominator * i, count), Ceiling(denominator * (i + 1), count))
  {
    hide Ceiling, Choosers;
    CeilingsClimb(denominator, count, i);
    var low, high := Ceiling(denominator * i, count), Ceiling(denominator * (i + 1), count);
    forall x: nat ensures x in Choosers(denominator, count, i) <==> x in Range(low, high) {
      ChooserIs(denominator, count, i, x);
    }
    SameSet(Choosers(denominator, count, i), Range(low, high));
  }

  lemma ChooserIs(denominator: nat, count: nat, i: nat, x: nat)
    requires denominator > 0 && i < count
    ensures x in Choosers(denominator, count, i)
      <==> Ceiling(denominator * i, count) <= x < Ceiling(denominator * (i + 1), count)
  {
    hide Ceiling, Pick;
    CeilingsClimb(denominator, count, i);
    if x < denominator {
      PicksBetween(denominator, count, i, x);
    }
  }

  lemma SameSet(a: set<nat>, b: set<nat>)
    requires forall x: nat :: x in a <==> x in b
    ensures a == b
  {
  }

  lemma GapIsFloorOrCeiling(denominator: nat, count: nat, size: nat)
    requires count > 0 && denominator - count < count * size < denominator + count
    ensures size == denominator / count || size == Ceiling(denominator, count)
  {
    CeilingBounds(denominator, count);
    DivisionBounds(denominator, count);
    hide Ceiling;
    var floor, ceiling := denominator / count, Ceiling(denominator, count);
    assert count * (ceiling + 1) == count * ceiling + count;
    assert count * (floor - 1) == count * floor - count;
    assert count * (floor + 2) == count * floor + 2 * count;
    Scaled(count, ceiling + 1, size);
    Scaled(count, size, floor - 1);
    Scaled(count, floor + 2, ceiling);
  }

  lemma CeilingGap(a: nat, step: nat, count: nat)
    requires count > 0 && Ceiling(a, count) <= Ceiling(a + step, count)
    ensures var size := Ceiling(a + step, count) - Ceiling(a, count);
      size == step / count || size == Ceiling(step, count)
  {
    hide Ceiling;
    CeilingBounds(a, count);
    CeilingBounds(a + step, count);
    var low, high := Ceiling(a, count), Ceiling(a + step, count);
    Difference(count, high, low);
    GapIsFloorOrCeiling(step, count, high - low);
  }

  /** Fairness: over all numerators, each of `count` finalists is drawn floor or ceiling of `denominator / count`
      times. */
  lemma DrawIsFair(denominator: nat, count: nat, i: nat)
    requires denominator > 0 && i < count
    ensures |Choosers(denominator, count, i)| == denominator / count
      || |Choosers(denominator, count, i)| == Ceiling(denominator, count)
  {
    hide Choosers, Ceiling;
    ChoosersAreARange(denominator, count, i);
    NextMultiple(denominator, i);
    CeilingGap(denominator * i, denominator, count);
  }

  lemma Difference(count: nat, high: nat, low: nat)
    ensures count * (high - low) == count * high - count * low
  {
  }

  lemma NextMultiple(denominator: nat, i: nat)
    ensures denominator * (i + 1) == denominator * i + denominator
  {
  }

  // ----- the selection

  function SortedIds(s: set<Id>): (keys: seq<Id>)
    ensures Order.Ascending(keys) && Order.Lists(keys, s)
  {
    var keys := Order.Sorted(s);
    assert forall i :: 0 <= i < |keys| ==> keys[i] in s;
    keys
  }

  function Position(keys: seq<Id>, id: Id): (index: nat)
    requires id in keys
    ensures index < |keys| && keys[index] == id && forall k :: 0 <= k < index ==> keys[k] != id
  {
    if keys[0] == id then 0 else 1 + Position(keys[1..], id)
  }

  datatype Selection = Selection(candidate: Id, draw: Draw, finalists: seq<Id>)

  /** The chosen finalist and the draw that makes the full-archive allocation choose it too
      (`_expected_final_selection`, and the middle of `select_final_candidate`). */
  function Select(members: Members, tie: Draw): (s: Selection)
    requires members != map[] && Fair(tie)
  {
    var eligible := SortedIds(Finalists(members));
    var selected := eligible[Pick(tie, |eligible|)];
    assert selected in Finalists(members);
    var all := SortedIds(members.Keys);
    Selection(selected, Draw(Position(all, selected), |all|), eligible)
  }

  /** `_allocation_body`: the member Population's uniform policy draws from a whole archive. */
  function Allocated(members: Members, draw: Draw): (id: Id)
    requires members != map[] && Fair(draw)
    ensures id in members
  {
    assert Finalists(members) <= members.Keys;
    var ordered := SortedIds(members.Keys);
    var id := ordered[Pick(draw, |ordered|)];
    assert id in ordered;
    id
  }

  /** Population, drawing over the whole archive, lands exactly on the finalist already chosen. */
  lemma DerivedDrawLandsOnSelected(members: Members, tie: Draw)
    requires members != map[] && Fair(tie)
    ensures var s := Select(members, tie);
      && Fair(s.draw)
      && Allocated(members, s.draw) == s.candidate
      && s.candidate in s.finalists
  {
    hide Finalists;
    var s := Select(members, tie);
    var n := s.draw.denominator;
    DrawBack(s.draw);
  }

  lemma DrawBack(draw: Draw)
    requires Fair(draw)
    ensures Pick(draw, draw.denominator) == draw.numerator
  {
    QuotientIs(draw.numerator * draw.denominator, draw.denominator, draw.numerator);
    assert draw.denominator * draw.numerator == draw.numerator * draw.denominator;
  }

  // ----- what the selection is, apart from how it is computed

  ghost predicate Unbeaten(members: Members, id: Id) {
    id in members && forall other :: other in members ==> !Beats(members[other], members[id])
  }

  /** The members whose identities sort before `id`. */
  ghost function Earlier(members: Members, id: Id): set<Id> {
    set other | other in members && Order.Less(other, id)
  }

  /** `finalists` are the unbeaten members in ascending order, `candidate` is the one the tie draw falls on, and `draw`
      is its rank among all members, over their number. */
  ghost predicate Rightly(members: Members, tie: Draw, finalists: seq<Id>, candidate: Id, draw: Draw) {
    && Order.Ascending(finalists) && (forall id :: id in finalists <==> Unbeaten(members, id))
    && tie.denominator > 0
    && 0 <= tie.numerator * |finalists| / tie.denominator < |finalists|
    && candidate == finalists[tie.numerator * |finalists| / tie.denominator]
    && draw == Draw(|Earlier(members, candidate)|, |members|)
  }

  lemma {:induction false} AscendingSize(keys: seq<Id>)
    requires Order.Ascending(keys)
    ensures |set k | k in keys| == |keys|
  {
    if keys != [] {
      var init, last := keys[..|keys| - 1], keys[|keys| - 1];
      AscendingSize(init);
      Order.Irreflexive(last);
      assert (set k | k in keys) == (set k | k in init) + {last};
    }
  }

  /** In a sorted list the position of an identity counts those that sort before it. */
  lemma RankIs(members: Members, keys: seq<Id>, at: nat)
    requires Order.Ascending(keys) && Order.Lists(keys, members.Keys) && at < |keys|
    ensures |Earlier(members, keys[at])| == at && |keys| == |members|
  {
    var before := keys[..at];
    AscendingSize(before);
    AscendingSize(keys);
    forall id ensures id in Earlier(members, keys[at]) <==> id in before {
      if id in Earlier(members, keys[at]) {
        var k :| 0 <= k < |keys| && keys[k] == id;
        NotBefore(keys, at, k);
      }
    }
    assert Earlier(members, keys[at]) == set k | k in before;
    assert members.Keys == set k | k in keys;
    assert |members.Keys| == |members|;
  }

  lemma NotBefore(keys: seq<Id>, at: nat, k: nat)
    requires Order.Ascending(keys) && at < |keys| && k < |keys| && Order.Less(keys[k], keys[at])
    ensures k < at
  {
    if k == at {
      Order.Irreflexive(keys[k]);
    } else if k > at {
      Order.Transitive(keys[k], keys[at], keys[k]);
      Order.Irreflexive(keys[k]);
    }
  }

  /** The selection is the right one. */
  lemma SelectsRightly(members: Members, tie: Draw)
    requires members != map[] && Fair(tie)
    ensures var s := Select(members, tie); Rightly(members, tie, s.finalists, s.candidate, s.draw)
    ensures Unbeaten(members, Select(members, tie).candidate)
  {
    hide Finalists, Pick;
    var s := Select(members, tie);
    forall id ensures id in s.finalists <==> Unbeaten(members, id) {
      FinalistsAreUnbeaten(members, id);
    }
    var all := SortedIds(members.Keys);
    RankIs(members, all, s.draw.numerator);
    PickIs(tie, |s.finalists|);
  }

  lemma PickIs(draw: Draw, count: nat)
    requires Fair(draw) && count > 0
    ensures Pick(draw, count) == draw.numerator * count / draw.denominator
  {
  }

  /** And there is only one. */
  lemma RightlyIsUnique(members: Members, tie: Draw, a: seq<Id>, b: seq<Id>, c: Id, d: Id, x: Draw, y: Draw)
    requires Rightly(members, tie, a, c, x) && Rightly(members, tie, b, d, y)
    ensures a == b && c == d && x == y
  {
    AscendingSame(a, b);
  }

  lemma FirstIn(b: seq<Id>)
    requires b != []
    ensures b[0] in b
  {
  }

  lemma {:induction false} AscendingSame(a: seq<Id>, b: seq<Id>)
    requires Order.Ascending(a) && Order.Ascending(b) && forall id :: id in a <==> id in b
    ensures a == b
  {
    if a == [] {
      if b != [] {
        FirstIn(b);
      }
    } else {
      assert a[0] in b;
      var k :| 0 <= k < |b| && b[k] == a[0];
      assert b[0] in a;
      var j :| 0 <= j < |a| && a[j] == b[0];
      if k > 0 {
        assert Order.Less(b[0], b[k]);
        NotBefore(a, 0, j);
      }
      Order.Irreflexive(a[0]);
      assert forall id :: id in a[1..] <==> id in a && id != a[0];
      assert forall id :: id in b[1..] <==> id in b && id != a[0];
      AscendingSame(a[1..], b[1..]);
      assert a == [a[0]] + a[1..] && b == [b[0]] + b[1..];
    }
  }
}
