/** Python's `sorted(items, key=...)` where all keys differ. */
module Sorting {
  import Order

  predicate AscendingBy<T(!new)>(items: seq<T>, key: T -> seq<int>) {
    forall i, j :: 0 <= i < j < |items| ==> Order.Less(key(items[i]), key(items[j]))
  }

  predicate DistinctBy<T(!new)>(items: seq<T>, key: T -> seq<int>) {
    forall i, j :: 0 <= i < j < |items| ==> key(items[i]) != key(items[j])
  }

  function Insert<T>(item: T, items: seq<T>, key: T -> seq<int>): (r: seq<T>)
    ensures |r| == |items| + 1
  {
    if items == [] || Order.Less(key(item), key(items[0])) then [item] + items
    else [items[0]] + Insert(item, items[1..], key)
  }

  function SortBy<T>(items: seq<T>, key: T -> seq<int>): (r: seq<T>)
    ensures |r| == |items|
  {
    if items == [] then [] else Insert(items[0], SortBy(items[1..], key), key)
  }

  lemma {:induction false} InsertKeeps<T>(item: T, items: seq<T>, key: T -> seq<int>)
    ensures multiset(Insert(item, items, key)) == multiset(items) + multiset{item}
  {
    if items != [] && !Order.Less(key(item), key(items[0])) {
      InsertKeeps(item, items[1..], key);
      assert items == [items[0]] + items[1..];
    }
  }

  /** Sorting permutes. */
  lemma {:induction false} SortKeeps<T>(items: seq<T>, key: T -> seq<int>)
    ensures multiset(SortBy(items, key)) == multiset(items)
  {
    if items != [] {
      SortKeeps(items[1..], key);
      InsertKeeps(items[0], SortBy(items[1..], key), key);
      assert items == [items[0]] + items[1..];
    }
  }

  lemma Members<T>(a: seq<T>, b: seq<T>, k: nat) returns (i: nat)
    requires multiset(a) == multiset(b) && k < |a|
    ensures i < |b| && b[i] == a[k]
  {
    assert a[k] in multiset(b);
    i :| i < |b| && b[i] == a[k];
  }

  lemma {:induction false} InsertAscends<T(!new)>(item: T, items: seq<T>, key: T -> seq<int>)
    requires AscendingBy(items, key) && forall i :: 0 <= i < |items| ==> key(items[i]) != key(item)
    ensures AscendingBy(Insert(item, items, key), key)
  {
    hide Order.Less;
    if items != [] {
      Order.Total(key(item), key(items[0]));
      if Order.Less(key(item), key(items[0])) {
        forall i | 0 < i < |items| ensures Order.Less(key(item), key(items[i])) {
          Order.Transitive(key(item), key(items[0]), key(items[i]));
        }
      } else {
        InsertAscends(item, items[1..], key);
        InsertKeeps(item, items[1..], key);
        var rest := Insert(item, items[1..], key);
        forall k | 0 <= k < |rest| ensures Order.Less(key(items[0]), key(rest[k])) {
          var i := Members(rest, items[1..] + [item], k);
        }
      }
    }
  }

  /** Sorting distinct keys ascends strictly. */
  lemma {:induction false} SortAscends<T(!new)>(items: seq<T>, key: T -> seq<int>)
    requires DistinctBy(items, key)
    ensures AscendingBy(SortBy(items, key), key)
  {
    if items != [] {
      SortAscends(items[1..], key);
      SortKeeps(items[1..], key);
      var rest := SortBy(items[1..], key);
      forall k | 0 <= k < |rest| ensures key(rest[k]) != key(items[0]) {
        var i := Members(rest, items[1..], k);
        assert items[i + 1] == rest[k];
      }
      InsertAscends(items[0], rest, key);
    }
  }

  lemma AscendingHead<T(!new)>(a: seq<T>, b: seq<T>, key: T -> seq<int>)
    requires AscendingBy(a, key) && AscendingBy(b, key) && multiset(a) == multiset(b) && a != [] && b != []
    ensures a[0] == b[0]
  {
    hide Order.Less;
    var i := Members(a, b, 0);
    var j := Members(b, a, 0);
    if i > 0 && j > 0 {
      Order.Transitive(key(a[0]), key(b[0]), key(a[0]));
      Order.Irreflexive(key(a[0]));
    }
  }

  /** An ascending listing is determined by what it lists. */
  lemma {:induction false} AscendingUnique<T(!new)>(a: seq<T>, b: seq<T>, key: T -> seq<int>)
    requires AscendingBy(a, key) && AscendingBy(b, key) && multiset(a) == multiset(b)
    ensures a == b
  {
    assert |a| == |multiset(a)| && |b| == |multiset(b)|;
    if a != [] {
      AscendingHead(a, b, key);
      assert a == [a[0]] + a[1..] && b == [b[0]] + b[1..];
      assert multiset(a[1..]) == multiset(a) - multiset{a[0]} == multiset(b[1..]);
      AscendingUnique(a[1..], b[1..], key);
    }
  }

  lemma AscendingIsDistinct<T(!new)>(items: seq<T>, key: T -> seq<int>)
    requires AscendingBy(items, key)
    ensures DistinctBy(items, key)
  {
    forall i, j | 0 <= i < j < |items| ensures key(items[i]) != key(items[j]) {
      Order.Irreflexive(key(items[i]));
    }
  }

  lemma DistinctAppend<T(!new)>(items: seq<T>, item: T, key: T -> seq<int>)
    requires DistinctBy(items, key) && forall i :: 0 <= i < |items| ==> key(items[i]) != key(item)
    ensures DistinctBy(items + [item], key)
  {
  }

  /** Distinct keys are a matter of which items there are, not of their order. */
  lemma DistinctPermuted<T(!new)>(a: seq<T>, b: seq<T>, key: T -> seq<int>)
    requires DistinctBy(a, key) && multiset(a) == multiset(b)
    ensures DistinctBy(b, key)
  {
    forall i, j | 0 <= i < j < |b| ensures key(b[i]) != key(b[j]) {
      if key(b[i]) == key(b[j]) {
        TwoPlaces(b, a, i, j, key);
      }
    }
  }

  lemma {:induction false} TwoPlaces<T(!new)>(b: seq<T>, a: seq<T>, i: nat, j: nat, key: T -> seq<int>)
    requires i < j < |b| && key(b[i]) == key(b[j]) && multiset(a) == multiset(b)
    ensures !DistinctBy(a, key)
  {
    if b[i] != b[j] {
      var k := Members(b, a, i);
      var l := Members(b, a, j);
      assert key(a[k]) == key(a[l]);
    } else {
      assert b == b[..j] + [b[j]] + b[j + 1..];
      assert b[i] in b[..j];
      assert multiset(b)[b[i]] >= 2;
      Twice(a, b[i]);
    }
  }

  lemma {:induction false} Twice<T(!new)>(a: seq<T>, item: T)
    requires multiset(a)[item] >= 2
    ensures exists k, l :: 0 <= k < l < |a| && a[k] == a[l] == item
  {
    assert a == [a[0]] + a[1..];
    if a[0] == item {
      assert item in multiset(a[1..]);
      var l :| 0 <= l < |a[1..]| && a[1..][l] == item;
      assert a[0] == a[l + 1] == item;
    } else {
      Twice(a[1..], item);
      var k, l :| 0 <= k < l < |a[1..]| && a[1..][k] == a[1..][l] == item;
      assert a[k + 1] == a[l + 1] == item;
    }
  }
}
