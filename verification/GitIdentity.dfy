/** What a commit id says about the files listed for it. */
module GitIdentity {
  import opened Text
  import opened GitTree
  import opened GitBatch
  import opened GitCommit
  import opened GitFlatten
  import opened GitWalk
  import opened GitInventory
  import Order
  import Sorting

  // ----- no listed path is a directory of another

  ghost predicate NoNesting(rows: seq<Row>) {
    forall i, j :: 0 <= i < |rows| && 0 <= j < |rows| ==>
      && (i != j ==> rows[i].path != rows[j].path)
      && !(rows[i].path + [SLASH] <= rows[j].path)
  }

  /** `path` is the entry `name` of the tree at `prefix`, or lies below it. */
  predicate Under(path: seq<Byte>, prefix: seq<Byte>, name: seq<Byte>) {
    path == prefix + name || prefix + name + [SLASH] <= path
  }

  /** `path` lies at or below one of the first `count` entries. */
  ghost predicate UnderSome(path: seq<Byte>, prefix: seq<Byte>, es: seq<Entry>, count: nat)
    requires count <= |es|
  {
    exists k :: 0 <= k < count && Under(path, prefix, es[k].name)
  }

  lemma UnderUnique(path: seq<Byte>, prefix: seq<Byte>, a: seq<Byte>, b: seq<Byte>)
    requires Under(path, prefix, a) && Under(path, prefix, b) && SLASH !in a && SLASH !in b
    ensures a == b
  {
    var tail := path[|prefix|..];
    assert tail[..|a|] == a && (|tail| == |a| || tail[|a|] == SLASH) by {
      assert path == prefix + a || path[..|prefix + a + [SLASH]|] == prefix + a + [SLASH];
    }
    assert tail[..|b|] == b && (|tail| == |b| || tail[|b|] == SLASH) by {
      assert path == prefix + b || path[..|prefix + b + [SLASH]|] == prefix + b + [SLASH];
    }
    assert forall k :: 0 <= k < |a| ==> tail[k] == a[k] && a[k] != SLASH;
    assert forall k :: 0 <= k < |b| ==> tail[k] == b[k] && b[k] != SLASH;
  }

  lemma UnderExtends(p: seq<Byte>, q: seq<Byte>, prefix: seq<Byte>, name: seq<Byte>)
    requires Under(p, prefix, name) && (p == q || p + [SLASH] <= q)
    ensures Under(q, prefix, name)
  {
    var front := prefix + name + [SLASH];
    if p != q && p != prefix + name {
      assert q[..|front|] == (p + [SLASH])[..|front|] == p[..|front|];
    }
  }

  lemma {:induction false} FlattenNoNesting(store: Store, size: nat, dir: Pending, fuel: nat)
    requires Flatten(store, size, dir, fuel).Some?
    ensures var rows := Flatten(store, size, dir, fuel).value;
      NoNesting(rows) && forall i :: 0 <= i < |rows| ==> dir.prefix <= rows[i].path
    decreases fuel, 0
  {
    hide Parse;
    var es := Parse(store[dir.oid], size).value;
    ParseIsInverseOfEncode(store[dir.oid], es, size);
    EntriesNoNesting(store, size, es, dir.prefix, fuel - 1);
    var rows := Flatten(store, size, dir, fuel).value;
    forall i | 0 <= i < |rows| ensures dir.prefix <= rows[i].path {
      assert UnderSome(rows[i].path, dir.prefix, es, |es|);
    }
  }

  lemma {:induction false} EntriesNoNesting(store: Store, size: nat, es: seq<Entry>, prefix: seq<Byte>, fuel: nat)
    requires Legal(es, size) && FlattenEntries(store, size, es, prefix, fuel).Some?
    ensures var rows := FlattenEntries(store, size, es, prefix, fuel).value;
      && NoNesting(rows)
      && forall i :: 0 <= i < |rows| ==> UnderSome(rows[i].path, prefix, es, |es|)
    decreases fuel, |es| + 1
  {
    hide Flatten, Under;
    if es != [] {
      var init, e := es[..|es| - 1], es[|es| - 1];
      EntriesNoNesting(store, size, init, prefix, fuel);
      var before := FlattenEntries(store, size, init, prefix, fuel).value;
      var here := if e.mode == DIRECTORY then Flatten(store, size, Child(e, prefix), fuel).value
        else [FileRow(e, prefix)];
      if e.mode == DIRECTORY {
        FlattenNoNesting(store, size, Child(e, prefix), fuel);
      }
      forall i | 0 <= i < |here| ensures Under(here[i].path, prefix, e.name) {
        UnderHere(here[i].path, prefix, e.name);
      }
      forall i | 0 <= i < |before| ensures UnderSome(before[i].path, prefix, es, |es| - 1) {
        assert UnderSome(before[i].path, prefix, init, |init|);
        var k :| 0 <= k < |init| && Under(before[i].path, prefix, init[k].name);
        assert init[k] == es[k];
      }
      NestingConcat(before, here, prefix, es);
    }
  }

  lemma UnderHere(path: seq<Byte>, prefix: seq<Byte>, name: seq<Byte>)
    ensures (path == prefix + name || prefix + name + [SLASH] <= path) ==> Under(path, prefix, name)
  {
  }

  lemma NestingConcat(before: seq<Row>, here: seq<Row>, prefix: seq<Byte>, es: seq<Entry>)
    requires es != [] && forall i :: 0 <= i < |es| ==> SLASH !in es[i].name
    requires forall i, j :: 0 <= i < j < |es| ==> es[i].name != es[j].name
    requires NoNesting(before) && NoNesting(here)
    requires forall i :: 0 <= i < |before| ==> UnderSome(before[i].path, prefix, es, |es| - 1)
    requires forall i :: 0 <= i < |here| ==> Under(here[i].path, prefix, es[|es| - 1].name)
    ensures NoNesting(before + here)
    ensures forall i :: 0 <= i < |before + here| ==> UnderSome((before + here)[i].path, prefix, es, |es|)
  {
    hide Under, NoNesting, Apart;
    var all := before + here;
    forall i | 0 <= i < |all| ensures UnderSome(all[i].path, prefix, es, |es|) {
      if i < |before| {
        assert UnderSome(before[i].path, prefix, es, |es| - 1);
        var k :| 0 <= k < |es| - 1 && Under(before[i].path, prefix, es[k].name);
      } else {
        assert Under(here[i - |before|].path, prefix, es[|es| - 1].name);
      }
    }
    forall i, j | 0 <= i < |before| && 0 <= j < |here| ensures Apart(before[i].path, here[j].path) {
      assert UnderSome(before[i].path, prefix, es, |es| - 1);
      var k :| 0 <= k < |es| - 1 && Under(before[i].path, prefix, es[k].name);
      UnderApart(before[i].path, here[j].path, prefix, es[k].name, es[|es| - 1].name);
    }
    NestingApart(before, here);
  }

  predicate Apart(p: seq<Byte>, q: seq<Byte>) {
    p != q && !(p + [SLASH] <= q) && !(q + [SLASH] <= p)
  }

  lemma UnderApart(p: seq<Byte>, q: seq<Byte>, prefix: seq<Byte>, a: seq<Byte>, b: seq<Byte>)
    requires Under(p, prefix, a) && Under(q, prefix, b) && SLASH !in a && SLASH !in b && a != b
    ensures Apart(p, q)
  {
    hide Under;
    if !Apart(p, q) {
      if p == q || p + [SLASH] <= q {
        UnderExtends(p, q, prefix, a);
        UnderUnique(q, prefix, a, b);
      } else {
        UnderExtends(q, p, prefix, b);
        UnderUnique(p, prefix, a, b);
      }
    }
  }

  lemma NestingApart(before: seq<Row>, here: seq<Row>)
    requires NoNesting(before) && NoNesting(here)
    requires forall i, j :: 0 <= i < |before| && 0 <= j < |here| ==> Apart(before[i].path, here[j].path)
    ensures NoNesting(before + here)
  {
    var all := before + here;
    forall i, j | 0 <= i < |all| && 0 <= j < |all|
      ensures (i != j ==> all[i].path != all[j].path) && !(all[i].path + [SLASH] <= all[j].path)
    {
      if i < |before| <= j {
        assert Apart(before[i].path, here[j - |before|].path);
      } else if j < |before| <= i {
        assert Apart(before[j].path, here[i - |before|].path);
      }
    }
  }

  /** In a returned inventory paths are distinct and none is a directory of another. */
  lemma InventoryNoNesting(h: Digest, store: Store, tree: seq<Byte>, rows: seq<Row>)
    requires IsInventory(h, store, tree, rows)
    ensures NoNesting(rows)
  {
    hide Flatten;
    FlattenNoNesting(store, |tree| / 2, Pending(tree, []), MAX_DEPTH);
    var flat := Flatten(store, |tree| / 2, Pending(tree, []), MAX_DEPTH).value;
    forall i, j | 0 <= i < |rows| && 0 <= j < |rows|
      ensures (i != j ==> rows[i].path != rows[j].path) && !(rows[i].path + [SLASH] <= rows[j].path)
    {
      Order.Irreflexive(rows[i].path);
      assert rows[i] in multiset(flat) && rows[j] in multiset(flat);
      var a :| 0 <= a < |flat| && flat[a] == rows[i];
      var b :| 0 <= b < |flat| && flat[b] == rows[j];
      assert !(flat[a].path + [SLASH] <= flat[b].path);
    }
  }

  // ----- equal ids, equal inventories

  /** The two stores hold different bodies, with one digest, under one object id. */
  ghost predicate StoresCollide(h: Digest, s: Store, t: Store) {
    exists oid :: oid in s && oid in t && s[oid] != t[oid]
      && ObjectDigest(h, Tree, s[oid], oid) == ObjectDigest(h, Tree, t[oid], oid)
  }

  /** Two commit documents are different and have one digest. */
  predicate CommitsCollide(h: Digest, commit: seq<Byte>, a: seq<Byte>, b: seq<Byte>) {
    a != b && ObjectDigest(h, Commit, a, commit) == ObjectDigest(h, Commit, b, commit)
  }

  lemma {:induction false} SameFlatten(h: Digest, s: Store, t: Store, size: nat, dir: Pending, fuel: nat)
    requires Verified(h, s) && Verified(h, t) && !StoresCollide(h, s, t)
    requires Flatten(s, size, dir, fuel).Some? && Flatten(t, size, dir, fuel).Some?
    ensures Flatten(s, size, dir, fuel) == Flatten(t, size, dir, fuel)
    decreases fuel, 0
  {
    hide Parse;
    assert ObjectDigest(h, Tree, s[dir.oid], dir.oid) == ObjectDigest(h, Tree, t[dir.oid], dir.oid);
    assert s[dir.oid] == t[dir.oid];
    SameFlattenEntries(h, s, t, size, Parse(s[dir.oid], size).value, dir.prefix, fuel - 1);
  }

  lemma {:induction false} SameFlattenEntries(h: Digest, s: Store, t: Store, size: nat, es: seq<Entry>,
      prefix: seq<Byte>, fuel: nat)
    requires Verified(h, s) && Verified(h, t) && !StoresCollide(h, s, t)
    requires FlattenEntries(s, size, es, prefix, fuel).Some? && FlattenEntries(t, size, es, prefix, fuel).Some?
    ensures FlattenEntries(s, size, es, prefix, fuel) == FlattenEntries(t, size, es, prefix, fuel)
    decreases fuel, |es| + 1
  {
    hide Flatten;
    if es != [] {
      SameFlattenEntries(h, s, t, size, es[..|es| - 1], prefix, fuel);
      if es[|es| - 1].mode == DIRECTORY {
        SameFlatten(h, s, t, size, Child(es[|es| - 1], prefix), fuel);
      }
    }
  }

  lemma SameTreeSameRows(h: Digest, s: Store, t: Store, tree: seq<Byte>, a: seq<Row>, b: seq<Row>)
    requires IsInventory(h, s, tree, a) && IsInventory(h, t, tree, b) && !StoresCollide(h, s, t)
    ensures a == b
  {
    hide Flatten;
    SameFlatten(h, s, t, |tree| / 2, Pending(tree, []), MAX_DEPTH);
    Sorting.AscendingUnique(a, b, (row: Row) => row.path);
  }

  /** Whatever Git answered and however often: two inventories returned for one commit id list the same
      rows, unless the commit documents read, or two tree bodies read under one id, collide. */
  lemma SameCommitSameRows(h: Digest, commit: seq<Byte>, document: seq<Byte>, document': seq<Byte>,
      tree: seq<Byte>, tree': seq<Byte>, parent: Option<seq<Byte>>, parent': Option<seq<Byte>>,
      s: Store, t: Store, a: seq<Row>, b: seq<Row>)
    requires CommitBinds(h, document, commit, tree, parent) && CommitBinds(h, document', commit, tree', parent')
    requires IsInventory(h, s, tree, a) && IsInventory(h, t, tree', b)
    ensures (tree == tree' && a == b) || CommitsCollide(h, commit, document, document') || StoresCollide(h, s, t)
  {
    if !CommitsCollide(h, commit, document, document') && !StoresCollide(h, s, t) {
      assert document == document';
      assert tree == (TREE_HEADER + tree)[|TREE_HEADER|..] && tree' == (TREE_HEADER + tree')[|TREE_HEADER|..];
      SameTreeSameRows(h, s, t, tree, a, b);
    }
  }
}
