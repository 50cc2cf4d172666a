/** The meaning of a Git tree: its recursive flattening, and why that equals a level-by-level walk. */
module GitFlatten {
  import opened Text
  import opened GitTree
  import opened GitBatch

  const DIRECTORY: seq<Byte> := [52, 48, 48, 48, 48]
  const FILE_MODES: set<seq<Byte>> := {
    [49, 48, 48, 54, 52, 52], [49, 48, 48, 55, 53, 53],
    [49, 50, 48, 48, 48, 48], [49, 54, 48, 48, 48, 48]
  }

  datatype Row = Row(path: seq<Byte>, mode: seq<Byte>, oid: seq<Byte>)

  /** A directory still to be read, with the path prefix of its entries. */
  datatype Pending = Pending(oid: seq<Byte>, prefix: seq<Byte>)

  function HexDigit(n: nat): Byte
    requires n < 16
  {
    if n < 10 then 48 + n else 87 + n
  }

  function Hex(raw: seq<Byte>): seq<Byte> {
    if raw == [] then [] else [HexDigit(raw[0] / 16), HexDigit(raw[0] % 16)] + Hex(raw[1..])
  }

  function Child(e: Entry, prefix: seq<Byte>): Pending {
    Pending(Hex(e.id), prefix + e.name + [SLASH])
  }

  function FileRow(e: Entry, prefix: seq<Byte>): Row {
    Row(prefix + e.name, e.mode, Hex(e.id))
  }

  /** All rows below one tree, entries in tree order, at most `fuel` directory levels deep.
      None when a tree is absent or malformed, a mode is unsupported, or the levels run out. */
  ghost function Flatten(store: Store, size: nat, dir: Pending, fuel: nat): Option<seq<Row>>
    decreases fuel, 0
  {
    if fuel == 0 || dir.oid !in store then None
    else
      var es := Parse(store[dir.oid], size);
      if es.None? then None else FlattenEntries(store, size, es.value, dir.prefix, fuel - 1)
  }

  ghost function FlattenEntries(store: Store, size: nat, es: seq<Entry>, prefix: seq<Byte>, fuel: nat): Option<seq<Row>>
    decreases fuel, |es| + 1
  {
    if es == [] then Some([]) else
      var e := es[|es| - 1];
      var before := FlattenEntries(store, size, es[..|es| - 1], prefix, fuel);
      var here :=
        if e.mode == DIRECTORY then Flatten(store, size, Child(e, prefix), fuel)
        else if e.mode in FILE_MODES then Some([FileRow(e, prefix)])
        else None;
      if before.None? || here.None? then None else Some(before.value + here.value)
  }

  // ----- one level of the walk

  function Files(es: seq<Entry>, prefix: seq<Byte>): seq<Row> {
    if es == [] then [] else
      var e := es[|es| - 1];
      Files(es[..|es| - 1], prefix) + (if e.mode == DIRECTORY then [] else [FileRow(e, prefix)])
  }

  function Dirs(es: seq<Entry>, prefix: seq<Byte>): seq<Pending> {
    if es == [] then [] else
      var e := es[|es| - 1];
      Dirs(es[..|es| - 1], prefix) + (if e.mode == DIRECTORY then [Child(e, prefix)] else [])
  }

  predicate Supported(es: seq<Entry>) {
    forall i :: 0 <= i < |es| ==> es[i].mode == DIRECTORY || es[i].mode in FILE_MODES
  }

  predicate Walkable(store: Store, size: nat, pending: seq<Pending>) {
    forall i :: 0 <= i < |pending| ==>
      && pending[i].oid in store
      && Parse(store[pending[i].oid], size).Some?
      && Supported(Parse(store[pending[i].oid], size).value)
  }

  function Entries(store: Store, size: nat, dir: Pending): seq<Entry>
    requires dir.oid in store && Parse(store[dir.oid], size).Some?
  {
    Parse(store[dir.oid], size).value
  }

  function LevelRows(store: Store, size: nat, pending: seq<Pending>): seq<Row>
    requires Walkable(store, size, pending)
  {
    if pending == [] then [] else
      var dir := pending[|pending| - 1];
      LevelRows(store, size, pending[..|pending| - 1]) + Files(Entries(store, size, dir), dir.prefix)
  }

  function LevelDirs(store: Store, size: nat, pending: seq<Pending>): seq<Pending>
    requires Walkable(store, size, pending)
  {
    if pending == [] then [] else
      var dir := pending[|pending| - 1];
      LevelDirs(store, size, pending[..|pending| - 1]) + Dirs(Entries(store, size, dir), dir.prefix)
  }

  // ----- a whole walk: levels of directories, each made of the directories of the one before

  ghost predicate Walk(store: Store, size: nat, levels: seq<seq<Pending>>) {
    forall k :: 0 <= k < |levels| - 1 ==>
      Walkable(store, size, levels[k]) && levels[k + 1] == LevelDirs(store, size, levels[k])
  }

  ghost function WalkRows(store: Store, size: nat, levels: seq<seq<Pending>>, count: nat): seq<Row>
    requires Walk(store, size, levels) && count < |levels|
  {
    if count == 0 then []
    else WalkRows(store, size, levels, count - 1) + LevelRows(store, size, levels[count - 1])
  }

  ghost function FlattenAll(store: Store, size: nat, pending: seq<Pending>, fuel: nat): Option<seq<Row>> {
    if pending == [] then Some([]) else
      var before := FlattenAll(store, size, pending[..|pending| - 1], fuel);
      var here := Flatten(store, size, pending[|pending| - 1], fuel);
      if before.None? || here.None? then None else Some(before.value + here.value)
  }

  lemma {:induction false} FlattenAllConcat(store: Store, size: nat, a: seq<Pending>, b: seq<Pending>, fuel: nat)
    ensures var fa, fb, fab := FlattenAll(store, size, a, fuel), FlattenAll(store, size, b, fuel),
      FlattenAll(store, size, a + b, fuel);
      fab == if fa.None? || fb.None? then None else Some(fa.value + fb.value)
  {
    hide Flatten;
    if b == [] {
      assert a + b == a;
      assert FlattenAll(store, size, a, fuel).Some? ==>
          FlattenAll(store, size, a, fuel).value + [] == FlattenAll(store, size, a, fuel).value;
    } else {
      assert (a + b)[..|a + b| - 1] == a + b[..|b| - 1];
      FlattenAllConcat(store, size, a, b[..|b| - 1], fuel);
      var fa, fb := FlattenAll(store, size, a, fuel), FlattenAll(store, size, b[..|b| - 1], fuel);
      var here := Flatten(store, size, b[|b| - 1], fuel);
      assert fa.Some? && fb.Some? && here.Some? ==>
          fa.value + fb.value + here.value == fa.value + (fb.value + here.value);
    }
  }

  lemma SumOfParts<T>(w0: seq<T>, w1: seq<T>, f0: seq<T>, f1: seq<T>, b0: seq<T>, b1: seq<T>)
    requires multiset(w0) == multiset(f0) + multiset(b0) && multiset(w1) == multiset(f1) + multiset(b1)
    ensures multiset(w0 + w1) == multiset(f0 + f1) + multiset(b0 + b1)
  {
  }

  /** One tree: its flattening is its own files plus the flattening of its directories. */
  lemma {:induction false} EntriesSplit(store: Store, size: nat, es: seq<Entry>, prefix: seq<Byte>, fuel: nat)
    requires Supported(es)
    ensures var whole, below := FlattenEntries(store, size, es, prefix, fuel),
      FlattenAll(store, size, Dirs(es, prefix), fuel);
      && (whole.Some? <==> below.Some?)
      && (whole.Some? ==> multiset(whole.value) == multiset(Files(es, prefix)) + multiset(below.value))
  {
    hide Flatten, FlattenAll;
    if es == [] {
      FlattenAllEmpty(store, size, fuel);
    } else {
      var init, e := es[..|es| - 1], es[|es| - 1];
      EntriesSplit(store, size, init, prefix, fuel);
      var dirs: seq<Pending> := if e.mode == DIRECTORY then [Child(e, prefix)] else [];
      var files: seq<Row> := if e.mode == DIRECTORY then [] else [FileRow(e, prefix)];
      assert Files(es, prefix) == Files(init, prefix) + files && Dirs(es, prefix) == Dirs(init, prefix) + dirs;
      FlattenAllConcat(store, size, Dirs(init, prefix), dirs, fuel);
      EntryFlattens(store, size, es, prefix, fuel);
      hide FlattenEntries, Files, Dirs;
      var before, below := FlattenEntries(store, size, init, prefix, fuel),
        FlattenAll(store, size, Dirs(init, prefix), fuel);
      var here := FlattenAll(store, size, dirs, fuel);
      if before.Some? && here.Some? {
        SumOfParts(before.value, files + here.value, Files(init, prefix), files, below.value, here.value);
      }
    }
  }

  /** The last entry adds its own row, or the flattening of its directory. */
  lemma EntryFlattens(store: Store, size: nat, es: seq<Entry>, prefix: seq<Byte>, fuel: nat)
    requires es != [] && Supported(es)
    ensures var e := es[|es| - 1];
      var dirs: seq<Pending> := if e.mode == DIRECTORY then [Child(e, prefix)] else [];
      var files: seq<Row> := if e.mode == DIRECTORY then [] else [FileRow(e, prefix)];
      var before, here := FlattenEntries(store, size, es[..|es| - 1], prefix, fuel),
        FlattenAll(store, size, dirs, fuel);
      FlattenEntries(store, size, es, prefix, fuel) ==
        if before.None? || here.None? then None else Some(before.value + (files + here.value))
  {
    hide Flatten, FlattenAll;
    var e := es[|es| - 1];
    if e.mode == DIRECTORY {
      FlattenAllOne(store, size, Child(e, prefix), fuel);
      var here := Flatten(store, size, Child(e, prefix), fuel);
      assert here.Some? ==> [] + here.value == here.value;
    } else {
      FlattenAllEmpty(store, size, fuel);
      assert [FileRow(e, prefix)] + [] == [FileRow(e, prefix)];
    }
  }

  lemma FlattenAllEmpty(store: Store, size: nat, fuel: nat)
    ensures FlattenAll(store, size, [], fuel) == Some([])
  {
  }

  lemma FlattenAllOne(store: Store, size: nat, dir: Pending, fuel: nat)
    ensures FlattenAll(store, size, [dir], fuel) == Flatten(store, size, dir, fuel)
  {
    hide Flatten;
    var here := Flatten(store, size, dir, fuel);
    assert [dir][..0] == [];
    assert here.Some? ==> [] + here.value == here.value;
  }

  lemma LevelSum(store: Store, size: nat, pending: seq<Pending>, dirs0: seq<Pending>, dirs1: seq<Pending>, fuel: nat)
    requires pending != [] && Walkable(store, size, pending) && fuel > 0
    requires var init, dir := pending[..|pending| - 1], pending[|pending| - 1];
      var whole0, whole1 := FlattenAll(store, size, init, fuel), Flatten(store, size, dir, fuel);
      var below0, below1 := FlattenAll(store, size, dirs0, fuel - 1), FlattenAll(store, size, dirs1, fuel - 1);
      && (whole0.Some? <==> below0.Some?) && (whole1.Some? <==> below1.Some?)
      && (whole0.Some? ==> multiset(whole0.value) == multiset(LevelRows(store, size, init)) + multiset(below0.value))
      && (whole1.Some? ==>
            multiset(whole1.value) ==
            multiset(Files(Entries(store, size, dir), dir.prefix)) + multiset(below1.value))
      && FlattenAll(store, size, dirs0 + dirs1, fuel - 1) ==
          (if below0.None? || below1.None? then None else Some(below0.value + below1.value))
    ensures var whole, below := FlattenAll(store, size, pending, fuel),
      FlattenAll(store, size, dirs0 + dirs1, fuel - 1);
      && (whole.Some? <==> below.Some?)
      && (whole.Some? ==> multiset(whole.value) == multiset(LevelRows(store, size, pending)) + multiset(below.value))
  {
    hide Flatten, Parse, Files;
    var init, dir := pending[..|pending| - 1], pending[|pending| - 1];
    var whole0, whole1 := FlattenAll(store, size, init, fuel), Flatten(store, size, dir, fuel);
    if whole0.Some? && whole1.Some? {
      SumOfParts(whole0.value, whole1.value, LevelRows(store, size, init), Files(Entries(store, size, dir), dir.prefix),
        FlattenAll(store, size, dirs0, fuel - 1).value, FlattenAll(store, size, dirs1, fuel - 1).value);
    }
  }

  /** One level: flattening a frontier is its files plus the flattening of the next frontier. */
  lemma {:induction false} LevelSplit(store: Store, size: nat, pending: seq<Pending>, fuel: nat)
    requires Walkable(store, size, pending) && fuel > 0
    ensures var whole := FlattenAll(store, size, pending, fuel);
      var below := FlattenAll(store, size, LevelDirs(store, size, pending), fuel - 1);
      && (whole.Some? <==> below.Some?)
      && (whole.Some? ==> multiset(whole.value) == multiset(LevelRows(store, size, pending)) + multiset(below.value))
  {
    hide Parse, FlattenEntries, FlattenAll, Files, Dirs;
    if pending == [] {
      FlattenAllEmpty(store, size, fuel);
      FlattenAllEmpty(store, size, fuel - 1);
    } else {
      var init, dir := pending[..|pending| - 1], pending[|pending| - 1];
      LevelSplit(store, size, init, fuel);
      var es := Entries(store, size, dir);
      var dirs0, dirs1 := LevelDirs(store, size, init), Dirs(es, dir.prefix);
      EntriesSplit(store, size, es, dir.prefix, fuel - 1);
      FlattenAllConcat(store, size, dirs0, dirs1, fuel - 1);
      assert Flatten(store, size, dir, fuel) == FlattenEntries(store, size, es, dir.prefix, fuel - 1);
      LevelSum(store, size, pending, dirs0, dirs1, fuel);
    }
  }

  /** A walk that ends with no directory left has listed exactly the flattening of its first level. */
  lemma {:induction false} WalkIsFlatten(store: Store, size: nat, levels: seq<seq<Pending>>, k: nat, fuel: nat)
    requires Walk(store, size, levels) && k < |levels| && levels[|levels| - 1] == []
    requires fuel >= |levels| - 1 - k
    ensures FlattenAll(store, size, levels[k], fuel).Some?
    ensures multiset(WalkRows(store, size, levels, |levels| - 1)) ==
        multiset(WalkRows(store, size, levels, k)) + multiset(FlattenAll(store, size, levels[k], fuel).value)
    decreases |levels| - k
  {
    hide LevelRows, LevelDirs, Walkable, FlattenAll;
    if k == |levels| - 1 {
      FlattenAllEmpty(store, size, fuel);
    } else {
      LevelSplit(store, size, levels[k], fuel);
      WalkIsFlatten(store, size, levels, k + 1, fuel - 1);
      assert WalkRows(store, size, levels, k + 1) ==
        WalkRows(store, size, levels, k) + LevelRows(store, size, levels[k]);
    }
  }
}
