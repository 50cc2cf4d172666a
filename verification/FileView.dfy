/** `file_view.CandidateFiles`: a bounded cache of inventories, and exact-path comparisons between them. */
module FileView {
  import opened Text
  import opened GitBatch
  import opened GitCommit
  import opened GitFlatten
  import opened GitWalk
  import opened GitInventory
  import opened GitIdentity
  import opened PathKeys
  import opened Sorting
  import Order

  type Id = seq<Code>
  type Key = seq<Code>

  const MAX_FILES := 2000
  const MAX_CACHED := 16 * 1024 * 1024

  /** One row of an inventory; the display path and the blob size are projections beside it. */
  datatype FileEntry = FileEntry(pathId: Key, blob: seq<Byte>, mode: seq<Byte>)

  type Entries = map<Key, FileEntry>

  function EntryOf(row: Row): FileEntry {
    FileEntry(PathKey(row.path), row.oid, row.mode)
  }

  /** The dictionary comprehension over inventory rows. */
  function EntriesOf(rows: seq<Row>): (entries: Entries)
    ensures forall key :: key in entries ==> entries[key].pathId == key
  {
    if rows == [] then map[]
    else EntriesOf(rows[..|rows| - 1])[PathKey(rows[|rows| - 1].path) := EntryOf(rows[|rows| - 1])]
  }

  /** Keys are paths in another spelling: no row of an inventory is lost or merged. */
  lemma {:induction false} EveryRowIsKept(rows: seq<Row>, i: nat)
    requires PathsAscend(rows) && i < |rows|
    ensures var key := PathKey(rows[i].path);
      && key in EntriesOf(rows) && EntriesOf(rows)[key].pathId == key
      && EntriesOf(rows)[key].blob == rows[i].oid && EntriesOf(rows)[key].mode == rows[i].mode
  {
    var before, last := rows[..|rows| - 1], rows[|rows| - 1];
    if i < |before| {
      Order.Irreflexive(last.path);
      assert Order.Less(rows[i].path, last.path);
      hide PathKey, Order.Less;
      if PathKey(rows[i].path) == PathKey(last.path) {
        KeyInjective(rows[i].path, last.path);
      }
      assert before[i] == rows[i];
      EveryRowIsKept(before, i);
    }
  }

  lemma {:induction false} EveryEntryIsARow(rows: seq<Row>, key: Key) returns (i: nat)
    requires key in EntriesOf(rows)
    ensures i < |rows| && PathKey(rows[i].path) == key
  {
    hide PathKey;
    if PathKey(rows[|rows| - 1].path) == key {
      i := |rows| - 1;
    } else {
      i := EveryEntryIsARow(rows[..|rows| - 1], key);
    }
  }

  // ----- the cache

  datatype Node = Node(commit: seq<Byte>, tree: seq<Byte>, parent: Option<Id>)

  lemma OidsSpell(text: seq<Byte>)
    ensures IsOid(text) <==> IsObjectId(text)
  {
    hide IsHex, Spells;
    HexSpelling(text, 20);
    HexSpelling(text, 32);
  }

  /** The spelling of a raw object id of 20 or 32 bytes. */
  ghost predicate IsObjectId(text: seq<Byte>) {
    exists raw: seq<Byte> :: |raw| in {20, 32} && Spells(text, raw)
  }

  ghost function TotalBytes(stores: map<Id, Store>): nat
    decreases |stores|
  {
    if stores == map[] then 0 else
      var id :| id in stores;
      BytesOf(stores[id]) + TotalBytes(stores - {id})
  }

  lemma {:induction false} TotalWithout(stores: map<Id, Store>, id: Id)
    requires id in stores
    ensures TotalBytes(stores) == BytesOf(stores[id]) + TotalBytes(stores - {id})
    decreases |stores|
  {
    hide BytesOf;
    var first :| first in stores && TotalBytes(stores) == BytesOf(stores[first]) + TotalBytes(stores - {first});
    if first != id {
      TotalWithout(stores - {first}, id);
      TotalWithout(stores - {id}, first);
      assert stores - {first} - {id} == stores - {id} - {first};
    }
  }

  lemma TotalAdded(stores: map<Id, Store>, id: Id, store: Store)
    requires id !in stores
    ensures TotalBytes(stores[id := store]) == TotalBytes(stores) + BytesOf(store)
  {
    TotalWithout(stores[id := store], id);
    assert stores[id := store] - {id} == stores;
  }

  /** What Git answers while one inventory is read. */
  datatype Answers = Answers(document: seq<Byte>, git: Git)

  /** The entries are those of an inventory of the tree. */
  ghost predicate Faithful(h: Digest, tree: seq<Byte>, store: Store, rows: seq<Row>, entries: Entries) {
    IsInventory(h, store, tree, rows) && |rows| <= MAX_FILES && entries == EntriesOf(rows)
  }

  ghost predicate InventoryOf(h: Digest, tree: seq<Byte>, entries: Entries) {
    exists store, rows :: Faithful(h, tree, store, rows, entries)
  }

  ghost predicate CacheFaithful(h: Digest, nodes: map<Id, Node>, inventories: map<Id, Entries>,
      stores: map<Id, Store>, rows: map<Id, seq<Row>>) {
    && inventories.Keys == stores.Keys == rows.Keys <= nodes.Keys
    && forall id :: id in inventories ==> Faithful(h, nodes[id].tree, stores[id], rows[id], inventories[id])
  }

  lemma CacheKeeps(h: Digest, nodes: map<Id, Node>, inventories: map<Id, Entries>, stores: map<Id, Store>,
      rows: map<Id, seq<Row>>,
      id: Id, entries: Entries, store: Store, found: seq<Row>)
    requires CacheFaithful(h, nodes, inventories, stores, rows) && id in nodes && id !in inventories
    requires Faithful(h, nodes[id].tree, store, found, entries)
    ensures CacheFaithful(h, nodes, inventories[id := entries], stores[id := store], rows[id := found])
    ensures id !in stores
  {
    hide Faithful;
  }

  class CandidateFiles {
    const h: Digest
    const nodes: map<Id, Node>
    var inventories: map<Id, Entries>
    var inventoryBytes: nat
    ghost var stores: map<Id, Store>      // the tree bodies each cached inventory was read from
    ghost var rows: map<Id, seq<Row>>

    ghost predicate Valid()
      reads this
    {
      && CacheFaithful(h, nodes, inventories, stores, rows)
      && inventoryBytes == TotalBytes(stores) <= MAX_CACHED
    }

    constructor (h: Digest, nodes: map<Id, Node>)
      ensures Valid() && this.h == h && this.nodes == nodes && inventories == map[]
    {
      this.h, this.nodes := h, nodes;
      inventories, inventoryBytes := map[], 0;
      stores, rows := map[], map[];
    }

    /** `commit`: a registered candidate with a well-formed Git binding. */
    predicate Bound(id: Id) {
      id in nodes && IsOid(nodes[id].commit) && IsOid(nodes[id].tree)
    }

    ghost predicate Registered(id: Id) {
      id in nodes && IsObjectId(nodes[id].commit) && IsObjectId(nodes[id].tree)
    }

    lemma BoundIffRegistered(id: Id)
      ensures Bound(id) <==> Registered(id)
    {
      hide IsOid, IsObjectId;
      if id in nodes {
        OidsSpell(nodes[id].commit);
        OidsSpell(nodes[id].tree);
      }
    }

    /** The commit a candidate's own commit must name as its one parent. */
    function ParentCommit(id: Id): Option<seq<Byte>>
      requires id in nodes
    {
      var parent := nodes[id].parent;
      if parent.Some? && parent.value in nodes then Some(nodes[parent.value].commit) else None
    }

    /** Git answers truthfully for a repository whose walk stays within every bound. */
    ghost predicate Served(id: Id, answers: Answers, repo: Store, goal: seq<seq<Pending>>) {
      && Registered(id) && (nodes[id].parent.Some? ==> Registered(nodes[id].parent.value))
      && CommitBinds(h, answers.document, nodes[id].commit, nodes[id].tree, ParentCommit(id))
      && Servable(h, answers.git, nodes[id].tree, MAX_FILES, repo, goal)
    }

    /** The entries were added to what was cached before, or to an emptied cache when the bound would be exceeded. */
    ghost predicate Stored(before: map<Id, Entries>, bytes: nat, id: Id, entries: Entries)
      reads this
    {
      && id in stores
      && var size := BytesOf(stores[id]);
        if bytes + size > MAX_CACHED then inventories == map[id := entries] && inventoryBytes == size
        else inventories == before[id := entries] && inventoryBytes == bytes + size
    }

    /** `inventory`: whatever is returned is the sorted flattening of the candidate's tree, cached or not, and the
        cache keeps only such inventories within its byte bound. A cached or served candidate is never refused. */
    method Inventory(id: Id, answers: Answers, ghost repo: Store, ghost goal: seq<seq<Pending>>)
      returns (r: Option<Entries>)
      requires Valid()
      modifies this
      ensures Valid()
      ensures id in old(inventories) || Served(id, answers, repo, goal) ==> r.Some?
      ensures r.Some? ==> id in inventories && r.value == inventories[id]
      ensures id in old(inventories) ==> r == Some(old(inventories)[id])
      ensures r.None? || id in old(inventories) ==>
        inventories == old(inventories) && inventoryBytes == old(inventoryBytes)
      ensures r.Some? && id !in old(inventories) ==>
        && Registered(id) && (nodes[id].parent.Some? ==> Registered(nodes[id].parent.value))
        && CommitBinds(h, answers.document, nodes[id].commit, nodes[id].tree, ParentCommit(id))
        && Stored(old(inventories), old(inventoryBytes), id, r.value)
      ensures forall other :: other in inventories && other != id ==>
        other in old(inventories) && inventories[other] == old(inventories)[other]
    {
      hide IsInventory, CommitBinds, Servable, TotalBytes, EntriesOf, BytesOf, IsOid, IsObjectId;
      if id in inventories {
        return Some(inventories[id]);
      }
      BoundIffRegistered(id);
      if id in nodes && nodes[id].parent.Some? {
        BoundIffRegistered(nodes[id].parent.value);
      }
      if !Bound(id) || (nodes[id].parent.Some? && !Bound(nodes[id].parent.value)) {
        return None;
      }
      ghost var store: Store;
      var read;
      read, store := GitInventory.Inventory(h, answers.document, nodes[id].commit, nodes[id].tree,
        ParentCommit(id), answers.git, MAX_FILES, repo, goal);
      if read.Err? {
        return None;
      }
      var entries := EntriesOf(read.rows);
      MakeRoom(id, entries, read.total, store, read.rows);
      return Some(entries);
    }

    /** The cache is emptied first when the new entries would exceed the bound. */
    method MakeRoom(id: Id, entries: Entries, total: nat, ghost store: Store, ghost found: seq<Row>)
      requires Valid() && id in nodes && id !in inventories
      requires Faithful(h, nodes[id].tree, store, found, entries)
      requires total == BytesOf(store) <= MAX_CACHED
      modifies this
      ensures Valid()
      ensures id in inventories && inventories[id] == entries
      ensures Stored(old(inventories), old(inventoryBytes), id, entries)
      ensures forall other :: other in inventories && other != id ==>
        other in old(inventories) && inventories[other] == old(inventories)[other]
    {
      hide Faithful, TotalBytes, BytesOf;
      if inventoryBytes + total > MAX_CACHED {
        inventories := map[];
        inventoryBytes := 0;
        stores, rows := map[], map[];
        NothingTotal();
      }
      Keep(id, entries, total, store, found);
    }

    method Keep(id: Id, entries: Entries, total: nat, ghost store: Store, ghost found: seq<Row>)
      requires Valid() && id in nodes && id !in inventories
      requires Faithful(h, nodes[id].tree, store, found, entries)
      requires total == BytesOf(store) && inventoryBytes + total <= MAX_CACHED
      modifies this
      ensures Valid()
      ensures inventories == old(inventories)[id := entries]
      ensures inventoryBytes == old(inventoryBytes) + total && stores == old(stores)[id := store]
    {
      hide Faithful, TotalBytes, BytesOf, CacheFaithful;
      CacheKeeps(h, nodes, inventories, stores, rows, id, entries, store, found);
      TotalAdded(stores, id, store);
      inventories := inventories[id := entries];
      inventoryBytes := inventoryBytes + total;
      stores := stores[id := store];
      rows := rows[id := found];
    }

    /** `changes`: against the given base, or the recorded parent, or nothing for a seed. It is refused only when one
        of the two inventories it still has to read is not served. */
    method Changes(id: Id, base: Option<Id>, answers: Answers, baseAnswers: Answers,
        ghost repo: Store, ghost goal: seq<seq<Pending>>, ghost baseRepo: Store, ghost baseGoal: seq<seq<Pending>>)
      returns (rows: Option<seq<ChangeRow>>, ghost previous: Entries, ghost current: Entries)
      requires Valid()
      modifies this
      ensures Valid()
      ensures rows.None? ==>
        || (id !in old(inventories) && !Served(id, answers, repo, goal))
        || (var parent := if base.Some? || id !in nodes then base else nodes[id].parent;
            parent.Some? && parent.value !in inventories && !Served(parent.value, baseAnswers, baseRepo, baseGoal))
      ensures rows.Some? ==>
        id in nodes && InventoryOf(h, nodes[id].tree, current)
        && IsComparison(previous, current, rows.value)
      ensures rows.Some? ==>
        var parent := if base.Some? then base else nodes[id].parent;
        if parent.None? then previous == map[]
        else parent.value in nodes && InventoryOf(h, nodes[parent.value].tree, previous)
    {
      hide Faithful, TotalBytes, IsComparison, Served;
      previous, current := map[], map[];
      var found := Inventory(id, answers, repo, goal);
      if found.None? {
        return None, previous, current;
      }
      current := found.value;
      FaithfulKeyed(h, nodes[id].tree, stores[id], this.rows[id], found.value);
      var parent := if base.Some? then base else nodes[id].parent;
      var before: Entries := map[];
      if parent.Some? {
        var read := Inventory(parent.value, baseAnswers, baseRepo, baseGoal);
        if read.None? {
          return None, previous, current;
        }
        before := read.value;
        FaithfulKeyed(h, nodes[parent.value].tree, stores[parent.value], this.rows[parent.value], before);
      }
      previous := before;
      var compared := Compare(before, found.value);
      rows := Some(compared);
    }
  }

  lemma FaithfulKeyed(h: Digest, tree: seq<Byte>, store: Store, rows: seq<Row>, entries: Entries)
    requires Faithful(h, tree, store, rows, entries)
    ensures InventoryOf(h, tree, entries) && Keyed(entries)
  {
    EntriesKeyed(rows);
  }

  lemma NothingTotal()
    ensures TotalBytes(map[]) == 0
  {
  }

  /** A cached inventory equals one read afresh at any later time, unless two tree bodies read under one id collide. */
  lemma CachedEqualsFresh(h: Digest, tree: seq<Byte>, s: Store, t: Store, cached: seq<Row>, again: seq<Row>)
    requires IsInventory(h, s, tree, cached) && IsInventory(h, t, tree, again)
    ensures EntriesOf(cached) == EntriesOf(again) || StoresCollide(h, s, t)
  {
    if !StoresCollide(h, s, t) {
      SameTreeSameRows(h, s, t, tree, cached, again);
    }
  }

  // ----- comparing two inventories

  datatype Change = Added | Deleted | Unchanged | Modified

  datatype ChangeRow = ChangeRow(shown: FileEntry, change: Change, before: Option<FileEntry>, after: Option<FileEntry>)

  function Lookup(entries: Entries, key: Key): Option<FileEntry> {
    if key in entries then Some(entries[key]) else None
  }

  function RowFor(previous: Entries, current: Entries, key: Key): ChangeRow
    requires key in previous || key in current
  {
    var before, after := Lookup(previous, key), Lookup(current, key);
    ChangeRow(
      if after.Some? then after.value else before.value,
      if before.None? then Added
      else if after.None? then Deleted
      else if before.value.blob == after.value.blob && before.value.mode == after.value.mode then Unchanged
      else Modified,
      before, after)
  }

  function Raw(row: ChangeRow): seq<int> {
    var path := RawPath(row.shown.pathId);
    if path.Some? then path.value else []
  }

  /** Entries built by `path_key`, each under its own key. */
  ghost predicate Keyed(entries: Entries) {
    forall key :: key in entries ==> entries[key].pathId == key && exists path :: PathKey(path) == key
  }

  lemma {:induction false} EntriesKeyed(rows: seq<Row>)
    ensures Keyed(EntriesOf(rows))
  {
    hide PathKey;
    if rows != [] {
      EntriesKeyed(rows[..|rows| - 1]);
      assert PathKey(rows[|rows| - 1].path) == PathKey(rows[|rows| - 1].path);
    }
  }

  /** Ascending in raw bytes, so no path twice; exactly the paths of either side; each row shows both sides. */
  ghost predicate IsComparison(previous: Entries, current: Entries, rows: seq<ChangeRow>) {
    && AscendingBy(rows, Raw)
    && (forall i :: 0 <= i < |rows| ==>
          var key := rows[i].shown.pathId;
          (key in previous || key in current) && rows[i] == RowFor(previous, current, key))
    && (forall key :: key in previous || key in current ==> exists i :: 0 <= i < |rows| && rows[i].shown.pathId == key)
  }

  lemma RawTellsKeys(previous: Entries, current: Entries, k: Key, l: Key)
    requires Keyed(previous) && Keyed(current)
    requires (k in previous || k in current) && (l in previous || l in current) && k != l
    ensures RowFor(previous, current, k).shown.pathId == k
    ensures Raw(RowFor(previous, current, k)) != Raw(RowFor(previous, current, l))
  {
    var p :| PathKey(p) == k;
    var q :| PathKey(q) == l;
    KeyRoundTrip(p);
    KeyRoundTrip(q);
    hide PathKey, RawPath;
  }

  /** The change a row shows, in terms of the two inventories: present on one side only, or on both, and then alike in
      blob and mode or not; and both sides of it. */
  ghost predicate ShowsChange(previous: Entries, current: Entries, row: ChangeRow) {
    var key := row.shown.pathId;
    && (key in previous || key in current)
    && (row.change == Added <==> key !in previous)
    && (row.change == Deleted <==> key !in current)
    && (row.change == Unchanged <==>
          && key in previous && key in current
          && previous[key].blob == current[key].blob && previous[key].mode == current[key].mode)
    && row.before == (if key in previous then Some(previous[key]) else None)
    && row.after == (if key in current then Some(current[key]) else None)
    && row.shown == (if key in current then current[key] else previous[key])
  }

  /** Every row shows its change. */
  lemma RowsShowChanges(previous: Entries, current: Entries, rows: seq<ChangeRow>, i: nat)
    requires IsComparison(previous, current, rows) && i < |rows|
    ensures ShowsChange(previous, current, rows[i])
  {
    hide Raw;
    assert rows[i] == RowFor(previous, current, rows[i].shown.pathId);
  }

  /** The rows made so far: one for each key no longer pending. */
  ghost predicate Covers(previous: Entries, current: Entries, pending: set<Key>, rows: seq<ChangeRow>) {
    && (forall row :: row in rows ==>
          var key := row.shown.pathId;
          (key in previous || key in current) && key !in pending && row == RowFor(previous, current, key))
    && (forall key :: (key in previous || key in current) && key !in pending ==> RowFor(previous, current, key) in rows)
  }

  lemma AppendCovers(previous: Entries, current: Entries, pending: set<Key>, rows: seq<ChangeRow>, key: Key)
    requires Keyed(previous) && Keyed(current) && Covers(previous, current, pending, rows) && DistinctBy(rows, Raw)
    requires key in pending && (key in previous || key in current)
    ensures var next := rows + [RowFor(previous, current, key)];
      Covers(previous, current, pending - {key}, next) && DistinctBy(next, Raw)
  {
    hide RawPath, Keyed, RowFor;
    var row := RowFor(previous, current, key);
    forall i | 0 <= i < |rows| ensures Raw(rows[i]) != Raw(row) {
      assert rows[i] in rows;
      RawTellsKeys(previous, current, rows[i].shown.pathId, key);
    }
    DistinctAppend(rows, row, Raw);
    KeyOfRow(previous, current, key);
  }

  /** The body of `changes`, given both inventories. */
  method Compare(previous: Entries, current: Entries) returns (rows: seq<ChangeRow>)
    requires Keyed(previous) && Keyed(current)
    ensures IsComparison(previous, current, rows)
    ensures forall i :: 0 <= i < |rows| ==> ShowsChange(previous, current, rows[i])
  {
    hide Raw, Keyed, SortBy, ShowsChange;
    rows := [];
    var pending := current.Keys + previous.Keys;
    while pending != {}
      invariant pending <= current.Keys + previous.Keys
      invariant DistinctBy(rows, Raw) && Covers(previous, current, pending, rows)
      decreases |pending|
    {
      hide RowFor, Covers, DistinctBy;
      var key :| key in pending;
      AppendCovers(previous, current, pending, rows, key);
      rows := rows + [RowFor(previous, current, key)];
      pending := pending - {key};
    }
    SortedCovers(previous, current, rows);
    rows := SortBy(rows, Raw);
    CoveredIsComparison(previous, current, rows);
    hide IsComparison, RowFor;
    forall i | 0 <= i < |rows| ensures ShowsChange(previous, current, rows[i]) {
      RowsShowChanges(previous, current, rows, i);
    }
  }

  lemma SortedCovers(previous: Entries, current: Entries, rows: seq<ChangeRow>)
    requires DistinctBy(rows, Raw) && Covers(previous, current, {}, rows)
    ensures AscendingBy(SortBy(rows, Raw), Raw) && Covers(previous, current, {}, SortBy(rows, Raw))
  {
    hide Raw, RowFor, DistinctBy;
    SortAscends(rows, Raw);
    SortKeeps(rows, Raw);
    var sorted := SortBy(rows, Raw);
    forall row ensures row in sorted <==> row in rows {
      assert row in sorted <==> row in multiset(sorted);
      assert row in rows <==> row in multiset(rows);
    }
  }

  lemma CoveredIsComparison(previous: Entries, current: Entries, rows: seq<ChangeRow>)
    requires Keyed(previous) && Keyed(current) && AscendingBy(rows, Raw) && Covers(previous, current, {}, rows)
    ensures IsComparison(previous, current, rows)
  {
    hide Raw, Keyed, RowFor, Order.Less;
    forall key | key in previous || key in current ensures exists i :: 0 <= i < |rows| && rows[i].shown.pathId == key {
      KeyOfRow(previous, current, key);
      assert RowFor(previous, current, key) in rows;
    }
  }

  lemma KeyOfRow(previous: Entries, current: Entries, key: Key)
    requires Keyed(previous) && Keyed(current) && (key in previous || key in current)
    ensures RowFor(previous, current, key).shown.pathId == key
  {
  }

  /** The before and after columns rebuild the two inventories, entry for entry. */
  lemma ColumnsRebuild(previous: Entries, current: Entries, rows: seq<ChangeRow>, e: FileEntry)
    requires Keyed(previous) && Keyed(current) && IsComparison(previous, current, rows)
    ensures e.pathId in previous && previous[e.pathId] == e
      <==> exists i :: 0 <= i < |rows| && rows[i].before == Some(e)
    ensures e.pathId in current && current[e.pathId] == e <==> exists i :: 0 <= i < |rows| && rows[i].after == Some(e)
  {
    hide Raw, Order.Less;
    var key := e.pathId;
    if key in previous || key in current {
      var i :| 0 <= i < |rows| && rows[i].shown.pathId == key;
      assert rows[i] == RowFor(previous, current, key);
    }
    assert forall j :: 0 <= j < |rows| ==> rows[j] == RowFor(previous, current, rows[j].shown.pathId);
    assert forall j :: 0 <= j < |rows| ==> rows[j].shown.pathId in previous || rows[j].shown.pathId in current;
  }
}
