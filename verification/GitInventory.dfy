/** `git_inventory.inventory`: the cached level-by-level walk returns the recursive flattening. */
module GitInventory {
  import opened Text
  import opened GitBatch
  import opened GitCommit
  import opened GitFlatten
  import opened GitListing
  import opened GitPaths
  import opened GitWalk
  import Order

  datatype Result = Ok(rows: seq<Row>, total: nat) | Err(failure: Failure)

  /** `git cat-file --batch` fed one id a line; None is a failed, late or oversized answer. */
  type Git = seq<seq<Byte>> -> Option<seq<Byte>>

  function Missing(pending: seq<Pending>, cache: Store): set<seq<Byte>> {
    (set i | 0 <= i < |pending| :: pending[i].oid) - cache.Keys
  }

  /** Git frames the bodies of any distinct ids whose answer the byte limit of the reader admits. */
  ghost predicate Honest(git: Git, repo: Store) {
    forall ids :: Distinct(ids) && (forall i :: 0 <= i < |ids| ==> ids[i] in repo) && |Frames(ids, repo)| <= MAX_BATCH
      ==> git(ids) == Some(Frames(ids, repo))
  }

  /** A repository and walk within every bound the code sets. */
  ghost predicate Servable(h: Digest, git: Git, tree: seq<Byte>, maxFiles: nat, repo: Store,
      levels: seq<seq<Pending>>) {
    var size := |tree| / 2;
    && Honest(git, repo) && Verified(h, repo) && BytesOf(repo) <= MAX_TREE_BYTES
    && (forall oid :: oid in repo ==> LegalOid(oid) && |oid| <= MAX_OID)
    && 0 < |levels| <= MAX_DEPTH + 1 && levels[0] == [Pending(tree, [])] && levels[|levels| - 1] == []
    && (forall k :: 0 <= k < |levels| ==>
          |levels[k]| + |repo| <= MAX_DIRECTORIES && LevelAcceptable(repo, size, levels[k]))
    && Walk(repo, size, levels)
    && |WalkRows(repo, size, levels, |levels| - 1)| <= maxFiles
  }

  /** Rows are the sorted recursive flattening of the root tree over digest-checked bodies. */
  ghost predicate IsInventory(h: Digest, store: Store, tree: seq<Byte>, rows: seq<Row>) {
    var flat := Flatten(store, |tree| / 2, Pending(tree, []), MAX_DEPTH);
    && Verified(h, store)
    && flat.Some? && multiset(rows) == multiset(flat.value) && PathsAscend(rows)
  }

  /** Every tree of the level is in a repository Git answers from truthfully. */
  ghost predicate Answerable(h: Digest, git: Git, repo: Store, pending: seq<Pending>, cache: Store) {
    && Honest(git, repo) && Verified(h, repo) && BytesOf(repo) <= MAX_TREE_BYTES
    && (forall oid :: oid in repo ==> LegalOid(oid) && |oid| <= MAX_OID)
    && |repo| <= MAX_DIRECTORIES && Cached(pending, repo) && Extends(cache, repo)
  }

  /** The `if missing` block: after it every tree of the level is cached and digest-checked. */
  method FetchLevel(h: Digest, git: Git, pending: seq<Pending>, cache0: Store, total0: nat, ghost repo: Store)
    returns (failure: Option<Failure>, cache: Store, total: nat)
    requires Verified(h, cache0) && total0 == BytesOf(cache0) <= MAX_TREE_BYTES
    ensures failure.None? ==> Cached(pending, cache) && Extends(cache0, cache)
    ensures failure.None? ==> Verified(h, cache) && total == BytesOf(cache) <= MAX_TREE_BYTES
    ensures failure in {None, Some(GitFailed), Some(BadObjects)}
    ensures Answerable(h, git, repo, pending, cache0) ==> failure.None? && Extends(cache, repo)
  {
    hide Missing, ReadBatch, Cached, BytesOf, Verified, Answerable, Extends;
    cache, total := cache0, total0;
    ExtendsSelf(cache0);
    AnswerableExtends(h, git, repo, pending, cache0);
    var missing := SortedBytes(Missing(pending, cache));
    MissingMeans(pending, cache, missing);
    if missing != [] {
      Answered(h, git, repo, pending, cache, total, missing);
      var batch := git(missing);
      if batch.None? {
        return Some(GitFailed), cache, total;
      }
      var fetched := LoadMissing(h, batch.value, missing, cache, total);
      if fetched.None? {
        return Some(BadObjects), cache, total;
      }
      ReadBatchSound(h, batch.value, 0, missing, cache, total);
      CachedAfter(pending, cache, missing, fetched.value.cache);
      cache, total := fetched.value.cache, fetched.value.total;
    }
    failure := None;
  }

  lemma ExtendsSelf(store: Store)
    ensures Extends(store, store)
  {
  }

  lemma AnswerableExtends(h: Digest, git: Git, repo: Store, pending: seq<Pending>, cache: Store)
    ensures Answerable(h, git, repo, pending, cache) ==> Extends(cache, repo)
  {
  }

  lemma Answered(h: Digest, git: Git, repo: Store, pending: seq<Pending>, cache: Store, total: nat,
      missing: seq<seq<Byte>>)
    requires Distinct(missing) && forall i :: 0 <= i < |missing| ==> missing[i] !in cache
    requires forall i :: 0 <= i < |missing| ==> exists j :: 0 <= j < |pending| && pending[j].oid == missing[i]
    requires total == BytesOf(cache)
    ensures Answerable(h, git, repo, pending, cache) ==>
      && git(missing).Some?
      && ReadBatch(h, git(missing).value, 0, missing, cache, total).Some?
      && Extends(ReadBatch(h, git(missing).value, 0, missing, cache, total).value.cache, repo)
  {
    hide Verified, BytesOf, ReadBatch, Frames, LegalOid, Extends;
    if Answerable(h, git, repo, pending, cache) {
      forall i | 0 <= i < |missing| ensures missing[i] in repo {
        var j :| 0 <= j < |pending| && pending[j].oid == missing[i];
      }
      AnswerFits(missing, repo);
      var batch := Frames(missing, repo);
      assert batch[0..] == batch && git(missing) == Some(batch);
      ReadBatchOfFrames(h, batch, 0, missing, repo, cache, total);
    }
  }

  /** The commit document is checked before any tree is read. */
  method CheckCommit(h: Digest, document: seq<Byte>, commit: seq<Byte>, tree: seq<Byte>, parent: Option<seq<Byte>>)
    returns (failure: Option<Failure>)
    ensures failure.None? <==> CommitBinds(h, document, commit, tree, parent)
    ensures failure in {None, Some(CommitMismatch), Some(ParentUndecodable), Some(ParentMismatch)}
    ensures failure == Some(ParentMismatch) ==>
      parent.Some? && CommitBinds(h, document, commit, tree, None) && Parents(document).value != [parent.value]
  {
    hide FirstLine, ObjectDigest, Parents;
    if ObjectDigest(h, Commit, document, commit) != commit || FirstLine(document) != TREE_HEADER + tree {
      return Some(CommitMismatch);
    }
    var actual := Parents(document);
    if actual.None? {
      return Some(ParentUndecodable);
    }
    if parent.Some? && actual.value != [parent.value] {
      return Some(ParentMismatch);
    }
    return None;
  }

  method Inventory(h: Digest, document: seq<Byte>, commit: seq<Byte>, tree: seq<Byte>, parent: Option<seq<Byte>>,
      git: Git, maxFiles: nat, ghost repo: Store, ghost goal: seq<seq<Pending>>)
    returns (r: Result, ghost store: Store)
    ensures r.Ok? ==> CommitBinds(h, document, commit, tree, parent)
    ensures r.Ok? ==> IsInventory(h, store, tree, r.rows) && |r.rows| <= maxFiles
    ensures r.Ok? ==> forall row :: row in r.rows <==> Listed(store, |tree| / 2, Pending(tree, []), row)
    ensures r.Ok? ==> r.total == BytesOf(store) <= MAX_TREE_BYTES
    ensures r != Err(BadEntry(DuplicatePath))
    ensures CommitBinds(h, document, commit, tree, parent) && Servable(h, git, tree, maxFiles, repo, goal) ==> r.Ok?
  {
    hide Progress, Servable, OnTrack, Walkable, LevelAcceptable, LevelRows, LevelDirs, Recorded, LevelShape,
      Missing, ReadBatch, Cached, Answerable, Extends, Verified, Above, Slashes, PrefixShape, CommitBinds,
      IsInventory, SortedRows, BytesOf, Listed;
    store := map[];
    var failure := CheckCommit(h, document, commit, tree, parent);
    if failure.Some? {
      return Err(failure.value), store;
    }
    var size: nat := |tree| / 2;
    var pending := [Pending(tree, [])];
    var cache: Store, output: Output := map[], map[];
    var total: nat, depth: nat := 0, 0;
    ghost var levels := [pending];
    ghost var rows: seq<Row> := [];
    ProgressStart(h, size, pending, maxFiles);
    TrackStart(h, git, tree, maxFiles, repo, goal);
    while pending != []
      invariant depth <= MAX_DEPTH && |levels| == depth + 1 && levels[0] == [Pending(tree, [])]
        && levels[depth] == pending
      invariant Progress(h, cache, total, size, levels, rows, output, maxFiles)
      invariant Servable(h, git, tree, maxFiles, repo, goal) ==> OnTrack(cache, repo, levels, goal)
      decreases MAX_DEPTH - depth
    {
      TrackBounds(h, git, tree, maxFiles, repo, goal, cache, levels);
      depth := depth + 1;
      if depth > MAX_DEPTH || |pending| + |cache| > MAX_DIRECTORIES {
        return Err(DirectoryBound), cache;
      }
      ProgressReady(h, cache, total, size, levels, pending, rows, output, maxFiles);
      TrackFetch(h, git, tree, maxFiles, repo, goal, cache, levels, pending);
      ghost var before := cache;
      failure, cache, total := FetchLevel(h, git, pending, cache, total, repo);
      if failure.Some? {
        return Err(failure.value), cache;
      }
      ProgressFetch(h, before, total, cache, size, levels, rows, output, maxFiles);
      TrackFetched(repo, goal, before, cache, levels);
      TrackLevel(h, git, tree, maxFiles, repo, goal, cache, total, levels, pending, rows, output);
      var grown, following;
      failure, grown, following := WalkLevel(cache, size, pending, |levels| - 1, maxFiles, output, rows);
      if failure.Some? {
        return Err(failure.value), cache;
      }
      ProgressLevel(h, cache, total, size, levels, rows, output, grown, following, maxFiles);
      TrackNext(h, git, tree, maxFiles, repo, goal, cache, levels, following);
      rows := rows + LevelRows(cache, size, pending);
      levels := levels + [following];
      output, pending := grown, following;
    }
    ProgressEnd(h, cache, total, tree, levels, rows, output, maxFiles);
    InventoryListsAll(h, cache, tree, SortedRows(output));
    return Ok(SortedRows(output), total), cache;
  }

  /** An inventory lists exactly the files of its tree, each with the object id that its raw id spells. */
  lemma InventoryLists(h: Digest, store: Store, tree: seq<Byte>, rows: seq<Row>, row: Row)
    requires IsInventory(h, store, tree, rows)
    ensures row in rows <==> Listed(store, |tree| / 2, Pending(tree, []), row)
  {
    hide Flatten, Listed, Verified;
    var flat := Flatten(store, |tree| / 2, Pending(tree, []), MAX_DEPTH).value;
    assert row in rows <==> row in multiset(rows);
    assert row in flat <==> row in multiset(flat);
    FlattenLists(store, |tree| / 2, Pending(tree, []), MAX_DEPTH, row);
  }

  lemma InventoryListsAll(h: Digest, store: Store, tree: seq<Byte>, rows: seq<Row>)
    requires IsInventory(h, store, tree, rows)
    ensures forall row :: row in rows <==> Listed(store, |tree| / 2, Pending(tree, []), row)
  {
    hide IsInventory, Listed;
    forall row ensures row in rows <==> Listed(store, |tree| / 2, Pending(tree, []), row) {
      InventoryLists(h, store, tree, rows, row);
    }
  }

  // ----- what the loop keeps

  ghost predicate Progress(h: Digest, cache: Store, total: nat, size: nat, levels: seq<seq<Pending>>, rows: seq<Row>,
      output: Output, maxFiles: nat) {
    && levels != [] && Walk(cache, size, levels) && rows == WalkRows(cache, size, levels, |levels| - 1)
    && Recorded(output, rows) && |output| == |rows| <= maxFiles
    && LevelShape(levels[|levels| - 1], |levels| - 1)
    && Above(output, |levels| - 1)
    && Verified(h, cache) && total == BytesOf(cache) <= MAX_TREE_BYTES
  }

  lemma ProgressStart(h: Digest, size: nat, pending: seq<Pending>, maxFiles: nat)
    requires |pending| == 1 && pending[0].prefix == []
    ensures Progress(h, map[], 0, size, [pending], [], map[], maxFiles)
  {
  }

  lemma MissingMeans(pending: seq<Pending>, cache: Store, missing: seq<seq<Byte>>)
    requires missing == SortedBytes(Missing(pending, cache))
    ensures Distinct(missing) && forall i :: 0 <= i < |missing| ==> missing[i] !in cache
    ensures forall i :: 0 <= i < |missing| ==> exists j :: 0 <= j < |pending| && pending[j].oid == missing[i]
    ensures forall i :: 0 <= i < |pending| ==> pending[i].oid in cache || pending[i].oid in missing
    ensures missing == [] ==> Cached(pending, cache)
  {
    forall i, j | 0 <= i < j < |missing| ensures missing[i] != missing[j] {
      Order.Irreflexive(missing[i]);
    }
    forall i | 0 <= i < |missing|
      ensures missing[i] !in cache && exists j :: 0 <= j < |pending| && pending[j].oid == missing[i]
    {
      assert missing[i] in Missing(pending, cache);
    }
    forall i | 0 <= i < |pending| ensures pending[i].oid in cache || pending[i].oid in missing {
      assert pending[i].oid in cache || pending[i].oid in Missing(pending, cache);
    }
  }

  lemma CachedAfter(pending: seq<Pending>, cache: Store, missing: seq<seq<Byte>>, grown: Store)
    requires forall i :: 0 <= i < |pending| ==> pending[i].oid in cache || pending[i].oid in missing
    requires forall oid :: oid in grown <==> oid in cache || oid in missing
    ensures Cached(pending, grown)
  {
  }

  lemma ProgressFetch(h: Digest, before: Store, total: nat, cache: Store, size: nat,
      levels: seq<seq<Pending>>, rows: seq<Row>, output: Output, maxFiles: nat)
    requires Progress(h, before, BytesOf(before), size, levels, rows, output, maxFiles)
    requires Extends(before, cache) && Verified(h, cache) && total == BytesOf(cache) <= MAX_TREE_BYTES
    ensures Progress(h, cache, total, size, levels, rows, output, maxFiles)
  {
    hide Walk, WalkRows, Recorded, LevelShape, Slashes, Above, BytesOf, Verified, Extends;
    WalkStable(before, cache, size, levels, |levels| - 1);
  }

  lemma ProgressReady(h: Digest, cache: Store, total: nat, size: nat, levels: seq<seq<Pending>>, pending: seq<Pending>,
      rows: seq<Row>, output: Output, maxFiles: nat)
    requires Progress(h, cache, total, size, levels, rows, output, maxFiles) && pending == levels[|levels| - 1]
    ensures Recorded(output, rows) && |output| == |rows| <= maxFiles
    ensures Verified(h, cache) && total == BytesOf(cache) <= MAX_TREE_BYTES
    ensures |levels| > 0 && LevelShape(pending, |levels| - 1)
    ensures Above(output, |levels| - 1)
  {
    hide Walk, WalkRows, Recorded, LevelShape, BytesOf, Verified;
  }

  lemma ProgressLevel(h: Digest, cache: Store, total: nat, size: nat, levels: seq<seq<Pending>>, rows: seq<Row>,
      output: Output,
      grown: Output, following: seq<Pending>, maxFiles: nat)
    requires Progress(h, cache, total, size, levels, rows, output, maxFiles)
    requires Walkable(cache, size, levels[|levels| - 1]) && following == LevelDirs(cache, size, levels[|levels| - 1])
    requires Recorded(grown, rows + LevelRows(cache, size, levels[|levels| - 1]))
    requires |grown| == |rows| + |LevelRows(cache, size, levels[|levels| - 1])| <= maxFiles
    requires Above(grown, |levels|)
    ensures Progress(h, cache, total, size, levels + [following], rows + LevelRows(cache, size, levels[|levels| - 1]),
      grown, maxFiles)
  {
    hide Walk, WalkRows, LevelRows, LevelDirs, Walkable, Recorded, LevelShape, BytesOf, Verified;
    WalkStep(cache, size, levels, following);
    NextLevelShape(cache, size, levels[|levels| - 1], |levels| - 1);
  }

  lemma ProgressEnd(h: Digest, cache: Store, total: nat, tree: seq<Byte>, levels: seq<seq<Pending>>, rows: seq<Row>,
      output: Output, maxFiles: nat)
    requires Progress(h, cache, total, |tree| / 2, levels, rows, output, maxFiles)
    requires levels[0] == [Pending(tree, [])] && levels[|levels| - 1] == [] && |levels| - 1 <= MAX_DEPTH
    ensures IsInventory(h, cache, tree, SortedRows(output)) && |SortedRows(output)| <= maxFiles
    ensures total == BytesOf(cache) <= MAX_TREE_BYTES
  {
    hide Walk, WalkRows, Recorded, LevelShape, BytesOf, Verified, Flatten, FlattenAll, SortedRows;
    WalkIsFlatten(cache, |tree| / 2, levels, 0, MAX_DEPTH);
    FlattenAllOne(cache, |tree| / 2, Pending(tree, []), MAX_DEPTH);
    assert WalkRows(cache, |tree| / 2, levels, 0) == [] by { WalkRowsNone(cache, |tree| / 2, levels); }
    SortedRowsRecorded(output);
    RecordedSame(output, SortedRows(output), rows);
    SameSize(SortedRows(output), rows);
  }

  lemma WalkRowsNone(store: Store, size: nat, levels: seq<seq<Pending>>)
    requires Walk(store, size, levels) && levels != []
    ensures WalkRows(store, size, levels, 0) == []
  {
  }

  lemma SameSize<T>(a: seq<T>, b: seq<T>)
    requires multiset(a) == multiset(b)
    ensures |a| == |b|
  {
    assert |multiset(a)| == |a| && |multiset(b)| == |b|;
  }

  // ----- an honest repository within the bounds is served

  ghost predicate OnTrack(cache: Store, repo: Store, levels: seq<seq<Pending>>, goal: seq<seq<Pending>>) {
    Extends(cache, repo) && levels != [] && levels <= goal
  }

  lemma TrackStart(h: Digest, git: Git, tree: seq<Byte>, maxFiles: nat, repo: Store, goal: seq<seq<Pending>>)
    ensures Servable(h, git, tree, maxFiles, repo, goal) ==> OnTrack(map[], repo, [[Pending(tree, [])]], goal)
  {
    hide Honest, Verified, BytesOf, LevelAcceptable, Walk, WalkRows;
  }

  lemma StoreSize(small: Store, large: Store)
    requires Extends(small, large)
    ensures |small| <= |large|
  {
    assert small.Keys <= large.Keys;
    SubsetSize(small.Keys, large.Keys);
    assert |small| == |small.Keys| && |large| == |large.Keys|;
  }

  lemma {:induction false} SubsetSize<T>(a: set<T>, b: set<T>)
    requires a <= b
    ensures |a| <= |b|
  {
    if a != {} {
      var x :| x in a;
      SubsetSize(a - {x}, b - {x});
    }
  }

  lemma TrackBounds(h: Digest, git: Git, tree: seq<Byte>, maxFiles: nat, repo: Store, goal: seq<seq<Pending>>,
      cache: Store, levels: seq<seq<Pending>>)
    requires levels != [] && levels[|levels| - 1] != []
    requires Servable(h, git, tree, maxFiles, repo, goal) ==> OnTrack(cache, repo, levels, goal)
    ensures Servable(h, git, tree, maxFiles, repo, goal) ==>
      |levels| <= MAX_DEPTH && |levels[|levels| - 1]| + |cache| <= MAX_DIRECTORIES
  {
    hide Honest, Verified, BytesOf, LevelAcceptable, Walk, WalkRows, Extends;
    if Servable(h, git, tree, maxFiles, repo, goal) {
      StoreSize(cache, repo);
      assert levels[|levels| - 1] == goal[|levels| - 1];
    }
  }

  lemma TrackFetch(h: Digest, git: Git, tree: seq<Byte>, maxFiles: nat, repo: Store, goal: seq<seq<Pending>>,
      cache: Store, levels: seq<seq<Pending>>, pending: seq<Pending>)
    requires levels != [] && pending == levels[|levels| - 1]
    requires Servable(h, git, tree, maxFiles, repo, goal) ==> OnTrack(cache, repo, levels, goal)
    ensures Servable(h, git, tree, maxFiles, repo, goal) ==> Answerable(h, git, repo, pending, cache)
  {
    hide Honest, Verified, BytesOf, Acceptable, Walk, WalkRows, Extends, LegalOid;
    if Servable(h, git, tree, maxFiles, repo, goal) {
      assert pending == goal[|levels| - 1] && LevelAcceptable(repo, |tree| / 2, pending);
    }
  }

  lemma TrackFetched(repo: Store, goal: seq<seq<Pending>>, before: Store, cache: Store, levels: seq<seq<Pending>>)
    ensures OnTrack(before, repo, levels, goal) && Extends(cache, repo) ==> OnTrack(cache, repo, levels, goal)
  {
  }

  /** The rows walked so far and those of the present level are among the rows of the whole walk. */
  lemma GoalRows(repo: Store, size: nat, levels: seq<seq<Pending>>, goal: seq<seq<Pending>>, count: nat)
    requires Walk(repo, size, goal) && Walk(repo, size, levels) && levels <= goal && count == |levels| - 1 < |goal| - 1
    ensures Walkable(repo, size, goal[count])
    ensures |WalkRows(repo, size, levels, count)| + |LevelRows(repo, size, goal[count])| <=
      |WalkRows(repo, size, goal, |goal| - 1)|
  {
    hide Walk, WalkRows, LevelRows, LevelDirs, Walkable;
    WalkRowsPrefix(repo, size, levels, goal, count);
    WalkRowsGrow(repo, size, goal, count);
  }

  lemma GoalLevel(cache: Store, repo: Store, size: nat, levels: seq<seq<Pending>>, goal: seq<seq<Pending>>,
      pending: seq<Pending>)
    requires Extends(cache, repo) && Walk(cache, size, levels) && Walk(repo, size, goal) && levels != []
      && levels <= goal
    requires pending == levels[|levels| - 1] && |levels| < |goal|
    requires Cached(pending, cache) && LevelAcceptable(repo, size, pending)
    ensures LevelAcceptable(cache, size, pending) && Walkable(cache, size, pending)
    ensures |WalkRows(cache, size, levels, |levels| - 1)| + |LevelRows(cache, size, pending)| <=
      |WalkRows(repo, size, goal, |goal| - 1)|
  {
    hide LevelAcceptable, Walk, WalkRows, LevelRows, LevelDirs, Walkable, Extends, Cached;
    AcceptableBack(cache, repo, size, pending);
    AcceptableIsWalkable(cache, size, pending);
    LevelStable(cache, repo, size, pending);
    WalkStable(cache, repo, size, levels, |levels| - 1);
    GoalRows(repo, size, levels, goal, |levels| - 1);
  }

  lemma TrackLevel(h: Digest, git: Git, tree: seq<Byte>, maxFiles: nat, repo: Store, goal: seq<seq<Pending>>,
      cache: Store, total: nat, levels: seq<seq<Pending>>, pending: seq<Pending>, rows: seq<Row>, output: Output)
    requires Progress(h, cache, total, |tree| / 2, levels, rows, output, maxFiles)
    requires pending == levels[|levels| - 1] != [] && Cached(pending, cache)
    requires Servable(h, git, tree, maxFiles, repo, goal) ==> OnTrack(cache, repo, levels, goal)
    ensures Servable(h, git, tree, maxFiles, repo, goal) ==>
      && LevelAcceptable(cache, |tree| / 2, pending) && Walkable(cache, |tree| / 2, pending)
      && |rows| + |LevelRows(cache, |tree| / 2, pending)| <= maxFiles
  {
    hide Honest, Verified, BytesOf, LevelAcceptable, Walk, WalkRows, LevelRows, LevelDirs, Walkable, Recorded,
      LevelShape, Extends, Cached, Above;
    if Servable(h, git, tree, maxFiles, repo, goal) {
      assert pending == goal[|levels| - 1] && LevelAcceptable(repo, |tree| / 2, pending);
      GoalLevel(cache, repo, |tree| / 2, levels, goal, pending);
    }
  }

  lemma AcceptableBack(cache: Store, repo: Store, size: nat, pending: seq<Pending>)
    requires Extends(cache, repo) && LevelAcceptable(repo, size, pending)
    requires Cached(pending, cache)
    ensures LevelAcceptable(cache, size, pending)
  {
    hide Acceptable;
  }

  lemma WalkRowsGrow(store: Store, size: nat, levels: seq<seq<Pending>>, count: nat)
    requires Walk(store, size, levels) && count < |levels| - 1
    ensures Walkable(store, size, levels[count])
    ensures |WalkRows(store, size, levels, count)| + |LevelRows(store, size, levels[count])| <=
      |WalkRows(store, size, levels, |levels| - 1)|
    decreases |levels| - count
  {
    hide LevelRows, LevelDirs, Walkable;
    assert WalkRows(store, size, levels, count + 1) ==
      WalkRows(store, size, levels, count) + LevelRows(store, size, levels[count]);
    if count + 1 < |levels| - 1 {
      WalkRowsGrow(store, size, levels, count + 1);
    }
  }

  lemma TrackNext(h: Digest, git: Git, tree: seq<Byte>, maxFiles: nat, repo: Store, goal: seq<seq<Pending>>,
      cache: Store, levels: seq<seq<Pending>>, following: seq<Pending>)
    requires levels != [] && levels[|levels| - 1] != [] && Walkable(cache, |tree| / 2, levels[|levels| - 1])
    requires following == LevelDirs(cache, |tree| / 2, levels[|levels| - 1])
    requires Servable(h, git, tree, maxFiles, repo, goal) ==> OnTrack(cache, repo, levels, goal)
    ensures Servable(h, git, tree, maxFiles, repo, goal) ==> OnTrack(cache, repo, levels + [following], goal)
  {
    hide Honest, Verified, BytesOf, LevelAcceptable, WalkRows, LevelDirs, LevelRows, Walkable, Extends;
    if Servable(h, git, tree, maxFiles, repo, goal) {
      var count := |levels| - 1;
      assert levels[count] == goal[count];
      LevelStable(cache, repo, |tree| / 2, levels[count]);
      assert goal[count + 1] == LevelDirs(repo, |tree| / 2, goal[count]);
    }
  }
}
