/** The loops of `git_inventory.inventory` over one tree and over one level of trees. */
module GitWalk {
  import opened Text
  import opened GitTree
  import opened GitBatch
  import opened GitFlatten
  import opened GitPaths
  import Order

  const MAX_DEPTH := 64
  const MAX_DIRECTORIES := 4096
  const MAX_PATH := 4096

  datatype EntryFault = Malformed | PathTooLong | DuplicatePath | UnsupportedMode

  datatype Failure =
    | GitFailed
    | CommitMismatch
    | ParentUndecodable
    | ParentMismatch
    | DirectoryBound
    | BadObjects
    | BadEntry(fault: EntryFault)
    | TooManyFiles

  /** The `output` dictionary. */
  type Output = map<seq<Byte>, (seq<Byte>, seq<Byte>)>

  /** `output` holds exactly the rows `rows`, whose paths are pairwise different. */
  ghost predicate Recorded(output: Output, rows: seq<Row>) {
    && (forall i :: 0 <= i < |rows| ==> rows[i].path in output && output[rows[i].path] == (rows[i].mode, rows[i].oid))
    && (forall path :: path in output ==> exists i :: 0 <= i < |rows| && rows[i].path == path)
    && (forall i, j :: 0 <= i < j < |rows| ==> rows[i].path != rows[j].path)
  }

  lemma RecordedAdd(output: Output, rows: seq<Row>, row: Row)
    requires Recorded(output, rows) && row.path !in output
    ensures Recorded(output[row.path := (row.mode, row.oid)], rows + [row])
    ensures |output[row.path := (row.mode, row.oid)]| == |output| + 1
  {
    var all, grown := rows + [row], output[row.path := (row.mode, row.oid)];
    forall path | path in grown ensures exists i :: 0 <= i < |all| && all[i].path == path {
      if path in output {
        var i :| 0 <= i < |rows| && rows[i].path == path;
        assert all[i].path == path;
      } else {
        assert all[|rows|].path == path;
      }
    }
  }

  predicate Usable(e: Entry, prefix: seq<Byte>) {
    |prefix| + |e.name| <= MAX_PATH && (e.mode == DIRECTORY || e.mode in FILE_MODES)
  }

  /** A body the walk accepts: it parses, and every entry has a usable path and mode. */
  predicate Acceptable(body: seq<Byte>, size: nat, prefix: seq<Byte>) {
    Parse(body, size).Some? && AllUsable(Parse(body, size).value, prefix)
  }

  predicate AllUsable(es: seq<Entry>, prefix: seq<Byte>) {
    forall i :: 0 <= i < |es| ==> Usable(es[i], prefix)
  }

  function RowOf(e: Entry, prefix: seq<Byte>): seq<Row> {
    if e.mode == DIRECTORY then [] else [FileRow(e, prefix)]
  }

  function DirOf(e: Entry, prefix: seq<Byte>): seq<Pending> {
    if e.mode == DIRECTORY then [Child(e, prefix)] else []
  }

  /** The mode branches for one entry whose path is not yet in `output`. */
  method AddEntry(e: Entry, prefix: seq<Byte>, output0: Output, following0: seq<Pending>, ghost rows: seq<Row>)
    returns (fault: Option<EntryFault>, output: Output, following: seq<Pending>)
    requires Recorded(output0, rows) && |output0| == |rows| && prefix + e.name !in output0
    ensures fault.None? ==> following == following0 + DirOf(e, prefix)
    ensures fault.None? ==> Recorded(output, rows + RowOf(e, prefix)) && |output| == |rows + RowOf(e, prefix)|
    ensures fault.Some? <==> !Usable(e, prefix)
    ensures fault != Some(DuplicatePath)
    ensures forall path :: path in output ==> path in output0 || path == prefix + e.name
  {
    output, following := output0, following0;
    var path, identity := prefix + e.name, Hex(e.id);
    if |path| > MAX_PATH {
      return Some(PathTooLong), output, following;
    }
    if e.mode == DIRECTORY {
      following := following + [Pending(identity, path + [SLASH])];
      assert rows + [] == rows;
    } else if e.mode in FILE_MODES {
      if path in output {
        return Some(DuplicatePath), output, following;
      }
      RecordedAdd(output, rows, FileRow(e, prefix));
      output := output[path := (e.mode, identity)];
    } else {
      return Some(UnsupportedMode), output, following;
    }
    return None, output, following;
  }

  /** The inner loop over one tree body. */
  method ScanTree(body: seq<Byte>, size: nat, prefix: seq<Byte>, maxFiles: nat, output0: Output,
      following0: seq<Pending>, ghost rows0: seq<Row>)
    returns (failure: Option<Failure>, output: Output, following: seq<Pending>)
    requires Recorded(output0, rows0) && |output0| == |rows0| <= maxFiles
    requires forall path :: path in output0 ==> !DirectChild(path, prefix)
    ensures failure.None? ==> Acceptable(body, size, prefix) && Parse(body, size).Some?
    ensures failure.None? ==> following == following0 + Dirs(Parse(body, size).value, prefix)
    ensures failure.None? ==> Recorded(output, rows0 + Files(Parse(body, size).value, prefix))
    ensures failure.None? ==> |output| == |rows0| + |Files(Parse(body, size).value, prefix)| <= maxFiles
    ensures failure != Some(BadEntry(DuplicatePath))
    ensures failure.Some? ==>
      !(Acceptable(body, size, prefix) && Parse(body, size).Some?
        && |rows0| + |Files(Parse(body, size).value, prefix)| <= maxFiles)
    ensures forall path :: path in output ==> path in output0 || DirectChild(path, prefix)
  {
    hide Recorded, ParseFrom, Parse, Prepend, Files, Dirs, EntryAt, LegalEntry, DirectChild, Named, RowOf, DirOf,
      Acceptable, AllUsable, Usable;
    var position: nat := 0;
    var names: set<seq<Byte>> := {};
    output, following := output0, following0;
    ghost var es: seq<Entry> := [];
    ScanStart(body, size, prefix, output0, following0, rows0);
    while position < |body|
      invariant position <= |body|
      invariant Parse(body, size) == Prepend(es, ParseFrom(body, position, size, names))
      invariant AllUsable(es, prefix)
      invariant following == following0 + Dirs(es, prefix)
      invariant Recorded(output, rows0 + Files(es, prefix)) && |output| == |rows0 + Files(es, prefix)| <= maxFiles
      invariant Named(output, prefix, names)
      invariant forall path :: path in output ==> path in output0 || DirectChild(path, prefix)
      decreases |body| - position
    {
      var entry := EntryAt(body, position, size);
      if entry.None? || entry.value.name in names {
        ScanStuck(body, size, position, names, es);
        return Some(BadEntry(Malformed)), output, following;
      }
      var e := entry.value;
      PrependStep(body, size, position, names, es);
      assert names + {e.name} - {e.name} == names;
      names := names + {e.name};
      position := position + Length(e);
      NewName(e, size, prefix, output, names - {e.name});
      StepFrom(rows0, following0, es, e, prefix);
      ghost var before := rows0 + Files(es, prefix);
      AllUsableStep(es, e, prefix);
      es := es + [e];
      var fault;
      ghost var output' := output;
      fault, output, following := AddEntry(e, prefix, output, following, before);
      NamedStep(output', output, prefix, names - {e.name}, e.name);
      if fault.Some? {
        ScanUnusable(body, size, position, names, es, prefix);
        return Some(BadEntry(fault.value)), output, following;
      }
      if |output| > maxFiles {
        FilesGrow(body, size, position, names, es, prefix);
        return Some(TooManyFiles), output, following;
      }
    }
    ScanDone(body, size, names, es, prefix);
    return None, output, following;
  }

  /** Paths directly under `prefix` use only names already read from this tree. */
  ghost predicate Named(output: Output, prefix: seq<Byte>, names: set<seq<Byte>>) {
    forall path :: path in output && DirectChild(path, prefix) ==> path[|prefix|..] in names
  }

  lemma NamedStep(output: Output, grown: Output, prefix: seq<Byte>, names: set<seq<Byte>>, name: seq<Byte>)
    requires Named(output, prefix, names) && SLASH !in name
    requires forall path :: path in grown ==> path in output || path == prefix + name
    ensures Named(grown, prefix, names + {name})
  {
    ChildName(prefix + name, prefix, name);
  }

  lemma NewName(e: Entry, size: nat, prefix: seq<Byte>, output: Output, names: set<seq<Byte>>)
    requires LegalEntry(e, size) && Named(output, prefix, names) && e.name !in names
    ensures DirectChild(prefix + e.name, prefix) && SLASH !in e.name
    ensures prefix + e.name !in output
  {
    ChildName(prefix + e.name, prefix, e.name);
  }

  lemma ScanStart(body: seq<Byte>, size: nat, prefix: seq<Byte>, output0: Output, following0: seq<Pending>,
      rows0: seq<Row>)
    requires forall path :: path in output0 ==> !DirectChild(path, prefix)
    ensures Named(output0, prefix, {}) && AllUsable([], prefix)
    ensures Parse(body, size) == Prepend([], ParseFrom(body, 0, size, {}))
    ensures following0 + Dirs([], prefix) == following0 && rows0 + Files([], prefix) == rows0
  {
    var rest := ParseFrom(body, 0, size, {});
    assert rest.Some? ==> [] + rest.value == rest.value;
  }

  lemma ScanStuck(body: seq<Byte>, size: nat, position: nat, names: set<seq<Byte>>, es: seq<Entry>)
    requires position < |body| && Parse(body, size) == Prepend(es, ParseFrom(body, position, size, names))
    requires EntryAt(body, position, size).None? || EntryAt(body, position, size).value.name in names
    ensures forall prefix :: !Acceptable(body, size, prefix)
  {
    hide EntryAt, Parse;
  }

  lemma AllUsableStep(es: seq<Entry>, e: Entry, prefix: seq<Byte>)
    ensures AllUsable(es + [e], prefix) <==> AllUsable(es, prefix) && Usable(e, prefix)
  {
    hide Usable;
    assert (es + [e])[|es|] == e;
    assert forall i :: 0 <= i < |es| ==> (es + [e])[i] == es[i];
  }

  lemma ScanUnusable(body: seq<Byte>, size: nat, position: nat, names: set<seq<Byte>>, es: seq<Entry>,
      prefix: seq<Byte>)
    requires position <= |body| && Parse(body, size) == Prepend(es, ParseFrom(body, position, size, names))
    requires !AllUsable(es, prefix)
    ensures !Acceptable(body, size, prefix)
  {
    hide EntryAt, Parse, ParseFrom, Usable;
    if Parse(body, size).Some? {
      var i :| 0 <= i < |es| && !Usable(es[i], prefix);
      assert Parse(body, size).value[i] == es[i];
    }
  }

  lemma ScanDone(body: seq<Byte>, size: nat, names: set<seq<Byte>>, es: seq<Entry>, prefix: seq<Byte>)
    requires Parse(body, size) == Prepend(es, ParseFrom(body, |body|, size, names)) && AllUsable(es, prefix)
    ensures Parse(body, size) == Some(es) && Acceptable(body, size, prefix)
  {
    hide Parse;
    assert es + [] == es;
  }

  /** Entries read so far followed by those still to be read. */
  ghost function Prepend(es: seq<Entry>, rest: Option<seq<Entry>>): Option<seq<Entry>> {
    if rest.None? then None else Some(es + rest.value)
  }

  lemma PrependStep(body: seq<Byte>, size: nat, position: nat, names: set<seq<Byte>>, es: seq<Entry>)
    requires position < |body| && EntryAt(body, position, size).Some?
      && EntryAt(body, position, size).value.name !in names
    ensures var e := EntryAt(body, position, size).value;
      Prepend(es, ParseFrom(body, position, size, names)) ==
      Prepend(es + [e], ParseFrom(body, position + Length(e), size, names + {e.name}))
  {
    hide EntryAt;
    var e := EntryAt(body, position, size).value;
    var rest := ParseFrom(body, position + Length(e), size, names + {e.name});
    if rest.Some? {
      ParseStep(body, position, size, names, e, rest.value);
      assert es + ([e] + rest.value) == es + [e] + rest.value;
    }
  }

  lemma FilesStep(es: seq<Entry>, e: Entry, prefix: seq<Byte>)
    ensures Files(es + [e], prefix) == Files(es, prefix) + RowOf(e, prefix)
    ensures Dirs(es + [e], prefix) == Dirs(es, prefix) + DirOf(e, prefix)
  {
    assert (es + [e])[..|es|] == es;
  }

  lemma StepFrom(rows0: seq<Row>, following0: seq<Pending>, es: seq<Entry>, e: Entry, prefix: seq<Byte>)
    ensures rows0 + Files(es + [e], prefix) == rows0 + Files(es, prefix) + RowOf(e, prefix)
    ensures following0 + Dirs(es + [e], prefix) ==
      following0 + Dirs(es, prefix) + DirOf(e, prefix)
  {
    FilesStep(es, e, prefix);
  }

  lemma {:induction false} FilesMonotone(es: seq<Entry>, more: seq<Entry>, prefix: seq<Byte>)
    ensures |Files(es, prefix)| <= |Files(es + more, prefix)|
  {
    if more == [] {
      assert es + more == es;
    } else {
      FilesMonotone(es, more[..|more| - 1], prefix);
      FilesStep(es + more[..|more| - 1], more[|more| - 1], prefix);
      assert es + more[..|more| - 1] + [more[|more| - 1]] == es + more;
    }
  }

  lemma FilesGrow(body: seq<Byte>, size: nat, position: nat, names: set<seq<Byte>>, es: seq<Entry>, prefix: seq<Byte>)
    requires position <= |body| && Parse(body, size) == Prepend(es, ParseFrom(body, position, size, names))
    ensures Acceptable(body, size, prefix) ==>
      |Files(es, prefix)| <= |Files(Parse(body, size).value, prefix)|
  {
    hide AllUsable, Files;
    var rest := ParseFrom(body, position, size, names);
    if rest.Some? {
      FilesMonotone(es, rest.value, prefix);
    }
  }

  // ----- one level

  ghost predicate LevelAcceptable(store: Store, size: nat, pending: seq<Pending>) {
    forall i :: 0 <= i < |pending| ==>
      pending[i].oid in store && Acceptable(store[pending[i].oid], size, pending[i].prefix)
  }

  lemma AcceptableIsWalkable(store: Store, size: nat, pending: seq<Pending>)
    requires LevelAcceptable(store, size, pending)
    ensures Walkable(store, size, pending)
  {
    hide Parse;
    forall i | 0 <= i < |pending| ensures Supported(Parse(store[pending[i].oid], size).value) {
      var es := Parse(store[pending[i].oid], size).value;
      assert forall j :: 0 <= j < |es| ==> Usable(es[j], pending[i].prefix);
    }
  }

  lemma LevelStep(store: Store, size: nat, done: seq<Pending>, dir: Pending)
    requires LevelAcceptable(store, size, done)
    requires dir.oid in store && Acceptable(store[dir.oid], size, dir.prefix)
    ensures LevelAcceptable(store, size, done + [dir])
    ensures Walkable(store, size, done) && Walkable(store, size, done + [dir]) && Parse(store[dir.oid], size).Some?
    ensures LevelRows(store, size, done + [dir]) ==
      LevelRows(store, size, done) + Files(Parse(store[dir.oid], size).value, dir.prefix)
    ensures LevelDirs(store, size, done + [dir]) ==
      LevelDirs(store, size, done) + Dirs(Parse(store[dir.oid], size).value, dir.prefix)
  {
    hide Parse, Files, Dirs, AllUsable;
    AcceptableIsWalkable(store, size, done);
    AcceptableIsWalkable(store, size, done + [dir]);
    assert (done + [dir])[..|done|] == done;
  }

  lemma {:induction false} LevelRowsMonotone(store: Store, size: nat, pending: seq<Pending>, count: nat)
    requires Walkable(store, size, pending) && count <= |pending|
    ensures |LevelRows(store, size, pending[..count])| <= |LevelRows(store, size, pending)|
    decreases |pending|
  {
    hide Parse, Files;
    if count == |pending| {
      assert pending[..count] == pending;
    } else {
      LevelRowsMonotone(store, size, pending[..|pending| - 1], count);
      assert pending[..|pending| - 1][..count] == pending[..count];
    }
  }

  /** Every tree of the level is in the cache. */
  ghost predicate Cached(pending: seq<Pending>, cache: Store) {
    forall i :: 0 <= i < |pending| ==> pending[i].oid in cache
  }

  /** Every recorded path lies on a level before `depth`. */
  ghost predicate Above(output: Output, depth: nat) {
    forall path :: path in output ==> Slashes(path) < depth
  }

  /** Every recorded path lies above this level or directly under one of the first `count` prefixes. */
  ghost predicate Charted(output: Output, pending: seq<Pending>, count: nat, depth: nat)
    requires count <= |pending|
  {
    forall path :: path in output ==>
      Slashes(path) < depth || exists j :: 0 <= j < count && DirectChild(path, pending[j].prefix)
  }

  lemma ChartedFresh(output: Output, pending: seq<Pending>, count: nat, depth: nat)
    requires LevelShape(pending, depth) && count < |pending| && Charted(output, pending, count, depth)
    ensures forall path :: path in output ==> !DirectChild(path, pending[count].prefix)
  {
    hide Slashes, DirectChild;
    forall path | path in output && DirectChild(path, pending[count].prefix) ensures false {
      ChildSlashes(path, pending[count].prefix);
      var j :| 0 <= j < count && DirectChild(path, pending[j].prefix);
      OnePrefix(path, pending[j].prefix, pending[count].prefix);
    }
  }

  lemma ChartedStep(output: Output, grown: Output, pending: seq<Pending>, count: nat, depth: nat)
    requires count < |pending| && Charted(output, pending, count, depth)
    requires forall path :: path in grown ==> path in output || DirectChild(path, pending[count].prefix)
    ensures Charted(grown, pending, count + 1, depth)
  {
    hide Slashes, DirectChild;
  }

  lemma ChartedDone(output: Output, pending: seq<Pending>, depth: nat)
    requires LevelShape(pending, depth) && Charted(output, pending, |pending|, depth)
    ensures Above(output, depth + 1)
  {
    hide Slashes, DirectChild;
    forall path | path in output ensures Slashes(path) < depth + 1 {
      if Slashes(path) >= depth {
        var j :| 0 <= j < |pending| && DirectChild(path, pending[j].prefix);
        ChildSlashes(path, pending[j].prefix);
      }
    }
  }

  /** The `for oid, prefix in pending` loop. */
  method WalkLevel(cache: Store, size: nat, pending: seq<Pending>, ghost depth: nat, maxFiles: nat, output0: Output,
      ghost rows0: seq<Row>)
    returns (failure: Option<Failure>, output: Output, following: seq<Pending>)
    requires Cached(pending, cache) && LevelShape(pending, depth) && Above(output0, depth)
    requires Recorded(output0, rows0) && |output0| == |rows0| <= maxFiles
    ensures failure.None? ==> LevelAcceptable(cache, size, pending) && Walkable(cache, size, pending)
    ensures failure.None? ==> following == LevelDirs(cache, size, pending)
    ensures failure.None? ==> Recorded(output, rows0 + LevelRows(cache, size, pending))
    ensures failure.None? ==> |output| == |rows0| + |LevelRows(cache, size, pending)| <= maxFiles
    ensures failure.None? ==> Above(output, depth + 1)
    ensures failure != Some(BadEntry(DuplicatePath))
    ensures failure.Some? ==>
      !(LevelAcceptable(cache, size, pending) && Walkable(cache, size, pending) &&
        |rows0| + |LevelRows(cache, size, pending)| <= maxFiles)
  {
    hide Parse, Files, Dirs, Slashes, DirectChild, Acceptable, Recorded, LevelShape, Charted;
    output, following := output0, [];
    ChartedStart(output0, pending, depth);
    LevelStart(cache, size, pending, rows0);
    for i := 0 to |pending|
      invariant LevelAcceptable(cache, size, pending[..i]) && Walkable(cache, size, pending[..i])
      invariant following == LevelDirs(cache, size, pending[..i])
      invariant Recorded(output, rows0 + LevelRows(cache, size, pending[..i]))
      invariant |output| == |rows0 + LevelRows(cache, size, pending[..i])| <= maxFiles
      invariant Charted(output, pending, i, depth)
    {
      var dir := pending[i];
      ghost var done, rows := pending[..i], rows0 + LevelRows(cache, size, pending[..i]);
      ghost var output' := output;
      ChartedFresh(output, pending, i, depth);
      failure, output, following := ScanTree(cache[dir.oid], size, dir.prefix, maxFiles, output, following, rows);
      if failure.Some? {
        LevelFails(cache, size, pending, i, rows0, maxFiles);
        return failure, output, following;
      }
      LevelStep(cache, size, done, dir);
      assert pending[..i + 1] == done + [dir];
      ChartedStep(output', output, pending, i, depth);
      assert rows + Files(Parse(cache[dir.oid], size).value, dir.prefix) ==
        rows0 + LevelRows(cache, size, pending[..i + 1]);
    }
    assert pending[..|pending|] == pending;
    ChartedDone(output, pending, depth);
    return None, output, following;
  }

  lemma ChartedStart(output: Output, pending: seq<Pending>, depth: nat)
    requires Above(output, depth)
    ensures Charted(output, pending, 0, depth)
  {
  }

  lemma LevelStart(store: Store, size: nat, pending: seq<Pending>, rows0: seq<Row>)
    ensures LevelAcceptable(store, size, pending[..0]) && Walkable(store, size, pending[..0])
    ensures LevelDirs(store, size, pending[..0]) == [] && rows0 + LevelRows(store, size, pending[..0]) == rows0
  {
  }

  /** If the whole level were acceptable and small enough, so would its first `i + 1` trees be. */
  lemma LevelFails(store: Store, size: nat, pending: seq<Pending>, i: nat, rows0: seq<Row>, maxFiles: nat)
    requires i < |pending| && LevelAcceptable(store, size, pending[..i]) && Walkable(store, size, pending[..i])
    requires pending[i].oid in store
    requires !(Acceptable(store[pending[i].oid], size, pending[i].prefix) && Parse(store[pending[i].oid], size).Some? &&
      |rows0 + LevelRows(store, size, pending[..i])|
        + |Files(Parse(store[pending[i].oid], size).value, pending[i].prefix)| <= maxFiles)
    ensures !(LevelAcceptable(store, size, pending) && Walkable(store, size, pending) &&
      |rows0| + |LevelRows(store, size, pending)| <= maxFiles)
  {
    hide Parse, Files, Acceptable;
    if LevelAcceptable(store, size, pending) && Walkable(store, size, pending) {
      LevelStep(store, size, pending[..i], pending[i]);
      assert pending[..i + 1] == pending[..i] + [pending[i]];
      LevelRowsMonotone(store, size, pending, i + 1);
    }
  }

  // ----- growing caches do not change what was read

  lemma {:induction false} LevelStable(small: Store, large: Store, size: nat, pending: seq<Pending>)
    requires Extends(small, large) && Walkable(small, size, pending)
    ensures Walkable(large, size, pending)
    ensures LevelRows(large, size, pending) == LevelRows(small, size, pending)
    ensures LevelDirs(large, size, pending) == LevelDirs(small, size, pending)
  {
    hide Parse, Files, Dirs, Supported;
    if pending != [] {
      LevelStable(small, large, size, pending[..|pending| - 1]);
    }
  }

  lemma {:induction false} WalkStable(small: Store, large: Store, size: nat, levels: seq<seq<Pending>>, count: nat)
    requires Extends(small, large) && Walk(small, size, levels) && count < |levels|
    ensures Walk(large, size, levels)
    ensures WalkRows(large, size, levels, count) == WalkRows(small, size, levels, count)
  {
    hide LevelRows, LevelDirs, Walkable, Extends;
    forall k | 0 <= k < |levels| - 1
      ensures Walkable(large, size, levels[k]) && levels[k + 1] == LevelDirs(large, size, levels[k])
    {
      LevelStable(small, large, size, levels[k]);
    }
    if count > 0 {
      LevelStable(small, large, size, levels[count - 1]);
      WalkStable(small, large, size, levels, count - 1);
    }
  }

  lemma WalkStep(store: Store, size: nat, levels: seq<seq<Pending>>, following: seq<Pending>)
    requires levels != [] && Walk(store, size, levels) && Walkable(store, size, levels[|levels| - 1])
    requires following == LevelDirs(store, size, levels[|levels| - 1])
    ensures Walk(store, size, levels + [following])
    ensures WalkRows(store, size, levels + [following], |levels|) ==
      WalkRows(store, size, levels, |levels| - 1) + LevelRows(store, size, levels[|levels| - 1])
  {
    hide LevelRows, LevelDirs, Walkable;
    var longer := levels + [following];
    forall k | 0 <= k < |longer| - 1
      ensures Walkable(store, size, longer[k]) && longer[k + 1] == LevelDirs(store, size, longer[k])
    {
      assert longer[k] == levels[k];
      assert k + 1 < |levels| ==> longer[k + 1] == levels[k + 1];
    }
    WalkRowsPrefix(store, size, levels, longer, |levels| - 1);
  }

  lemma {:induction false} WalkRowsPrefix(store: Store, size: nat, levels: seq<seq<Pending>>,
      longer: seq<seq<Pending>>, count: nat)
    requires Walk(store, size, levels) && Walk(store, size, longer) && count < |levels| && levels <= longer
    ensures WalkRows(store, size, longer, count) == WalkRows(store, size, levels, count)
  {
    hide LevelRows, LevelDirs, Walkable;
    if count > 0 {
      WalkRowsPrefix(store, size, levels, longer, count - 1);
      assert levels[count - 1] == longer[count - 1];
    }
  }

  // ----- the sorted result

  predicate PathsAscend(rows: seq<Row>) {
    forall i, j :: 0 <= i < j < |rows| ==> Order.Less(rows[i].path, rows[j].path)
  }

  /** `sorted(output.items())`. */
  function SortedRows(output: Output): (rows: seq<Row>)
    ensures |rows| == |SortedBytes(output.Keys)|
    ensures forall i :: 0 <= i < |rows| ==>
      && rows[i].path == SortedBytes(output.Keys)[i]
      && rows[i].path in output
      && (rows[i].mode, rows[i].oid) == output[rows[i].path]
  {
    var keys := SortedBytes(output.Keys);
    assert forall i :: 0 <= i < |keys| ==> keys[i] in output;
    seq(|keys|, i requires 0 <= i < |keys| => Row(keys[i], output[keys[i]].0, output[keys[i]].1))
  }

  lemma SortedRowsAscend(output: Output)
    ensures PathsAscend(SortedRows(output))
  {
    hide SortedRows, SortedBytes, Order.Less;
    var keys, rows := SortedBytes(output.Keys), SortedRows(output);
    assert forall i, j :: 0 <= i < j < |keys| ==> Order.Less(keys[i], keys[j]);
  }

  lemma AscendingPathsDiffer(rows: seq<Row>)
    requires PathsAscend(rows)
    ensures forall i, j :: 0 <= i < j < |rows| ==> rows[i].path != rows[j].path
  {
    hide Order.Less;
    forall i, j | 0 <= i < j < |rows| ensures rows[i].path != rows[j].path {
      Order.Irreflexive(rows[i].path);
    }
  }

  lemma SortedRowsRecorded(output: Output)
    ensures Recorded(output, SortedRows(output)) && PathsAscend(SortedRows(output))
  {
    hide SortedRows, SortedBytes, Order.Less, PathsAscend;
    SortedRowsAscend(output);
    AscendingPathsDiffer(SortedRows(output));
    var keys, rows := SortedBytes(output.Keys), SortedRows(output);
    forall path | path in output ensures exists i :: 0 <= i < |rows| && rows[i].path == path {
      assert path in output.Keys && path in keys;
      var i :| 0 <= i < |keys| && keys[i] == path;
      assert rows[i].path == path;
    }
  }

  lemma {:induction false} DistinctCount(rows: seq<Row>, row: Row)
    requires forall i, j :: 0 <= i < j < |rows| ==> rows[i] != rows[j]
    ensures multiset(rows)[row] == if row in rows then 1 else 0
  {
    if rows != [] {
      DistinctCount(rows[1..], row);
      assert rows == [rows[0]] + rows[1..];
    }
  }

  lemma RecordedSame(output: Output, a: seq<Row>, b: seq<Row>)
    requires Recorded(output, a) && Recorded(output, b)
    ensures multiset(a) == multiset(b)
  {
    forall row: Row ensures multiset(a)[row] == multiset(b)[row] {
      DistinctCount(a, row);
      DistinctCount(b, row);
      RecordedIn(output, a, row);
      RecordedIn(output, b, row);
    }
  }

  lemma RecordedIn(output: Output, rows: seq<Row>, row: Row)
    requires Recorded(output, rows)
    ensures row in rows <==> row.path in output && output[row.path] == (row.mode, row.oid)
  {
    if row.path in output && output[row.path] == (row.mode, row.oid) {
      var i :| 0 <= i < |rows| && rows[i].path == row.path;
      assert rows[i] == row;
    }
  }
}
