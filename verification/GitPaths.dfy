/** Paths met by the walk: a path fixes the prefix it was built from, and a prefix fixes its level. */
module GitPaths {
  import opened Text
  import opened GitTree
  import opened GitBatch
  import opened GitFlatten

  predicate PrefixShape(prefix: seq<Byte>) {
    prefix == [] || prefix[|prefix| - 1] == SLASH
  }

  /** `path` is `prefix` followed by one name. */
  predicate DirectChild(path: seq<Byte>, prefix: seq<Byte>) {
    prefix <= path && SLASH !in path[|prefix|..]
  }

  lemma OnePrefix(path: seq<Byte>, p: seq<Byte>, q: seq<Byte>)
    requires PrefixShape(p) && PrefixShape(q) && DirectChild(path, p) && DirectChild(path, q)
    ensures p == q
  {
    forall i | |p| <= i < |path| ensures path[i] != SLASH {
      assert path[i] == path[|p|..][i - |p|];
    }
    forall i | |q| <= i < |path| ensures path[i] != SLASH {
      assert path[i] == path[|q|..][i - |q|];
    }
  }

  lemma ChildName(path: seq<Byte>, prefix: seq<Byte>, name: seq<Byte>)
    requires path == prefix + name && SLASH !in name
    ensures DirectChild(path, prefix) && path[|prefix|..] == name
  {
  }

  function Slashes(s: seq<Byte>): nat {
    if s == [] then 0 else Slashes(s[..|s| - 1]) + (if s[|s| - 1] == SLASH then 1 else 0)
  }

  lemma {:induction false} SlashesConcat(a: seq<Byte>, b: seq<Byte>)
    ensures Slashes(a + b) == Slashes(a) + Slashes(b)
  {
    if b == [] {
      assert a + b == a;
    } else {
      assert (a + b)[..|a + b| - 1] == a + b[..|b| - 1];
      SlashesConcat(a, b[..|b| - 1]);
    }
  }

  lemma {:induction false} SlashesOfName(name: seq<Byte>)
    requires SLASH !in name
    ensures Slashes(name) == 0
  {
    if name != [] {
      SlashesOfName(name[..|name| - 1]);
    }
  }

  lemma ChildSlashes(path: seq<Byte>, prefix: seq<Byte>)
    requires DirectChild(path, prefix)
    ensures Slashes(path) == Slashes(prefix)
  {
    assert path == prefix + path[|prefix|..];
    SlashesConcat(prefix, path[|prefix|..]);
    SlashesOfName(path[|prefix|..]);
  }

  /** `deeper` is the prefix of a directory named directly under `prefix`. */
  predicate Below(deeper: seq<Byte>, prefix: seq<Byte>) {
    deeper != [] && deeper[|deeper| - 1] == SLASH && DirectChild(deeper[..|deeper| - 1], prefix)
  }

  ghost predicate LevelShape(pending: seq<Pending>, depth: nat) {
    && (forall i :: 0 <= i < |pending| ==> PrefixShape(pending[i].prefix) && Slashes(pending[i].prefix) == depth)
    && (forall i, j :: 0 <= i < j < |pending| ==> pending[i].prefix != pending[j].prefix)
  }

  lemma SameChild(prefix: seq<Byte>, a: seq<Byte>, b: seq<Byte>)
    ensures prefix + a + [SLASH] == prefix + b + [SLASH] <==> a == b
  {
    var pa, pb := prefix + a + [SLASH], prefix + b + [SLASH];
    assert pa[|prefix|..|pa| - 1] == a && pb[|prefix|..|pb| - 1] == b;
  }

  lemma {:induction false} DirsBelow(es: seq<Entry>, prefix: seq<Byte>, size: nat)
    requires Legal(es, size)
    ensures forall k :: 0 <= k < |Dirs(es, prefix)| ==>
      && Below(Dirs(es, prefix)[k].prefix, prefix)
      && exists i :: 0 <= i < |es| && Dirs(es, prefix)[k].prefix == prefix + es[i].name + [SLASH]
    ensures forall k, l :: 0 <= k < l < |Dirs(es, prefix)| ==> Dirs(es, prefix)[k].prefix != Dirs(es, prefix)[l].prefix
  {
    if es != [] {
      var init, e := es[..|es| - 1], es[|es| - 1];
      DirsBelow(init, prefix, size);
      var dirs, dirs0 := Dirs(es, prefix), Dirs(init, prefix);
      var last := Child(e, prefix).prefix;
      assert last[..|last| - 1] == prefix + e.name;
      ChildName(prefix + e.name, prefix, e.name);
      forall k | 0 <= k < |dirs0| ensures dirs0[k].prefix != last {
        var i :| 0 <= i < |init| && dirs0[k].prefix == prefix + init[i].name + [SLASH];
        assert init[i] == es[i];
        SameChild(prefix, init[i].name, e.name);
      }
      forall k | 0 <= k < |dirs|
        ensures Below(dirs[k].prefix, prefix)
        ensures exists i :: 0 <= i < |es| && dirs[k].prefix == prefix + es[i].name + [SLASH]
      {
        if k < |dirs0| {
          assert dirs[k] == dirs0[k];
          var i :| 0 <= i < |init| && dirs0[k].prefix == prefix + init[i].name + [SLASH];
          assert es[i] == init[i];
        } else {
          assert dirs[k].prefix == prefix + es[|es| - 1].name + [SLASH];
        }
      }
    }
  }

  lemma {:induction false} FilesBelow(es: seq<Entry>, prefix: seq<Byte>, size: nat)
    requires forall i :: 0 <= i < |es| ==> LegalEntry(es[i], size)
    ensures forall k :: 0 <= k < |Files(es, prefix)| ==> DirectChild(Files(es, prefix)[k].path, prefix)
  {
    if es != [] {
      FilesBelow(es[..|es| - 1], prefix, size);
      ChildName(prefix + es[|es| - 1].name, prefix, es[|es| - 1].name);
    }
  }

  lemma BelowShape(deeper: seq<Byte>, prefix: seq<Byte>)
    requires Below(deeper, prefix)
    ensures Slashes(deeper) == Slashes(prefix) + 1
  {
    ChildSlashes(deeper[..|deeper| - 1], prefix);
  }

  /** Each of the directories lies below one of the level. */
  ghost predicate AllBelow(dirs: seq<Pending>, pending: seq<Pending>) {
    forall k :: 0 <= k < |dirs| ==> BelowSome(dirs[k].prefix, pending)
  }

  ghost predicate BelowSome(deeper: seq<Byte>, pending: seq<Pending>) {
    exists j :: 0 <= j < |pending| && Below(deeper, pending[j].prefix)
  }

  lemma BelowMore(dirs: seq<Pending>, more: seq<Pending>, init: seq<Pending>, dir: Pending)
    requires AllBelow(dirs, init) && forall k :: 0 <= k < |more| ==> Below(more[k].prefix, dir.prefix)
    ensures AllBelow(dirs + more, init + [dir])
  {
    hide Below;
    var pending, all := init + [dir], dirs + more;
    assert pending[|init|] == dir;
    forall k | 0 <= k < |all| ensures BelowSome(all[k].prefix, pending) {
      if k < |dirs| {
        var j :| 0 <= j < |init| && Below(dirs[k].prefix, init[j].prefix);
        assert pending[j] == init[j];
      } else {
        assert all[k] == more[k - |dirs|];
      }
    }
  }

  /** Directories found below different prefixes of one shape have different prefixes. */
  lemma FoundApart(dirs: seq<Pending>, more: seq<Pending>, init: seq<Pending>, dir: Pending, depth: nat)
    requires AllBelow(dirs, init) && LevelShape(init + [dir], depth)
    requires forall k :: 0 <= k < |more| ==> Below(more[k].prefix, dir.prefix)
    ensures forall k, l :: 0 <= k < |dirs| && 0 <= l < |more| ==> dirs[k].prefix != more[l].prefix
  {
    hide Slashes, DirectChild;
    var pending := init + [dir];
    forall k, l | 0 <= k < |dirs| && 0 <= l < |more| ensures dirs[k].prefix != more[l].prefix {
      assert BelowSome(dirs[k].prefix, init);
      var j :| 0 <= j < |init| && Below(dirs[k].prefix, init[j].prefix);
      assert pending[j] == init[j] && pending[|init|] == dir;
      if dirs[k].prefix == more[l].prefix {
        OnePrefix(more[l].prefix[..|more[l].prefix| - 1], init[j].prefix, dir.prefix);
      }
    }
  }

  /** The directories found on one level are distinct and lie one level deeper. */
  lemma {:induction false} NextLevelShape(store: Store, size: nat, pending: seq<Pending>, depth: nat)
    requires Walkable(store, size, pending) && LevelShape(pending, depth)
    ensures LevelShape(LevelDirs(store, size, pending), depth + 1)
    ensures AllBelow(LevelDirs(store, size, pending), pending)
  {
    hide Parse, Slashes, DirectChild, Dirs, AllBelow;
    if pending == [] {
      assert AllBelow([], []) by { NothingBelow(); }
    } else {
      var init, dir := pending[..|pending| - 1], pending[|pending| - 1];
      NextLevelShape(store, size, init, depth);
      var es := Entries(store, size, dir);
      ParseIsInverseOfEncode(store[dir.oid], es, size);
      DirsBelow(es, dir.prefix, size);
      var dirs, more := LevelDirs(store, size, init), Dirs(es, dir.prefix);
      forall k | 0 <= k < |more| ensures Slashes(more[k].prefix) == depth + 1 {
        BelowShape(more[k].prefix, dir.prefix);
      }
      assert pending == init + [dir];
      FoundApart(dirs, more, init, dir, depth);
      BelowMore(dirs, more, init, dir);
      assert LevelDirs(store, size, pending) == dirs + more;
    }
  }

  lemma NothingBelow()
    ensures AllBelow([], [])
  {
  }
}
