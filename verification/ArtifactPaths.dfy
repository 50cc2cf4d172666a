/** `agent_protocol._normalized_artifact_path` through `PurePosixPath`, and what it accepts. */
module ArtifactPaths {
  import opened Text

  const SLASH: Code := 47
  const BACKSLASH: Code := 92
  const DOT: seq<Code> := [46]
  const DOTDOT: seq<Code> := [46, 46]

  /** The text between slashes. */
  function Components(s: seq<Code>): (parts: seq<seq<Code>>)
    ensures parts != []
  {
    if s == [] then [[]]
    else
      var rest := Components(s[1..]);
      if s[0] == SLASH then [[]] + rest else [[s[0]] + rest[0]] + rest[1..]
  }

  function Join(parts: seq<seq<Code>>): seq<Code>
    requires parts != []
  {
    if |parts| == 1 then parts[0] else parts[0] + ([SLASH] + Join(parts[1..]))
  }

  /** `PurePosixPath.parts` of a relative path: empty and `.` components disappear. */
  function Kept(parts: seq<seq<Code>>): seq<seq<Code>> {
    if parts == [] then []
    else if parts[0] == [] || parts[0] == DOT then Kept(parts[1..])
    else [parts[0]] + Kept(parts[1..])
  }

  /** `as_posix` of a relative path. */
  function AsPosix(s: seq<Code>): seq<Code> {
    var kept := Kept(Components(s));
    if kept == [] then DOT else Join(kept)
  }

  /** The checks of the code on a non-empty string. */
  predicate NormalPath(s: seq<Code>) {
    && s != [] && s[0] != SLASH
    && AsPosix(s) == s
    && BACKSLASH !in s
    && forall part :: part in Kept(Components(s)) ==> part != [] && part != DOT && part != DOTDOT
  }

  lemma {:induction false} JoinComponents(s: seq<Code>)
    ensures Join(Components(s)) == s
  {
    if s != [] {
      JoinComponents(s[1..]);
      var rest := Components(s[1..]);
      if s[0] == SLASH {
        assert ([[]] + rest)[1..] == rest;
      } else {
        assert ([[s[0]] + rest[0]] + rest[1..])[1..] == rest[1..];
      }
      assert s == [s[0]] + s[1..];
    }
  }

  lemma {:induction false} KeptShorter(parts: seq<seq<Code>>)
    requires parts != [] && Kept(parts) != []
    ensures |Join(Kept(parts))| <= |Join(parts)|
    ensures Kept(parts) != parts ==> |Join(Kept(parts))| < |Join(parts)|
  {
    var rest := parts[1..];
    assert parts == [parts[0]] + rest;
    if rest != [] {
      var dropped := parts[0] == [] || parts[0] == DOT;
      if Kept(rest) != [] {
        KeptShorter(rest);
      }
      if !dropped {
        assert Kept(parts)[1..] == Kept(rest);
      }
    }
  }

  lemma {:induction false} KeptMembers(parts: seq<seq<Code>>)
    ensures forall part :: part in Kept(parts) ==> part in parts && part != [] && part != DOT
    ensures Kept(parts) == parts <==> forall part :: part in parts ==> part != [] && part != DOT
  {
    if parts != [] {
      KeptMembers(parts[1..]);
      KeptSize(parts[1..]);
      assert parts == [parts[0]] + parts[1..];
      if parts[0] != [] && parts[0] != DOT {
        assert Kept(parts)[1..] == Kept(parts[1..]);
        assert forall part :: part in parts <==> part == parts[0] || part in parts[1..];
        assert Kept(parts) == parts <==> Kept(parts[1..]) == parts[1..];
      } else {
        assert parts[0] in parts;
      }
    }
  }

  lemma {:induction false} KeptSize(parts: seq<seq<Code>>)
    ensures |Kept(parts)| <= |parts|
  {
    if parts != [] {
      KeptSize(parts[1..]);
    }
  }

  predicate OrdinaryComponents(s: seq<Code>) {
    forall part :: part in Components(s) ==> part != [] && part != DOT && part != DOTDOT
  }

  /** Exactly the paths whose every component is a name, and also the single dot. */
  lemma NormalPathMeans(s: seq<Code>)
    ensures NormalPath(s) <==> s == DOT || (OrdinaryComponents(s) && BACKSLASH !in s)
  {
    var parts := Components(s);
    JoinComponents(s);
    KeptMembers(parts);
    if s == DOT {
      assert Components(s[1..]) == [[]];
      assert parts == [DOT];
      assert Kept(parts) == [];
    } else {
      if AsPosix(s) == s && Kept(parts) != parts {
        KeptShorter(parts);
      }
      if s != [] && s[0] == SLASH {
        assert [] in parts;
      }
      if s == [] {
        assert [] in parts;
      }
    }
  }
}
