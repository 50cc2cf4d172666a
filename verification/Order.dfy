/** Python's order on `str` and `bytes`, and `sorted` over a set of such keys.

    Text and raw bytes are both sequences of integers (code points or byte values), so one
    lexicographic order serves Git paths, object ids, JSON keys and candidate identities. */
module Order {

  predicate Less(a: seq<int>, b: seq<int>) {
    b != [] && (a == [] || a[0] < b[0] || (a[0] == b[0] && Less(a[1..], b[1..])))
  }

  lemma {:induction false} Irreflexive(a: seq<int>)
    ensures !Less(a, a)
  {
    if a != [] {
      Irreflexive(a[1..]);
    }
  }

  lemma {:induction false} Transitive(a: seq<int>, b: seq<int>, c: seq<int>)
    requires Less(a, b) && Less(b, c)
    ensures Less(a, c)
  {
    if a != [] && a[0] == b[0] == c[0] {
      Transitive(a[1..], b[1..], c[1..]);
    }
  }

  lemma {:induction false} Total(a: seq<int>, b: seq<int>)
    ensures a == b || Less(a, b) || Less(b, a)
  {
    if a != [] && b != [] && a[0] == b[0] {
      Total(a[1..], b[1..]);
      assert a == [a[0]] + a[1..] && b == [b[0]] + b[1..];
    }
  }

  /** The order of the first difference, a beginning before what it begins. */
  lemma {:induction false} LessMeans(a: seq<int>, b: seq<int>)
    ensures Less(a, b) <==>
      exists n :: 0 <= n <= |a| && n < |b| && a[..n] == b[..n] && (n == |a| || a[n] < b[n])
  {
    if a != [] && b != [] && a[0] == b[0] {
      LessMeans(a[1..], b[1..]);
      var x, y := a[1..], b[1..];
      if n :| 0 <= n <= |x| && n < |y| && x[..n] == y[..n] && (n == |x| || x[n] < y[n]) {
        assert a[..n + 1] == [a[0]] + x[..n] && b[..n + 1] == [b[0]] + y[..n];
      }
      if n :| 0 < n <= |a| && n < |b| && a[..n] == b[..n] && (n == |a| || a[n] < b[n]) {
        assert x[..n - 1] == a[..n][1..] && y[..n - 1] == b[..n][1..];
      }
    } else if b != [] {
      assert a[..0] == b[..0];
    }
  }

  predicate Ascending(s: seq<seq<int>>) {
    forall i, j :: 0 <= i < j < |s| ==> Less(s[i], s[j])
  }

  /** `keys` lists exactly the members of `s`. */
  predicate Lists(keys: seq<seq<int>>, s: set<seq<int>>) {
    (forall k :: k in keys ==> k in s) && (forall k :: k in s ==> k in keys)
  }

  lemma LeastExists(s: set<seq<int>>) returns (least: seq<int>)
    requires s != {}
    ensures least in s && forall k :: k in s && k != least ==> Less(least, k)
  {
    least :| least in s;
    var rest := s - {least};
    assert forall k :: k in s && k != least ==> k in rest;
    if rest != {} {
      var other := LeastExists(rest);
      Total(least, other);
      if Less(other, least) {
        forall k | k in s && k != other ensures Less(other, k) {
        }
        least := other;
      } else {
        forall k | k in s && k != least ensures Less(least, k) {
          if k != other {
            Transitive(least, other, k);
          }
        }
      }
    }
  }

  function Least(s: set<seq<int>>): (least: seq<int>)
    requires s != {}
    ensures least in s && forall k :: k in s && k != least ==> Less(least, k)
  {
    assert exists m :: m in s && forall k :: k in s && k != m ==> Less(m, k) by {
      var m := LeastExists(s);
    }
    assert forall a, b :: a in s && b in s && a != b && Less(a, b) ==> !Less(b, a) by {
      forall a, b | a in s && b in s && Less(a, b) ensures !Less(b, a) {
        if Less(b, a) {
          Transitive(a, b, a);
          Irreflexive(a);
        }
      }
    }
    var m :| m in s && forall k :: k in s && k != m ==> Less(m, k);
    m
  }

  /** Python's `sorted` on a set of keys. */
  function Sorted(s: set<seq<int>>): (keys: seq<seq<int>>)
    ensures Ascending(keys) && Lists(keys, s) && |keys| == |s|
  {
    if s == {} then [] else
      var least := Least(s);
      [least] + Sorted(s - {least})
  }
}
