/** The field checks of `agent_protocol.py` that every decoder above it shares. */
module JsonChecks {
  import opened Text
  import opened Wire
  import opened WireRoundTrip
  import opened Journal

  /** `_require_utf8`: no surrogate code point. */
  predicate EncodableString(s: seq<Code>) {
    forall i :: 0 <= i < |s| ==> !High(s[i]) && !Low(s[i])
  }

  /** `normalize_json_value` changes no float-free document; it refuses strings UTF-8 cannot encode. */
  predicate Encodable(v: Json) {
    match v
    case Str(s) => EncodableString(s)
    case Arr(items) => forall i :: 0 <= i < |items| ==> Encodable(items[i])
    case Obj(fields) => forall k :: k in fields ==> EncodableString(k) && Encodable(fields[k])
    case _ => true
  }

  /** A string or a key anywhere in the document. */
  ghost predicate Occurs(s: seq<Code>, v: Json)
    decreases v
  {
    match v
    case Str(t) => s == t
    case Arr(items) => exists i :: 0 <= i < |items| && Occurs(s, items[i])
    case Obj(fields) => exists k :: k in fields && (s == k || Occurs(s, fields[k]))
    case _ => false
  }

  ghost predicate NoSurrogates(s: seq<Code>) {
    forall c :: c in s ==> !(0xD800 <= c <= 0xDFFF)
  }

  lemma EncodableStringIff(s: seq<Code>)
    ensures EncodableString(s) <==> NoSurrogates(s)
  {
    if NoSurrogates(s) {
      assert forall i :: 0 <= i < |s| ==> s[i] in s;
    }
  }

  /** A document is refused exactly for a surrogate in some string or key. */
  lemma {:induction false} EncodableIff(v: Json)
    ensures Encodable(v) <==> forall s :: Occurs(s, v) ==> NoSurrogates(s)
  {
    hide EncodableString, NoSurrogates;
    match v
    case Str(t) => EncodableStringIff(t);
    case Arr(items) =>
      forall i | 0 <= i < |items|
        ensures Encodable(items[i]) <==> forall s :: Occurs(s, items[i]) ==> NoSurrogates(s)
      {
        EncodableIff(items[i]);
      }
      assert forall i, s :: 0 <= i < |items| && Occurs(s, items[i]) ==> Occurs(s, v);
    case Obj(fields) =>
      forall k | k in fields
        ensures Encodable(fields[k]) <==> forall s :: Occurs(s, fields[k]) ==> NoSurrogates(s)
        ensures EncodableString(k) <==> NoSurrogates(k)
      {
        EncodableIff(fields[k]);
        EncodableStringIff(k);
      }
      assert forall k :: k in fields ==> Occurs(k, v);
      assert forall k, s :: k in fields && Occurs(s, fields[k]) ==> Occurs(s, v);
    case _ =>
  }

  /** `require_nonempty_string`. */
  predicate NonEmptyString(v: Json) {
    v.Str? && v.s != [] && EncodableString(v.s) && 0 !in v.s
  }

  /** In terms of code points: something, and neither NUL nor a surrogate in it. */
  lemma NonEmptyStringIff(v: Json)
    ensures NonEmptyString(v) <==>
      v.Str? && |v.s| > 0 && forall c :: c in v.s ==> c != 0 && !(0xD800 <= c <= 0xDFFF)
  {
    if v.Str? && forall c :: c in v.s ==> c != 0 && !(0xD800 <= c <= 0xDFFF) {
      assert forall i :: 0 <= i < |v.s| ==> v.s[i] in v.s;
    }
  }

  function Get(fields: Fields, key: seq<Code>): Json {
    if key in fields then fields[key] else Null
  }

  /** `require_sha256`. */
  predicate Sha256String(v: Json) {
    v.Str? && IsSha256(v.s)
  }

  /** `_git_object_id`. */
  predicate GitObjectId(v: Json) {
    v.Str? && IsOid(v.s)
  }

  lemma EncodableIsClean(s: seq<Code>)
    requires EncodableString(s)
    ensures CleanString(s)
  {
  }

  /** Python's `==` on JSON values: a boolean equals the integer it is. */
  predicate PythonEqual(a: Json, b: Json)
    decreases a
  {
    match a
    case Null => b.Null?
    case Bool(p) => (b.Bool? && b.b == p) || (b.Int? && b.n == if p then 1 else 0)
    case Int(n) => (b.Int? && b.n == n) || (b.Bool? && n == if b.b then 1 else 0)
    case Str(s) => b.Str? && b.s == s
    case Arr(items) => b.Arr? && |b.items| == |items| && forall i :: 0 <= i < |items| ==>
      PythonEqual(items[i], b.items[i])
    case Obj(fields) => b.Obj? && b.fields.Keys == fields.Keys && forall k :: k in fields ==>
      PythonEqual(fields[k], b.fields[k])
  }

  lemma {:induction false} PythonEqualSelf(v: Json)
    ensures PythonEqual(v, v)
  {
    match v
    case Arr(items) =>
      forall i | 0 <= i < |items| ensures PythonEqual(items[i], items[i]) { PythonEqualSelf(items[i]); }
    case Obj(fields) =>
      forall k | k in fields ensures PythonEqual(fields[k], fields[k]) { PythonEqualSelf(fields[k]); }
    case _ =>
  }

  /** The document with every boolean replaced by the integer it equals. */
  function Numbered(v: Json): Json {
    match v
    case Bool(b) => Int(if b then 1 else 0)
    case Arr(items) => Arr(seq(|items|, i requires 0 <= i < |items| => Numbered(items[i])))
    case Obj(fields) => Obj(map k | k in fields :: Numbered(fields[k]))
    case _ => v
  }

  /** So Python's `==` tells apart what differs in more than that, and nothing else. */
  lemma {:induction false} PythonEqualIff(a: Json, b: Json)
    ensures PythonEqual(a, b) <==> Numbered(a) == Numbered(b)
  {
    match (a, b)
    case (Arr(xs), Arr(ys)) =>
      forall i | 0 <= i < |xs| && |xs| == |ys|
        ensures PythonEqual(xs[i], ys[i]) <==> Numbered(xs[i]) == Numbered(ys[i]) {
        PythonEqualIff(xs[i], ys[i]);
      }
      if Numbered(a) == Numbered(b) {
        assert |Numbered(a).items| == |xs| && |Numbered(b).items| == |ys|;
        forall i | 0 <= i < |xs| ensures PythonEqual(xs[i], ys[i]) {
          assert Numbered(a).items[i] == Numbered(b).items[i];
        }
      }
    case (Obj(xs), Obj(ys)) =>
      forall k | k in xs && k in ys ensures PythonEqual(xs[k], ys[k]) <==> Numbered(xs[k]) == Numbered(ys[k]) {
        PythonEqualIff(xs[k], ys[k]);
      }
      if Numbered(a) == Numbered(b) {
        assert Numbered(a).fields.Keys == xs.Keys && Numbered(b).fields.Keys == ys.Keys;
        forall k | k in xs ensures PythonEqual(xs[k], ys[k]) {
          assert Numbered(a).fields[k] == Numbered(b).fields[k];
        }
      }
    case _ =>
  }

  // ----- documents by their keys

  /** The value found by following these keys into nested objects. */
  function At(v: Json, path: seq<string>): Option<Json> {
    if path == [] then Some(v)
    else if !v.Obj? || Key(path[0]) !in v.fields then None
    else At(v.fields[Key(path[0])], path[1..])
  }

  /** An object with these keys and no others. */
  predicate HasKeys(v: Option<Json>, names: set<string>) {
    v.Some? && v.value.Obj? && v.value.fields.Keys == set name | name in names :: Key(name)
  }

  lemma KeysDiffer(a: string, b: string)
    ensures Key(a) == Key(b) <==> a == b
  {
    if Key(a) == Key(b) {
      assert forall i :: 0 <= i < |a| ==> Key(a)[i] == a[i] as int && Key(b)[i] == b[i] as int;
      assert forall i :: 0 <= i < |a| ==> a[i] == b[i];
    }
  }

  lemma AllKeysDiffer()
    ensures forall a, b :: Key(a) == Key(b) <==> a == b
  {
    forall a, b ensures Key(a) == Key(b) <==> a == b {
      KeysDiffer(a, b);
    }
  }

  lemma AtOne(v: Json, a: string)
    ensures At(v, [a]) == if v.Obj? && Key(a) in v.fields then Some(v.fields[Key(a)]) else None
  {
  }

  lemma AtTwo(v: Json, a: string, b: string)
    ensures At(v, [a, b]) == if At(v, [a]).None? then None else At(At(v, [a]).value, [b])
  {
    assert [a, b][1..] == [b];
    AtOne(v, a);
  }
}
