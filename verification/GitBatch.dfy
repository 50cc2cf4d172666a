/** `git cat-file --batch` answers: bodies framed by a header line, checked against their ids. */
module GitBatch {
  import opened Text

  datatype Kind = Commit | Tree

  /** `hashlib` over one object kind; the flag selects SHA-1 (40-digit ids) over SHA-256. */
  type Digest = (Kind, bool, seq<Byte>) -> seq<Byte>

  /** Tree bodies by hexadecimal id: the `cache` dictionary. */
  type Store = map<seq<Byte>, seq<Byte>>

  const MAX_TREE_BYTES := 8 * 1024 * 1024
  const TREE: seq<Byte> := [116, 114, 101, 101]

  function ObjectDigest(h: Digest, kind: Kind, data: seq<Byte>, oid: seq<Byte>): seq<Byte> {
    h(kind, |oid| == 40, data)
  }

  ghost predicate Verified(h: Digest, store: Store) {
    forall oid :: oid in store ==> ObjectDigest(h, Tree, store[oid], oid) == oid
  }

  /** The body answered for `oid` at `position`, and the position behind it. */
  function NextBody(h: Digest, batch: seq<Byte>, position: nat, oid: seq<Byte>):
      (r: Option<(seq<Byte>, nat)>)
    requires position <= |batch|
    ensures r.Some? ==> position < r.value.1 <= |batch| && |r.value.0| <= MAX_TREE_BYTES
    ensures r.Some? ==> ObjectDigest(h, Tree, r.value.0, oid) == oid
  {
    var end := Index(batch, NEWLINE, position);
    if end.None? then None else
      var fields := Split(batch[position..end.value]);
      if |fields| != 3 then None else
        var size := PythonInt(fields[2]);
        if size.None? || fields[0] != oid || fields[1] != TREE || !(0 <= size.value <= MAX_TREE_BYTES) then None else
          var from, to := end.value + 1, end.value + 1 + size.value;
          if to >= |batch| || batch[to] != NEWLINE || ObjectDigest(h, Tree, batch[from..to], oid) != oid then None
          else Some((batch[from..to], to + 1))
  }

  datatype Fetched = Fetched(cache: Store, total: nat)

  /** What the answers from `position` on add to the cache and the byte total; None is the
      "missing, oversized, or do not match" error. */
  function ReadBatch(h: Digest, batch: seq<Byte>, position: nat, missing: seq<seq<Byte>>, cache: Store, total: nat):
      Option<Fetched>
    requires position <= |batch|
    decreases |missing|
  {
    if missing == [] then if position == |batch| then Some(Fetched(cache, total)) else None
    else
      var next := NextBody(h, batch, position, missing[0]);
      if next.None? || total + |next.value.0| > MAX_TREE_BYTES then None
      else ReadBatch(h, batch, next.value.1, missing[1..], cache[missing[0] := next.value.0], total + |next.value.0|)
  }

  /** The `for oid in missing` loop. */
  method LoadMissing(h: Digest, batch: seq<Byte>, missing: seq<seq<Byte>>, cache0: Store, total0: nat)
    returns (r: Option<Fetched>)
    ensures r == ReadBatch(h, batch, 0, missing, cache0, total0)
  {
    hide NextBody;
    var position: nat, total: nat := 0, total0;
    var cache := cache0;
    for i := 0 to |missing|
      invariant position <= |batch|
      invariant ReadBatch(h, batch, 0, missing, cache0, total0) ==
        ReadBatch(h, batch, position, missing[i..], cache, total)
    {
      var next := NextBody(h, batch, position, missing[i]);
      if next.None? {
        return None;
      }
      total := total + |next.value.0|;
      if total > MAX_TREE_BYTES {
        return None;
      }
      cache := cache[missing[i] := next.value.0];
      position := next.value.1;
      assert missing[i..][1..] == missing[i + 1..];
    }
    if position != |batch| {
      return None;
    }
    return Some(Fetched(cache, total));
  }

  // ----- byte total of a store

  ghost function BytesOf(store: Store): nat
    decreases |store|
  {
    if store == map[] then 0 else
      var oid :| oid in store;
      |store[oid]| + BytesOf(store - {oid})
  }

  lemma {:induction false} BytesOfWithout(store: Store, oid: seq<Byte>)
    requires oid in store
    ensures BytesOf(store) == |store[oid]| + BytesOf(store - {oid})
    decreases |store|
  {
    var pick :| pick in store && BytesOf(store) == |store[pick]| + BytesOf(store - {pick});
    if pick != oid {
      BytesOfWithout(store - {pick}, oid);
      BytesOfWithout(store - {oid}, pick);
      assert store - {pick} - {oid} == store - {oid} - {pick};
    }
  }

  lemma BytesOfAdded(store: Store, oid: seq<Byte>, body: seq<Byte>)
    requires oid !in store
    ensures BytesOf(store[oid := body]) == BytesOf(store) + |body|
  {
    BytesOfWithout(store[oid := body], oid);
    assert store[oid := body] - {oid} == store;
  }

  // ----- what an accepted batch did

  predicate Distinct(ids: seq<seq<Byte>>) {
    forall i, j :: 0 <= i < j < |ids| ==> ids[i] != ids[j]
  }

  predicate Extends(small: Store, large: Store) {
    forall oid :: oid in small ==> oid in large && large[oid] == small[oid]
  }

  /** An accepted batch adds one digest-checked body per requested id and nothing else. */
  lemma {:induction false} ReadBatchSound(h: Digest, batch: seq<Byte>, position: nat, missing: seq<seq<Byte>>,
      cache: Store, total: nat)
    requires position <= |batch| && ReadBatch(h, batch, position, missing, cache, total).Some?
    requires Verified(h, cache) && total == BytesOf(cache) <= MAX_TREE_BYTES
    requires Distinct(missing) && forall i :: 0 <= i < |missing| ==> missing[i] !in cache
    ensures var f := ReadBatch(h, batch, position, missing, cache, total).value;
      && Verified(h, f.cache) && Extends(cache, f.cache)
      && (forall oid :: oid in f.cache <==> oid in cache || oid in missing)
      && f.total == BytesOf(f.cache) <= MAX_TREE_BYTES
    decreases |missing|
  {
    hide NextBody, BytesOf;
    if missing != [] {
      var next := NextBody(h, batch, position, missing[0]).value;
      BytesOfAdded(cache, missing[0], next.0);
      ReadBatchSound(h, batch, next.1, missing[1..], cache[missing[0] := next.0], total + |next.0|);
      assert forall oid :: oid in missing <==> oid == missing[0] || oid in missing[1..];
    }
  }

  // ----- well-formed answers are read back exactly

  predicate LegalOid(oid: seq<Byte>) {
    oid != [] && NoBlank(oid)
  }

  function Header(oid: seq<Byte>, size: nat): seq<Byte> {
    Joined([oid, TREE, Decimal(size)])
  }

  function Frame(oid: seq<Byte>, body: seq<Byte>): seq<Byte> {
    Header(oid, |body|) + ([NEWLINE] + (body + [NEWLINE]))
  }

  function Frames(ids: seq<seq<Byte>>, store: Store): seq<Byte>
    requires forall i :: 0 <= i < |ids| ==> ids[i] in store
  {
    if ids == [] then [] else Frame(ids[0], store[ids[0]]) + Frames(ids[1..], store)
  }

  lemma HeaderFields(oid: seq<Byte>, size: nat)
    requires LegalOid(oid)
    ensures Split(Header(oid, size)) == [oid, TREE, Decimal(size)]
    ensures NEWLINE !in Header(oid, size)
  {
    var words := [oid, TREE, Decimal(size)];
    SplitJoined(words);
    assert words[1..] == [TREE, Decimal(size)] && words[1..][1..] == [Decimal(size)];
    assert Joined(words[1..][1..]) == Decimal(size);
    assert Joined(words[1..]) == TREE + ([SPACE] + Joined(words[1..][1..]));
    assert Header(oid, size) == oid + ([SPACE] + (TREE + ([SPACE] + Decimal(size))));
    forall c | c in Header(oid, size) ensures c != NEWLINE {
      assert c in oid || c == SPACE || c in TREE || c in Decimal(size);
    }
  }

  lemma FramePieces(batch: seq<Byte>, position: nat, header: seq<Byte>, body: seq<Byte>, after: seq<Byte>)
    requires position <= |batch|
    requires batch[position..] == header + ([NEWLINE] + (body + [NEWLINE])) + after
    ensures var end := position + |header|; var to := end + 1 + |body|;
      && to < |batch| && batch[position..end] == header && batch[end] == NEWLINE
      && batch[end + 1..to] == body && batch[to] == NEWLINE && batch[to + 1..] == after
  {
    var here := batch[position..];
    assert here == header + ([NEWLINE] + (body + ([NEWLINE] + after)));
    var end := |header|;
    var to := end + 1 + |body|;
    assert here[..end] == header && here[end] == NEWLINE;
    assert here[end + 1..to] == body && here[to] == NEWLINE && here[to + 1..] == after;
  }

  lemma NextBodyOfFrame(h: Digest, batch: seq<Byte>, position: nat, oid: seq<Byte>, body: seq<Byte>, after: seq<Byte>)
    requires position <= |batch| && batch[position..] == Frame(oid, body) + after
    requires LegalOid(oid) && |body| <= MAX_TREE_BYTES && ObjectDigest(h, Tree, body, oid) == oid
    ensures NextBody(h, batch, position, oid).Some?
    ensures var next := NextBody(h, batch, position, oid).value;
      next.0 == body && next.1 <= |batch| && batch[next.1..] == after
  {
    hide Index, Split, PythonInt, Header, Joined;
    var header := Header(oid, |body|);
    HeaderFields(oid, |body|);
    FramePieces(batch, position, header, body, after);
    var end := position + |header|;
    forall i | position <= i < end ensures batch[i] != NEWLINE {
      assert batch[i] == batch[position..end][i - position];
    }
    IndexAt(batch, NEWLINE, position, end);
    PythonIntOfDecimal(|body|);
  }

  /** Whatever newlines the bodies contain, Git's framing of the requested bodies is read back as
      exactly those bodies. */
  lemma {:induction false} ReadBatchOfFrames(h: Digest, batch: seq<Byte>, position: nat, missing: seq<seq<Byte>>,
      store: Store, cache: Store, total: nat)
    requires Verified(h, store) && forall i :: 0 <= i < |missing| ==> missing[i] in store && LegalOid(missing[i])
    requires position <= |batch| && batch[position..] == Frames(missing, store)
    requires total == BytesOf(cache) && Extends(cache, store) && BytesOf(store) <= MAX_TREE_BYTES
    requires Distinct(missing) && forall i :: 0 <= i < |missing| ==> missing[i] !in cache
    ensures ReadBatch(h, batch, position, missing, cache, total).Some?
    ensures var f := ReadBatch(h, batch, position, missing, cache, total).value;
      && Extends(f.cache, store)
      && (forall oid :: oid in f.cache <==> oid in cache || oid in missing)
    decreases |missing|
  {
    hide NextBody, BytesOf, Frame;
    if missing != [] {
      var oid, body := missing[0], store[missing[0]];
      BytesOfAdded(cache, oid, body);
      var grown := cache[oid := body];
      BytesOfExtends(grown, store);
      NextBodyOfFrame(h, batch, position, oid, body, Frames(missing[1..], store));
      var next := NextBody(h, batch, position, oid).value;
      ReadBatchOfFrames(h, batch, next.1, missing[1..], store, grown, total + |body|);
      assert forall oid :: oid in missing <==> oid == missing[0] || oid in missing[1..];
    }
  }

  lemma {:induction false} BytesOfExtends(small: Store, large: Store)
    requires Extends(small, large)
    ensures BytesOf(small) <= BytesOf(large)
    decreases |small|
  {
    if small != map[] {
      var oid :| oid in small;
      BytesOfWithout(small, oid);
      BytesOfWithout(large, oid);
      BytesOfExtends(small - {oid}, large - {oid});
    }
  }

  // ----- how long an answer is

  const MAX_OID := 64

  /** Every Git answer is read up to this many bytes. */
  const MAX_BATCH := MAX_TREE_BYTES + 512 * 1024

  /** A header is the identity, the kind, a size of at most seven digits and two blanks; a frame has two newlines
      more. */
  const MAX_FRAMING := MAX_OID + 15

  lemma FrameLength(oid: seq<Byte>, body: seq<Byte>)
    requires |oid| <= MAX_OID && |body| <= MAX_TREE_BYTES
    ensures |Frame(oid, body)| <= |body| + MAX_FRAMING
  {
    DecimalLength(|body|, 7);
    hide Decimal;
    var words := [oid, TREE, Decimal(|body|)];
    assert words[1..] == [TREE, Decimal(|body|)] && words[1..][1..] == [Decimal(|body|)];
    assert Joined(words[1..][1..]) == Decimal(|body|);
    assert Joined(words[1..]) == TREE + ([SPACE] + Joined(words[1..][1..]));
    assert Joined(words) == oid + ([SPACE] + Joined(words[1..]));
  }

  function Power10(digits: nat): nat {
    if digits == 0 then 1 else 10 * Power10(digits - 1)
  }

  lemma {:induction false} DecimalLength(n: nat, digits: nat)
    requires digits > 0 && n < Power10(digits)
    ensures |Decimal(n)| <= digits
  {
    if n >= 10 {
      DecimalLength(n / 10, digits - 1);
    }
  }

  /** The answer to distinct ids is hardly longer than the bodies it frames. */
  lemma {:induction false} FramesLength(ids: seq<seq<Byte>>, store: Store, rest: Store)
    requires Distinct(ids) && Extends(rest, store) && forall i :: 0 <= i < |ids| ==>
      ids[i] in rest && |ids[i]| <= MAX_OID
    requires BytesOf(store) <= MAX_TREE_BYTES
    ensures |Frames(ids, store)| <= BytesOf(rest) + |ids| * MAX_FRAMING
  {
    hide Frame, BytesOf;
    if ids != [] {
      BytesOfExtends(rest, store);
      BytesOfWithout(rest, ids[0]);
      FrameLength(ids[0], store[ids[0]]);
      FramesLength(ids[1..], store, rest - {ids[0]});
    }
  }

  lemma {:induction false} DistinctCount(ids: seq<seq<Byte>>, all: set<seq<Byte>>)
    requires Distinct(ids) && forall i :: 0 <= i < |ids| ==> ids[i] in all
    ensures |ids| <= |all|
  {
    if ids != [] {
      DistinctCount(ids[1..], all - {ids[0]});
    }
  }

  /** So the answer for any distinct ids of a repository within the bounds can be read. */
  lemma AnswerFits(ids: seq<seq<Byte>>, store: Store)
    requires Distinct(ids) && forall i :: 0 <= i < |ids| ==> ids[i] in store
    requires (forall oid :: oid in store ==> |oid| <= MAX_OID) && BytesOf(store) <= MAX_TREE_BYTES && |store| <= 4096
    ensures |Frames(ids, store)| <= MAX_BATCH
  {
    hide BytesOf, Frames;
    FramesLength(ids, store, store);
    DistinctCount(ids, store.Keys);
    assert |store.Keys| == |store|;
  }
}
