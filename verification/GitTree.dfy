/** Raw Git tree bodies: the entry reader of `git_inventory.inventory` and its inverse. */
module GitTree {
  import opened Text

  const SLASH: Byte := 47
  const DOT: seq<Byte> := [46]
  const DOTDOT: seq<Byte> := [46, 46]
  const DOTGIT: seq<Byte> := [46, 103, 105, 116]

  /** One `<mode> <name>\0<raw id>` entry. */
  datatype Entry = Entry(mode: seq<Byte>, name: seq<Byte>, id: seq<Byte>)

  predicate LegalName(name: seq<Byte>) {
    name != [] && name != DOT && name != DOTDOT && name != DOTGIT && SLASH !in name
  }

  /** What the reader demands of one entry when object ids are `size` bytes long. */
  predicate LegalEntry(e: Entry, size: nat) {
    SPACE !in e.mode && LegalName(e.name) && 0 !in e.name && |e.id| == size
  }

  predicate Legal(es: seq<Entry>, size: nat) {
    && (forall i :: 0 <= i < |es| ==> LegalEntry(es[i], size))
    && (forall i, j :: 0 <= i < j < |es| ==> es[i].name != es[j].name)
  }

  function EncodeEntry(e: Entry): seq<Byte> {
    e.mode + [SPACE] + e.name + [0] + e.id
  }

  function Length(e: Entry): nat {
    |e.mode| + 1 + |e.name| + 1 + |e.id|
  }

  function Encode(es: seq<Entry>): seq<Byte> {
    if es == [] then [] else EncodeEntry(es[0]) + Encode(es[1..])
  }

  /** The entry starting at `position`, before its name is compared with earlier names. */
  function EntryAt(body: seq<Byte>, position: nat, size: nat): (r: Option<Entry>)
    requires position < |body|
    ensures r.Some? ==> LegalEntry(r.value, size) && position + Length(r.value) <= |body|
  {
    var space := Index(body, SPACE, position);
    if space.None? then None else
      var end := Index(body, 0, space.value + 1);
      if end.None? then None else
        var name := body[space.value + 1..end.value];
        if end.value + 1 + size > |body| || !LegalName(name) then None else
          Some(Entry(body[position..space.value], name, body[end.value + 1..end.value + 1 + size]))
  }

  /** The `while position < len(body)` loop; `names` are the names already read. */
  function ParseFrom(body: seq<Byte>, position: nat, size: nat, names: set<seq<Byte>>):
      (r: Option<seq<Entry>>)
    requires position <= |body|
    decreases |body| - position
  {
    if position == |body| then Some([]) else
      var e := EntryAt(body, position, size);
      if e.None? || e.value.name in names then None else
        var rest := ParseFrom(body, position + Length(e.value), size, names + {e.value.name});
        if rest.None? then None else Some([e.value] + rest.value)
  }

  function Parse(body: seq<Byte>, size: nat): Option<seq<Entry>> {
    ParseFrom(body, 0, size, {})
  }

  /** Where the pieces of an entry lie in a body that holds it at `position`. */
  lemma EntryPieces(body: seq<Byte>, position: nat, e: Entry, after: seq<Byte>)
    requires position <= |body| && body[position..] == EncodeEntry(e) + after
    ensures |body| - position == Length(e) + |after|
    ensures var space, end := position + |e.mode|, position + |e.mode| + 1 + |e.name|;
      && body[position..space] == e.mode && body[space] == SPACE && body[space + 1..end] == e.name
      && body[end] == 0 && body[end + 1..position + Length(e)] == e.id && body[position + Length(e)..] == after
  {
    var here := body[position..];
    var space, end := |e.mode|, |e.mode| + 1 + |e.name|;
    assert here == e.mode + ([SPACE] + (e.name + ([0] + (e.id + after))));
    assert here[..space] == e.mode && here[space] == SPACE;
    assert here[space + 1..end] == e.name && here[end] == 0;
    assert here[end + 1..Length(e)] == e.id && here[Length(e)..] == after;
  }

  lemma IndexAfter(body: seq<Byte>, b: Byte, from: nat, at: nat)
    requires from <= at < |body| && b !in body[from..at] && body[at] == b
    ensures Index(body, b, from) == Some(at)
  {
    forall i | from <= i < at ensures body[i] != b {
      assert body[i] == body[from..at][i - from];
    }
    IndexAt(body, b, from, at);
  }

  lemma EntryAtOfEncode(body: seq<Byte>, position: nat, e: Entry, after: seq<Byte>, size: nat)
    requires LegalEntry(e, size) && position < |body| && body[position..] == EncodeEntry(e) + after
    ensures EntryAt(body, position, size) == Some(e)
    ensures position + Length(e) <= |body| && body[position + Length(e)..] == after
  {
    hide Index, EncodeEntry;
    EntryPieces(body, position, e, after);
    IndexAfter(body, SPACE, position, position + |e.mode|);
    IndexAfter(body, 0, position + |e.mode| + 1, position + |e.mode| + 1 + |e.name|);
  }

  lemma EncodeOfEntryAt(body: seq<Byte>, position: nat, size: nat)
    requires position < |body| && EntryAt(body, position, size).Some?
    ensures var e := EntryAt(body, position, size).value;
      body[position..] == EncodeEntry(e) + body[position + Length(e)..]
  {
  }

  lemma LegalTail(es: seq<Entry>, size: nat)
    requires Legal(es, size) && es != []
    ensures Legal(es[1..], size)
    ensures forall i :: 0 <= i < |es[1..]| ==> es[1..][i].name != es[0].name
  {
  }

  lemma ParseStep(body: seq<Byte>, position: nat, size: nat, names: set<seq<Byte>>, e: Entry, rest: seq<Entry>)
    requires position < |body| && EntryAt(body, position, size) == Some(e) && e.name !in names
    requires ParseFrom(body, position + Length(e), size, names + {e.name}) == Some(rest)
    ensures ParseFrom(body, position, size, names) == Some([e] + rest)
  {
  }

  lemma {:induction false} ParseOfEncode(body: seq<Byte>, position: nat, es: seq<Entry>, size: nat,
      names: set<seq<Byte>>)
    requires Legal(es, size) && forall i :: 0 <= i < |es| ==> es[i].name !in names
    requires position <= |body| && body[position..] == Encode(es)
    ensures ParseFrom(body, position, size, names) == Some(es)
    decreases |es|
  {
    hide EntryAt;
    if es != [] {
      EntryAtOfEncode(body, position, es[0], Encode(es[1..]), size);
      LegalTail(es, size);
      ParseOfEncode(body, position + Length(es[0]), es[1..], size, names + {es[0].name});
      ParseStep(body, position, size, names, es[0], es[1..]);
      assert es == [es[0]] + es[1..];
    }
  }

  lemma {:induction false} EncodeOfParse(body: seq<Byte>, position: nat, size: nat, names: set<seq<Byte>>)
    requires position <= |body| && ParseFrom(body, position, size, names).Some?
    ensures var es := ParseFrom(body, position, size, names).value;
      && body[position..] == Encode(es)
      && Legal(es, size)
      && forall i :: 0 <= i < |es| ==> es[i].name !in names
    decreases |body| - position
  {
    hide EntryAt;
    if position < |body| {
      var e := EntryAt(body, position, size).value;
      var next := position + Length(e);
      EncodeOfEntryAt(body, position, size);
      EncodeOfParse(body, next, size, names + {e.name});
      var rest := ParseFrom(body, next, size, names + {e.name}).value;
      assert ([e] + rest)[1..] == rest;
    }
  }

  /** Reader and serialiser undo each other: a body is accepted with entries `es` exactly when it is
      the concatenation of `es` and `es` is legal. Names may hold spaces and ids any byte. */
  lemma ParseIsInverseOfEncode(body: seq<Byte>, es: seq<Entry>, size: nat)
    ensures Parse(body, size) == Some(es) <==> body == Encode(es) && Legal(es, size)
  {
    if Parse(body, size) == Some(es) {
      EncodeOfParse(body, 0, size, {});
      assert body[0..] == body;
    }
    if body == Encode(es) && Legal(es, size) {
      assert body[0..] == body;
      ParseOfEncode(body, 0, es, size, {});
    }
  }
}
