/** What an inventory lists, said without its recursion and without its hexadecimal digits: the files that paths of
    entry names lead to, under the object ids their raw ids spell. */
module GitListing {
  import opened Text
  import opened GitTree
  import opened GitBatch
  import opened GitFlatten

  // ----- object ids

  lemma HexByte(b: Byte)
    ensures LowerHexValue(HexDigit(b / 16)) == Some(b / 16) && LowerHexValue(HexDigit(b % 16)) == Some(b % 16)
    ensures 16 * (b / 16) + b % 16 == b
  {
  }

  lemma {:induction false} HexSpells(raw: seq<Byte>)
    ensures Spells(Hex(raw), raw)
  {
    hide HexDigit, LowerHexValue;
    if raw != [] {
      var rest := raw[1..];
      HexSpells(rest);
      HexByte(raw[0]);
      forall i | 0 <= i < |raw|
        ensures var high, low := LowerHexValue(Hex(raw)[2 * i]), LowerHexValue(Hex(raw)[2 * i + 1]);
          high.Some? && low.Some? && 16 * high.value + low.value == raw[i]
      {
        if i > 0 {
          assert Hex(raw)[2 * i] == Hex(rest)[2 * (i - 1)] && Hex(raw)[2 * i + 1] == Hex(rest)[2 * (i - 1) + 1];
          assert raw[i] == rest[i - 1];
        }
      }
    }
  }

  lemma DigitsDiffer(c: Byte, d: Byte)
    requires LowerHexValue(c).Some? && LowerHexValue(c) == LowerHexValue(d)
    ensures c == d
  {
  }

  lemma PairsDiffer(a: nat, b: nat, c: nat, d: nat)
    requires a < 16 && b < 16 && c < 16 && d < 16 && 16 * a + b == 16 * c + d
    ensures a == c && b == d
  {
  }

  lemma ValueBelow16(c: Byte)
    ensures LowerHexValue(c).Some? ==> LowerHexValue(c).value < 16
  {
  }

  /** One raw id is spelled by one object id. */
  lemma SpelledOnce(a: seq<Byte>, b: seq<Byte>, raw: seq<Byte>)
    requires Spells(a, raw) && Spells(b, raw)
    ensures a == b
  {
    hide LowerHexValue;
    forall i | 0 <= i < |raw| ensures a[2 * i] == b[2 * i] && a[2 * i + 1] == b[2 * i + 1] {
      ValueBelow16(a[2 * i]);
      ValueBelow16(a[2 * i + 1]);
      ValueBelow16(b[2 * i]);
      ValueBelow16(b[2 * i + 1]);
      PairsDiffer(LowerHexValue(a[2 * i]).value, LowerHexValue(a[2 * i + 1]).value,
        LowerHexValue(b[2 * i]).value, LowerHexValue(b[2 * i + 1]).value);
      DigitsDiffer(a[2 * i], b[2 * i]);
      DigitsDiffer(a[2 * i + 1], b[2 * i + 1]);
    }
    forall k | 0 <= k < |a| ensures a[k] == b[k] {
      var i := k / 2;
      assert k == 2 * i || k == 2 * i + 1;
    }
  }

  // ----- paths

  /** The body stored under `tree` is the encoding of legal entries, `e` among them. */
  ghost predicate HasEntry(store: Store, size: nat, tree: seq<Byte>, e: Entry) {
    tree in store && exists es :: Legal(es, size) && store[tree] == Encode(es) && e in es
  }

  /** From the tree, these names lead through directories to the file entry `e`. */
  ghost predicate Leads(store: Store, size: nat, tree: seq<Byte>, names: seq<seq<Byte>>, e: Entry)
    decreases |names|
  {
    if names == [] then false
    else if |names| == 1 then HasEntry(store, size, tree, e) && e.name == names[0] && e.mode != DIRECTORY
    else exists dir: Entry, oid: seq<Byte> ::
      && HasEntry(store, size, tree, dir) && dir.name == names[0] && dir.mode == DIRECTORY
      && Spells(oid, dir.id) && Leads(store, size, oid, names[1..], e)
  }

  function Slashed(names: seq<seq<Byte>>): seq<Byte> {
    if names == [] then [] else if |names| == 1 then names[0] else names[0] + [SLASH] + Slashed(names[1..])
  }

  /** The row is the file that some names lead to, under its path, mode and object id. */
  ghost predicate ListsFile(store: Store, size: nat, dir: Pending, row: Row, names: seq<seq<Byte>>, e: Entry) {
    && Leads(store, size, dir.oid, names, e)
    && row.path == dir.prefix + Slashed(names) && row.mode == e.mode && Spells(row.oid, e.id)
  }

  ghost predicate Listed(store: Store, size: nat, dir: Pending, row: Row) {
    exists names, e :: ListsFile(store, size, dir, row, names, e)
  }

  lemma ParsedEntries(store: Store, size: nat, tree: seq<Byte>, e: Entry)
    requires tree in store && Parse(store[tree], size).Some?
    ensures HasEntry(store, size, tree, e) <==> e in Parse(store[tree], size).value
  {
    var es := Parse(store[tree], size).value;
    ParseIsInverseOfEncode(store[tree], es, size);
    if HasEntry(store, size, tree, e) {
      var other :| Legal(other, size) && store[tree] == Encode(other) && e in other;
      ParseIsInverseOfEncode(store[tree], other, size);
    }
  }

  // ----- one directory

  /** Where a row of the flattened entries comes from. */
  lemma {:induction false} RowOfEntries(store: Store, size: nat, es: seq<Entry>, prefix: seq<Byte>, fuel: nat, row: Row)
    requires FlattenEntries(store, size, es, prefix, fuel).Some?
    ensures row in FlattenEntries(store, size, es, prefix, fuel).value <==>
      exists k :: 0 <= k < |es| && EntryGives(store, size, es[k], prefix, fuel, row)
    decreases |es|
  {
    hide Flatten, FileRow, Child;
    if es != [] {
      var m := |es| - 1;
      RowOfEntries(store, size, es[..m], prefix, fuel, row);
      assert forall k :: 0 <= k < m ==> es[..m][k] == es[k];
      if EntryGives(store, size, es[m], prefix, fuel, row) {
        assert row in FlattenEntries(store, size, es, prefix, fuel).value;
      }
    }
  }

  ghost predicate EntryGives(store: Store, size: nat, e: Entry, prefix: seq<Byte>, fuel: nat, row: Row) {
    if e.mode == DIRECTORY then
      Flatten(store, size, Child(e, prefix), fuel).Some? && row in Flatten(store, size, Child(e, prefix), fuel).value
    else row == FileRow(e, prefix)
  }

  lemma SameJoin(prefix: seq<Byte>, name: seq<Byte>, rest: seq<Byte>)
    ensures prefix + name + [SLASH] + rest == prefix + (name + [SLASH] + rest)
  {
  }

  /** Every row is a file some names lead to. */
  lemma {:induction false} RowIsListed(store: Store, size: nat, dir: Pending, fuel: nat, row: Row)
    requires Flatten(store, size, dir, fuel).Some? && row in Flatten(store, size, dir, fuel).value
    ensures Listed(store, size, dir, row)
    decreases fuel
  {
    hide FlattenEntries, Spells, HasEntry, Parse;
    var es := Parse(store[dir.oid], size).value;
    RowOfEntries(store, size, es, dir.prefix, fuel - 1, row);
    var k :| 0 <= k < |es| && EntryGives(store, size, es[k], dir.prefix, fuel - 1, row);
    ParsedEntries(store, size, dir.oid, es[k]);
    HexSpells(es[k].id);
    if es[k].mode == DIRECTORY {
      var child := Child(es[k], dir.prefix);
      RowIsListed(store, size, child, fuel - 1, row);
      var names, e :| ListsFile(store, size, child, row, names, e);
      Deeper(store, size, dir, es[k], child.oid, row, names, e);
    } else {
      assert ListsFile(store, size, dir, row, [es[k].name], es[k]);
    }
  }

  lemma Deeper(store: Store, size: nat, dir: Pending, step: Entry, oid: seq<Byte>, row: Row, names: seq<seq<Byte>>,
      e: Entry)
    requires HasEntry(store, size, dir.oid, step) && step.mode == DIRECTORY && Spells(oid, step.id)
    requires ListsFile(store, size, Pending(oid, dir.prefix + step.name + [SLASH]), row, names, e)
    ensures Listed(store, size, dir, row)
  {
    hide Spells, HasEntry;
    var longer := [step.name] + names;
    assert longer[1..] == names && longer[0] == step.name && names != [];
    SameJoin(dir.prefix, step.name, Slashed(names));
    assert Leads(store, size, dir.oid, longer, e);
    assert ListsFile(store, size, dir, row, longer, e);
  }

  /** And every such file has its row. */
  lemma {:induction false} ListedHasRow(store: Store, size: nat, dir: Pending, fuel: nat, row: Row,
      names: seq<seq<Byte>>, e: Entry)
    requires Flatten(store, size, dir, fuel).Some? && ListsFile(store, size, dir, row, names, e)
    ensures row in Flatten(store, size, dir, fuel).value
    decreases fuel
  {
    hide FlattenEntries, Spells, HasEntry, Parse;
    var es := Parse(store[dir.oid], size).value;
    RowOfEntries(store, size, es, dir.prefix, fuel - 1, row);
    if |names| == 1 {
      ParsedEntries(store, size, dir.oid, e);
      HexSpells(e.id);
      SpelledOnce(row.oid, Hex(e.id), e.id);
      var k :| 0 <= k < |es| && es[k] == e;
      assert EntryGives(store, size, es[k], dir.prefix, fuel - 1, row);
    } else {
      var step, oid := FirstStep(store, size, dir.oid, names, e);
      ParsedEntries(store, size, dir.oid, step);
      HexSpells(step.id);
      SpelledOnce(oid, Hex(step.id), step.id);
      var k :| 0 <= k < |es| && es[k] == step;
      var child := Child(step, dir.prefix);
      EntryFlattens(store, size, es, dir.prefix, fuel - 1, k);
      SameJoin(dir.prefix, step.name, Slashed(names[1..]));
      ListedHasRow(store, size, child, fuel - 1, row, names[1..], e);
      assert EntryGives(store, size, es[k], dir.prefix, fuel - 1, row);
    }
  }

  lemma FirstStep(store: Store, size: nat, tree: seq<Byte>, names: seq<seq<Byte>>, e: Entry)
    returns (step: Entry, oid: seq<Byte>)
    requires |names| > 1 && Leads(store, size, tree, names, e)
    ensures HasEntry(store, size, tree, step) && step.name == names[0] && step.mode == DIRECTORY
    ensures Spells(oid, step.id) && Leads(store, size, oid, names[1..], e)
  {
    hide HasEntry, Spells;
    step, oid :| HasEntry(store, size, tree, step) && step.name == names[0] && step.mode == DIRECTORY
      && Spells(oid, step.id) && Leads(store, size, oid, names[1..], e);
  }

  lemma {:induction false} EntryFlattens(store: Store, size: nat, es: seq<Entry>, prefix: seq<Byte>, fuel: nat, k: nat)
    requires FlattenEntries(store, size, es, prefix, fuel).Some? && k < |es| && es[k].mode == DIRECTORY
    ensures Flatten(store, size, Child(es[k], prefix), fuel).Some?
    decreases |es|
  {
    hide Flatten, FileRow, Child;
    if k < |es| - 1 {
      EntryFlattens(store, size, es[..|es| - 1], prefix, fuel, k);
    }
  }

  // ----- the whole flattening

  lemma AnyListedHasRow(store: Store, size: nat, dir: Pending, fuel: nat, row: Row)
    requires Flatten(store, size, dir, fuel).Some? && Listed(store, size, dir, row)
    ensures row in Flatten(store, size, dir, fuel).value
  {
    hide Flatten, ListsFile;
    var names, e :| ListsFile(store, size, dir, row, names, e);
    ListedHasRow(store, size, dir, fuel, row, names, e);
  }

  /** The flattening lists exactly the files of its tree, under the object ids their raw ids spell. */
  lemma FlattenLists(store: Store, size: nat, dir: Pending, fuel: nat, row: Row)
    requires Flatten(store, size, dir, fuel).Some?
    ensures row in Flatten(store, size, dir, fuel).value <==> Listed(store, size, dir, row)
  {
    hide Flatten, Listed, ListsFile;
    if row in Flatten(store, size, dir, fuel).value {
      RowIsListed(store, size, dir, fuel, row);
    }
    if Listed(store, size, dir, row) {
      AnyListedHasRow(store, size, dir, fuel, row);
    }
  }
}
