/**
  Secondary indices of a sorted table. Rows, index rows and master indices are named by
  ids; the state below is the memory they live in. A freed object keeps its contents and
  its id is not used again.
 */
module Indices {
  import opened Common
  import opened Multimap

  datatype IdxRow = IdxRow(key: MultiKey, master: Id)

  /** `master_index`: one slot per index, then the base row. */
  datatype Master = Master(slots: seq<Option<Id>>, base: Id)

  datatype Schema = Schema(width: nat, keyCols: seq<nat>, indexCols: seq<seq<nat>>) {
    predicate Valid() {
      && (forall i :: 0 <= i < |keyCols| ==> keyCols[i] < width)
      && (forall i :: 0 <= i < |indexCols| ==> InWidth(indexCols[i]))
    }

    predicate InWidth(which: seq<nat>) {
      forall j :: 0 <= j < |which| ==> which[j] < width
    }

    /** A column of the key or of an index. */
    predicate Indexed(c: nat) {
      c in keyCols || exists i :: 0 <= i < |indexCols| && c in indexCols[i]
    }
  }

  datatype Tbl = Tbl(schema: Schema, rows: Entries, indices: seq<Entries>, cols: map<Id, seq<int>>, hidden: map<Id, Id>,
                     masters: map<Id, Master>, idxRows: map<Id, IdxRow>)

  // ---- the invariant ----

  /** A row that ever had a master still points to it, in the table or not. */
  ghost predicate Remembered(hidden: map<Id, Id>, masters: map<Id, Master>, n: nat) {
    forall r :: r in hidden ==>
                  && hidden[r] in masters
                  && masters[hidden[r]].base == r && |masters[hidden[r]].slots| == n
  }

  lemma RememberSlot(hidden: map<Id, Id>, masters: map<Id, Master>, n: nat, m: Id, i: nat, e: Option<Id>)
    requires Remembered(hidden, masters, n) && m in masters && i < |masters[m].slots|
    ensures Remembered(hidden, masters[m := masters[m].(slots := masters[m].slots[i := e])], n)
  {
  }

  lemma RememberNew(hidden: map<Id, Id>, masters: map<Id, Master>, n: nat, m: Id, x: Master)
    requires Remembered(hidden, masters, n) && m !in masters
    ensures Remembered(hidden, masters[m := x], n)
  {
  }

  lemma RememberMore(hidden: map<Id, Id>, masters: map<Id, Master>, n: nat, r: Id, m: Id)
    requires Remembered(hidden, masters, n) && m in masters && masters[m].base == r && |masters[m].slots| == n
    ensures Remembered(hidden[r := m], masters, n)
  {
  }

  ghost predicate Shape(t: Tbl, own: set<Id>) {
    && t.schema.Valid() && |t.indices| == |t.schema.indexCols|
    && Ok(t.rows, |t.schema.keyCols|) && Unique(t.rows)
    && (forall i :: 0 <= i < |t.indices| ==> Ok(t.indices[i], |t.schema.indexCols[i]|) && Unique(t.indices[i]))
    && (forall r :: r in own ==> r in t.cols && |t.cols[r]| == t.schema.width)
  }

  /** The key of row `r` in index `i`. */
  ghost function KeyIn(t: Tbl, r: Id, i: nat): (k: MultiKey)
    requires t.schema.Valid() && r in t.cols && |t.cols[r]| == t.schema.width && i < |t.schema.indexCols|
    ensures |k| == |t.schema.indexCols[i]|
  {
    assert t.schema.InWidth(t.schema.indexCols[i]);
    Pick(t.cols[r], t.schema.indexCols[i])
  }

  ghost predicate BaseOk(t: Tbl, own: set<Id>)
    requires Shape(t, own)
  {
    forall i :: 0 <= i < |t.rows| ==> t.rows[i].1 in own && t.rows[i].0 == Pick(t.cols[t.rows[i].1], t.schema.keyCols)
  }

  ghost predicate SlotOk(t: Tbl, i: nat, k: MultiKey, m: Id, e: Id)
    requires i < |t.indices|
  {
    e in t.idxRows && t.idxRows[e] == IdxRow(k, m) && Has(t.indices[i], k, e)
  }

  /** The master of `r` leads to one index row in each index, except in the `open` ones. */
  ghost predicate MasterOk(t: Tbl, own: set<Id>, r: Id, open: set<nat>)
    requires Shape(t, own) && r in own
  {
    && r in t.hidden && t.hidden[r] in t.masters
    && var m := t.masters[t.hidden[r]];
    && m.base == r && |m.slots| == |t.indices|
    && forall i :: 0 <= i < |t.indices| ==>
                     if i in open then m.slots[i] == None
                     else m.slots[i].Some? && SlotOk(t, i, KeyIn(t, r, i), t.hidden[r], m.slots[i].value)
  }

  /** Every index entry is the index row in its master's slot, and leads back to a row. */
  ghost predicate EntryOk(t: Tbl, own: set<Id>, i: nat, k: MultiKey, e: Id) {
    && e in t.idxRows && t.idxRows[e].key == k && t.idxRows[e].master in t.masters
    && var m := t.masters[t.idxRows[e].master];
    && m.base in own && m.base in t.hidden && t.hidden[m.base] == t.idxRows[e].master
    && i < |m.slots| && m.slots[i] == Some(e)
  }

  ghost predicate EntriesOk(t: Tbl, own: set<Id>) {
    forall i, k, e :: 0 <= i < |t.indices| && Has(t.indices[i], k, e) ==> EntryOk(t, own, i, k, e)
  }

  ghost predicate MastersOk(t: Tbl, own: set<Id>, x: Id, open: set<nat>)
    requires Shape(t, own)
  {
    forall r :: r in own ==> MasterOk(t, own, r, if r == x then open else {})
  }

  /** In step, but for the slots `open` of row `x`, and for rows of `own` that are out of the base table. */
  ghost predicate Almost(t: Tbl, own: set<Id>, x: Id, open: set<nat>) {
    Shape(t, own) && BaseOk(t, own) && MastersOk(t, own, x, open) && EntriesOk(t, own)
  }

  ghost function Members(t: Tbl): set<Id> {
    set i | 0 <= i < |t.rows| :: t.rows[i].1
  }

  /** Each index holds exactly one entry per base row, under the row's current columns, leading back to it. */
  ghost predicate InStep(t: Tbl) {
    Almost(t, Members(t), 0, {})
  }

  lemma AnyRow(t: Tbl, own: set<Id>, x: Id, y: Id)
    requires Almost(t, own, x, {})
    ensures Almost(t, own, y, {})
  {
    hide MasterOk, EntryOk, BaseOk, Shape;
    assert forall r :: r in own ==> MasterOk(t, own, r, {});
  }

  // ---- steps of the protocol ----

  function AddEntry(t: Tbl, r: Id, m: Id, i: nat, e: Id): Tbl
    requires t.schema.Valid() && r in t.cols && |t.cols[r]| == t.schema.width && i < |t.schema.indexCols| == |t.indices|
    requires Keyed(t.indices[i], |t.schema.indexCols[i]|) && m in t.masters && i < |t.masters[m].slots|
  {
    assert t.schema.InWidth(t.schema.indexCols[i]);
    var k := Pick(t.cols[r], t.schema.indexCols[i]);
    t.(idxRows := t.idxRows[e := IdxRow(k, m)],
       masters := t.masters[m := t.masters[m].(slots := t.masters[m].slots[i := Some(e)])],
       indices := t.indices[i := Inserted(t.indices[i], k, e)])
  }

  lemma HasAfterAdd(t: Tbl, r: Id, m: Id, i: nat, e: Id, j: nat, k2: MultiKey, e2: Id)
    requires t.schema.Valid() && r in t.cols && |t.cols[r]| == t.schema.width && i < |t.schema.indexCols| == |t.indices|
    requires Keyed(t.indices[i], |t.schema.indexCols[i]|) && m in t.masters && i < |t.masters[m].slots| &&
             j < |t.indices|
    ensures Has(AddEntry(t, r, m, i, e).indices[j], k2, e2) <==>
            Has(t.indices[j], k2, e2) || (j == i && (k2, e2) == (KeyIn(t, r, i), e))
  {
    InsertedHas(t.indices[i], KeyIn(t, r, i), e, k2, e2);
  }

  lemma AddEntryShape(t: Tbl, own: set<Id>, r: Id, m: Id, i: nat, e: Id, t': Tbl)
    requires Shape(t, own) && EntriesOk(t, own) && r in own && i < |t.indices| && m in t.masters &&
             i < |t.masters[m].slots|
    requires e !in t.idxRows && t' == AddEntry(t, r, m, i, e)
    ensures Shape(t', own) && (BaseOk(t, own) ==> BaseOk(t', own))
  {
    hide EntryOk;
    var k := KeyIn(t, r, i);
    InsertedOk(t.indices[i], k, e);
    forall k2 ensures !Has(t.indices[i], k2, e) {
      NoEntry(t, own, i, k2, e);
    }
    InsertedUnique(t.indices[i], k, e);
  }

  lemma NoEntry(t: Tbl, own: set<Id>, i: nat, k: MultiKey, e: Id)
    requires EntriesOk(t, own) && i < |t.indices| && e !in t.idxRows
    ensures !Has(t.indices[i], k, e)
  {
    if Has(t.indices[i], k, e) { EntryKnown(t, own, i, k, e); }
  }

  lemma EntryKnown(t: Tbl, own: set<Id>, i: nat, k: MultiKey, e: Id)
    requires EntriesOk(t, own) && i < |t.indices| && Has(t.indices[i], k, e)
    ensures EntryOk(t, own, i, k, e) && e in t.idxRows
  {
  }

  lemma AddEntryMaster(t: Tbl, own: set<Id>, x: Id, open: set<nat>, i: nat, e: Id, t': Tbl, r: Id)
    requires Almost(t, own, x, open) && x in own && i in open && i < |t.indices| && e !in t.idxRows
    requires t' == AddEntry(t, x, t.hidden[x], i, e) && Shape(t', own) && r in own
    ensures MasterOk(t', own, r, if r == x then open - {i} else {})
  {
    hide EntriesOk, BaseOk, Has;
    assert MasterOk(t, own, r, if r == x then open else {}) && MasterOk(t, own, x, open);
    var m := t.masters[t.hidden[r]];
    forall j | 0 <= j < |t.indices| && !(r == x && j in open - {i})
      ensures t'.masters[t.hidden[r]].slots[j].Some? &&
              SlotOk(t', j, KeyIn(t', r, j), t.hidden[r], t'.masters[t.hidden[r]].slots[j].value)
    {
      var e2 := t'.masters[t.hidden[r]].slots[j].value;
      HasAfterAdd(t, x, t.hidden[x], i, e, j, KeyIn(t, r, j), e2);
    }
  }

  lemma AddEntryEntry(t: Tbl, own: set<Id>, x: Id, open: set<nat>, i: nat, e: Id, t': Tbl, j: nat, k2: MultiKey, e2: Id)
    requires Almost(t, own, x, open) && x in own && i in open && i < |t.indices| && e !in t.idxRows
    requires t' == AddEntry(t, x, t.hidden[x], i, e) && j < |t'.indices| && Has(t'.indices[j], k2, e2)
    ensures EntryOk(t', own, j, k2, e2)
  {
    hide BaseOk, Has;
    assert MasterOk(t, own, x, open);
    HasAfterAdd(t, x, t.hidden[x], i, e, j, k2, e2);
    if Has(t.indices[j], k2, e2) {
      assert EntryOk(t, own, j, k2, e2);
    }
  }

  lemma AddEntryKeeps(t: Tbl, own: set<Id>, x: Id, open: set<nat>, i: nat, e: Id, t': Tbl)
    requires Almost(t, own, x, open) && x in own && i in open && i < |t.indices| && e !in t.idxRows
    requires x in t.hidden && t.hidden[x] in t.masters && i < |t.masters[t.hidden[x]].slots|
    requires t' == AddEntry(t, x, t.hidden[x], i, e)
    ensures Almost(t', own, x, open - {i})
  {
    hide MasterOk, EntryOk, BaseOk, Has;
    AddEntryShape(t, own, x, t.hidden[x], i, e, t');
    forall r | r in own ensures MasterOk(t', own, r, if r == x then open - {i} else {}) {
      AddEntryMaster(t, own, x, open, i, e, t', r);
    }
    forall j, k2, e2 | 0 <= j < |t'.indices| && Has(t'.indices[j], k2, e2) ensures EntryOk(t', own, j, k2, e2) {
      AddEntryEntry(t, own, x, open, i, e, t', j, k2, e2);
    }
  }

  /** Entry `j` of index `i` goes, and the slot that pointed to it. */
  function DropEntry(t: Tbl, m: Id, i: nat, j: nat): Tbl
    requires i < |t.indices| && j < |t.indices[i]| && m in t.masters && i < |t.masters[m].slots|
  {
    t.(masters := t.masters[m := t.masters[m].(slots := t.masters[m].slots[i := None])],
       indices := t.indices[i := Erased(t.indices[i], j)])
  }

  ghost predicate IsSlot(t: Tbl, x: Id, i: nat, j: nat) {
    && x in t.hidden && t.hidden[x] in t.masters && i < |t.indices| && i < |t.masters[t.hidden[x]].slots|
    && j < |t.indices[i]| && t.masters[t.hidden[x]].slots[i] == Some(t.indices[i][j].1)
  }

  lemma HasAfterDrop(t: Tbl, own: set<Id>, m: Id, i: nat, j: nat, t': Tbl, i2: nat, k2: MultiKey, e2: Id)
    requires Shape(t, own) && i < |t.indices| && j < |t.indices[i]| && m in t.masters && i < |t.masters[m].slots|
    requires t' == DropEntry(t, m, i, j) && i2 < |t.indices|
    ensures Has(t'.indices[i2], k2, e2) <==> Has(t.indices[i2], k2, e2) && !(i2 == i && (k2, e2) == t.indices[i][j])
  {
    ErasedHas(t.indices[i], j, k2, e2);
  }

  lemma DropEntryShape(t: Tbl, own: set<Id>, m: Id, i: nat, j: nat, t': Tbl)
    requires Shape(t, own) && i < |t.indices| && j < |t.indices[i]| && m in t.masters && i < |t.masters[m].slots|
    requires t' == DropEntry(t, m, i, j)
    ensures Shape(t', own) && (BaseOk(t, own) ==> BaseOk(t', own))
  {
    ErasedOk(t.indices[i], j, |t.schema.indexCols[i]|);
    var (k, e) := t.indices[i][j];
    ErasedHas(t.indices[i], j, k, e);
  }

  /** An index row sits in the slot of one row only. */
  lemma SlotOwner(t: Tbl, own: set<Id>, x: Id, open: set<nat>, r: Id, i: nat, e: Id)
    requires Almost(t, own, x, open) && r in own && i < |t.indices|
    requires r in t.hidden && t.hidden[r] in t.masters && i < |t.masters[t.hidden[r]].slots|
    requires t.masters[t.hidden[r]].slots[i] == Some(e)
    ensures e in t.idxRows && t.idxRows[e].master == t.hidden[r] && t.masters[t.hidden[r]].base == r
  {
    hide EntriesOk, BaseOk, Has;
    assert MasterOk(t, own, r, if r == x then open else {});
  }

  lemma DropEntrySlot(t: Tbl, own: set<Id>, x: Id, open: set<nat>, i: nat, j: nat, t': Tbl, r: Id, i2: nat, e2: Id)
    requires Almost(t, own, x, open) && x in own && i !in open && IsSlot(t, x, i, j)
    requires t' == DropEntry(t, t.hidden[x], i, j) && Shape(t', own) && r in own
    requires i2 < |t.indices| && !(r == x && i2 == i)
    requires r in t.hidden && t.hidden[r] in t.masters && i2 < |t.masters[t.hidden[r]].slots|
    requires t.masters[t.hidden[r]].slots[i2] == Some(e2) && SlotOk(t, i2, KeyIn(t, r, i2), t.hidden[r], e2)
    ensures SlotOk(t', i2, KeyIn(t', r, i2), t.hidden[r], e2)
  {
    hide EntriesOk, BaseOk, Has, MasterOk;
    SlotOwner(t, own, x, open, r, i2, e2);
    SlotOwner(t, own, x, open, x, i, t.indices[i][j].1);
    HasAfterDrop(t, own, t.hidden[x], i, j, t', i2, KeyIn(t, r, i2), e2);
  }

  lemma MasterFacts(t: Tbl, own: set<Id>, r: Id, open: set<nat>)
    requires Shape(t, own) && r in own && MasterOk(t, own, r, open)
    ensures r in t.hidden && t.hidden[r] in t.masters
    ensures t.masters[t.hidden[r]].base == r && |t.masters[t.hidden[r]].slots| == |t.indices|
  {
  }

  ghost predicate SlotState(t: Tbl, own: set<Id>, r: Id, open: set<nat>, i: nat, m: Master)
    requires Shape(t, own) && r in own && i < |t.indices| == |m.slots| && r in t.hidden
  {
    if i in open then m.slots[i] == None
    else m.slots[i].Some? && SlotOk(t, i, KeyIn(t, r, i), t.hidden[r], m.slots[i].value)
  }

  lemma SlotStates(t: Tbl, own: set<Id>, r: Id, open: set<nat>)
    requires Shape(t, own) && r in own && r in t.hidden && t.hidden[r] in t.masters
    requires t.masters[t.hidden[r]].base == r && |t.masters[t.hidden[r]].slots| == |t.indices|
    ensures MasterOk(t, own, r, open) <==>
            forall i :: 0 <= i < |t.indices| ==> SlotState(t, own, r, open, i, t.masters[t.hidden[r]])
  {
    var m := t.masters[t.hidden[r]];
    if forall i :: 0 <= i < |t.indices| ==> SlotState(t, own, r, open, i, m) {
      forall i | 0 <= i < |t.indices|
        ensures if i in open then m.slots[i] == None
                else m.slots[i].Some? && SlotOk(t, i, KeyIn(t, r, i), t.hidden[r], m.slots[i].value)
      {
        assert SlotState(t, own, r, open, i, m);
      }
      assert MasterOk(t, own, r, open);
    }
  }

  lemma DropEntryState(t: Tbl, own: set<Id>, x: Id, open: set<nat>, i: nat, j: nat, t': Tbl, r: Id, i2: nat)
    requires Almost(t, own, x, open) && x in own && i !in open && IsSlot(t, x, i, j)
    requires t' == DropEntry(t, t.hidden[x], i, j) && Shape(t', own) && r in own && i2 < |t.indices|
    requires r in t.hidden && t.hidden[r] in t.masters && |t.masters[t.hidden[r]].slots| == |t.indices|
    requires r != x ==> t.hidden[r] != t.hidden[x]
    requires SlotState(t, own, r, if r == x then open else {}, i2, t.masters[t.hidden[r]])
    ensures SlotState(t', own, r, if r == x then open + {i} else {}, i2, t'.masters[t.hidden[r]])
  {
    hide EntriesOk, BaseOk, Has, MastersOk, SlotOk, KeyIn, Shape;
    if !(r == x && i2 in open + {i}) {
      DropEntrySlot(t, own, x, open, i, j, t', r, i2, t.masters[t.hidden[r]].slots[i2].value);
    }
  }

  lemma DropEntryMaster(t: Tbl, own: set<Id>, x: Id, open: set<nat>, i: nat, j: nat, t': Tbl, r: Id)
    requires Almost(t, own, x, open) && x in own && i !in open && IsSlot(t, x, i, j)
    requires t' == DropEntry(t, t.hidden[x], i, j) && Shape(t', own) && r in own
    ensures MasterOk(t', own, r, if r == x then open + {i} else {})
  {
    hide EntriesOk, BaseOk, Has, MasterOk, SlotState;
    var o, o' := if r == x then open else {}, if r == x then open + {i} else {};
    MasterFacts(t, own, r, o);
    MasterFacts(t, own, x, open);
    SlotStates(t, own, r, o);
    forall i2 | 0 <= i2 < |t.indices| ensures SlotState(t', own, r, o', i2, t'.masters[t.hidden[r]]) {
      assert SlotState(t, own, r, o, i2, t.masters[t.hidden[r]]);
      DropEntryState(t, own, x, open, i, j, t', r, i2);
    }
    SlotStates(t', own, r, o');
  }

  lemma DropEntryEntry(
    t: Tbl, own: set<Id>, x: Id, open: set<nat>, i: nat, j: nat, t': Tbl, i2: nat, k2: MultiKey, e2: Id)
    requires Almost(t, own, x, open) && x in own && i !in open && IsSlot(t, x, i, j)
    requires t' == DropEntry(t, t.hidden[x], i, j) && i2 < |t'.indices| && Has(t'.indices[i2], k2, e2)
    ensures EntryOk(t', own, i2, k2, e2)
  {
    hide BaseOk, Has;
    HasAfterDrop(t, own, t.hidden[x], i, j, t', i2, k2, e2);
    assert EntryOk(t, own, i2, k2, e2);
    SlotOwner(t, own, x, open, x, i, t.indices[i][j].1);
    assert i2 == i && e2 == t.indices[i][j].1 ==> k2 == t.indices[i][j].0 by {
      EntryKey(t, own, i, j);
    }
  }

  lemma EntryKey(t: Tbl, own: set<Id>, i: nat, j: nat)
    requires EntriesOk(t, own) && i < |t.indices| && j < |t.indices[i]|
    ensures EntryOk(t, own, i, t.indices[i][j].0, t.indices[i][j].1)
  {
    assert Has(t.indices[i], t.indices[i][j].0, t.indices[i][j].1);
  }

  lemma DropEntryKeeps(t: Tbl, own: set<Id>, x: Id, open: set<nat>, i: nat, j: nat, t': Tbl)
    requires Almost(t, own, x, open) && x in own && i !in open && IsSlot(t, x, i, j)
    requires t' == DropEntry(t, t.hidden[x], i, j)
    ensures Almost(t', own, x, open + {i})
  {
    hide MasterOk, EntryOk, BaseOk, Has;
    DropEntryShape(t, own, t.hidden[x], i, j, t');
    forall r | r in own ensures MasterOk(t', own, r, if r == x then open + {i} else {}) {
      DropEntryMaster(t, own, x, open, i, j, t', r);
    }
    forall i2, k2, e2 | 0 <= i2 < |t'.indices| && Has(t'.indices[i2], k2, e2) ensures EntryOk(t', own, i2, k2, e2) {
      DropEntryEntry(t, own, x, open, i, j, t', i2, k2, e2);
    }
  }

  // ---- the base table ----

  lemma SameIndices(t: Tbl, own: set<Id>, x: Id, open: set<nat>, t': Tbl)
    requires Almost(t, own, x, open) && t' == t.(rows := t'.rows) && Shape(t', own) && BaseOk(t', own)
    ensures Almost(t', own, x, open)
  {
    hide BaseOk, Has;
    forall r | r in own ensures MasterOk(t', own, r, if r == x then open else {}) {
      assert MasterOk(t, own, r, if r == x then open else {});
      SameMaster(t, own, r, if r == x then open else {}, t');
    }
    forall j, k2, e2 | 0 <= j < |t'.indices| && Has(t'.indices[j], k2, e2) ensures EntryOk(t', own, j, k2, e2) {
      assert EntryOk(t, own, j, k2, e2);
    }
  }

  lemma SameMaster(t: Tbl, own: set<Id>, r: Id, open: set<nat>, t': Tbl)
    requires Shape(t, own) && r in own && MasterOk(t, own, r, open)
    requires t' == t.(rows := t'.rows) && Shape(t', own)
    ensures MasterOk(t', own, r, open)
  {
  }

  ghost predicate NotIn(t: Tbl, r: Id) {
    forall k :: !Has(t.rows, k, r)
  }

  lemma AddBaseKeeps(t: Tbl, own: set<Id>, x: Id, open: set<nat>, r: Id, t': Tbl)
    requires Almost(t, own, x, open) && r in own && NotIn(t, r)
    requires t' == t.(rows := Inserted(t.rows, Pick(t.cols[r], t.schema.keyCols), r))
    ensures Almost(t', own, x, open) && Members(t') == Members(t) + {r}
  {
    hide MasterOk, EntryOk, UpperBound;
    var k := Pick(t.cols[r], t.schema.keyCols);
    InsertedOk(t.rows, k, r);
    InsertedUnique(t.rows, k, r);
    var u := UpperBound(t.rows, k);
    forall j | 0 <= j < |t'.rows| ensures t'.rows[j] == if j == u then (k, r) else t.rows[if j < u then j else j - 1] {
    }
    AddMembers(t, r, u, t');
    SameIndices(t, own, x, open, t');
  }

  lemma AddMembers(t: Tbl, r: Id, u: nat, t': Tbl)
    requires u <= |t.rows| && |t'.rows| == |t.rows| + 1
    requires t'.rows[u].1 == r
    requires forall j :: 0 <= j < |t'.rows| && j != u ==> t'.rows[j] == t.rows[if j < u then j else j - 1]
    ensures Members(t') == Members(t) + {r}
  {
    forall j | 0 <= j < |t.rows| ensures t.rows[j].1 in Members(t') {
      assert t'.rows[if j < u then j else j + 1] == t.rows[j];
    }
  }

  lemma DropBaseKeeps(t: Tbl, own: set<Id>, x: Id, open: set<nat>, j: nat, t': Tbl)
    requires Almost(t, own, x, open) && j < |t.rows| && t' == t.(rows := Erased(t.rows, j))
    ensures Almost(t', own, x, open) && NotIn(t', t.rows[j].1) && Members(t') == Members(t) - {t.rows[j].1}
  {
    hide MasterOk, EntryOk;
    var (k, r) := t.rows[j];
    ErasedOk(t.rows, j, |t.schema.keyCols|);
    ErasedHas(t.rows, j, k, r);
    forall a | 0 <= a < |t'.rows| ensures t'.rows[a] == t.rows[if a < j then a else a + 1] {
    }
    SameIndices(t, own, x, open, t');
    DropMembers(t, j, t');
  }

  lemma DropMembers(t: Tbl, j: nat, t': Tbl)
    requires Unique(t.rows) && j < |t.rows| && t'.rows == Erased(t.rows, j)
    ensures Members(t') == Members(t) - {t.rows[j].1} && NotIn(t', t.rows[j].1)
  {
    forall a | 0 <= a < |t'.rows| ensures t'.rows[a] == t.rows[if a < j then a else a + 1] {
    }
    forall a | 0 <= a < |t.rows| && a != j ensures t.rows[a].1 in Members(t') {
      assert t'.rows[if a < j then a else a - 1] == t.rows[a];
    }
  }

  // ---- columns, masters ----

  /** A column that no filled index entry and no base key of the row depends on. */
  lemma MutateKeeps(t: Tbl, own: set<Id>, x: Id, open: set<nat>, c: nat, v: int, t': Tbl)
    requires Almost(t, own, x, open) && x in own && c < t.schema.width
    requires c in t.schema.keyCols ==> NotIn(t, x)
    requires forall i :: 0 <= i < |t.indices| && c in t.schema.indexCols[i] ==> i in open
    requires t' == t.(cols := t.cols[x := t.cols[x][c := v]])
    ensures Almost(t', own, x, open)
  {
    hide MasterOk, EntryOk, Has, KeyIn;
    forall j | 0 <= j < |t.rows| ensures t.rows[j].0 == Pick(t'.cols[t.rows[j].1], t.schema.keyCols) {
      NotAt(t, x, j);
    }
    forall r | r in own ensures MasterOk(t', own, r, if r == x then open else {}) {
      MutateMaster(t, own, x, open, c, v, t', r);
    }
    forall j, k2, e2 | 0 <= j < |t'.indices| && Has(t'.indices[j], k2, e2) ensures EntryOk(t', own, j, k2, e2) {
      assert EntryOk(t, own, j, k2, e2);
      SameEntry(t, own, j, k2, e2, t');
    }
  }

  lemma NotAt(t: Tbl, x: Id, j: nat)
    requires j < |t.rows|
    ensures NotIn(t, x) ==> t.rows[j].1 != x
  {
    assert Has(t.rows, t.rows[j].0, t.rows[j].1);
  }

  lemma SameEntry(t: Tbl, own: set<Id>, i: nat, k: MultiKey, e: Id, t': Tbl)
    requires EntryOk(t, own, i, k, e) && t'.idxRows == t.idxRows && t'.masters == t.masters && t'.hidden == t.hidden
    ensures EntryOk(t', own, i, k, e)
  {
  }

  lemma MutateMaster(t: Tbl, own: set<Id>, x: Id, open: set<nat>, c: nat, v: int, t': Tbl, r: Id)
    requires Almost(t, own, x, open) && x in own && c < t.schema.width && r in own
    requires forall i :: 0 <= i < |t.indices| && c in t.schema.indexCols[i] ==> i in open
    requires t' == t.(cols := t.cols[x := t.cols[x][c := v]]) && Shape(t', own)
    ensures MasterOk(t', own, r, if r == x then open else {})
  {
    hide EntriesOk, BaseOk, Has;
    assert MasterOk(t, own, r, if r == x then open else {});
    forall i | 0 <= i < |t.indices| && !(r == x && i in open) ensures KeyIn(t', r, i) == KeyIn(t, r, i) {
      assert r == x ==> c !in t.schema.indexCols[i];
    }
  }

  function Below(n: nat): (s: set<nat>)
    ensures forall i :: i in s <==> 0 <= i < n
  {
    if n == 0 then {} else Below(n - 1) + {n - 1}
  }

  /** A row joins with an empty master. */
  lemma NewMasterKeeps(t: Tbl, own: set<Id>, x: Id, m: Id, t': Tbl)
    requires Almost(t, own, x, {}) && x !in own && x in t.cols && |t.cols[x]| == t.schema.width && m !in t.masters
    requires t' == t.(hidden := t.hidden[x := m], masters := t.masters[m := Master(seq(|t.indices|, i => None), x)])
    ensures Almost(t', own + {x}, x, Below(|t.indices|))
  {
    hide Has, KeyIn, SlotOk;
    var own' := own + {x};
    forall r | r in own' ensures MasterOk(t', own', r, if r == x then Below(|t.indices|) else {}) {
      if r != x {
        assert MasterOk(t, own, r, {});
        OtherMaster(t, own, r, own', t');
      }
    }
    forall j, k2, e2 | 0 <= j < |t'.indices| && Has(t'.indices[j], k2, e2) ensures EntryOk(t', own', j, k2, e2) {
      assert EntryOk(t, own, j, k2, e2);
    }
  }

  lemma OtherMaster(t: Tbl, own: set<Id>, r: Id, own': set<Id>, t': Tbl)
    requires Shape(t, own) && r in own && MasterOk(t, own, r, {}) && Shape(t', own') && r in own'
    requires t'.indices == t.indices && t'.idxRows == t.idxRows && t'.cols == t.cols && t'.schema == t.schema
    requires r in t'.hidden && t'.hidden[r] == t.hidden[r]
    requires t.hidden[r] in t'.masters && t'.masters[t.hidden[r]] == t.masters[t.hidden[r]]
    ensures MasterOk(t', own', r, {})
  {
    hide Has;
  }

  /** A row out of the base table whose slots are all empty can go. */
  lemma ForgetKeeps(t: Tbl, own: set<Id>, x: Id, open: set<nat>)
    requires Almost(t, own, x, open) && x in own && NotIn(t, x) && (forall i :: 0 <= i < |t.indices| ==> i in open)
    ensures Almost(t, own - {x}, x, {})
  {
    hide Has, KeyIn, SlotOk;
    var own' := own - {x};
    assert MasterOk(t, own, x, open);
    forall j | 0 <= j < |t.rows| ensures t.rows[j].1 != x {
      NotAt(t, x, j);
    }
    forall r | r in own' ensures MasterOk(t, own', r, {}) {
      assert MasterOk(t, own, r, {});
      OtherMaster(t, own, r, own', t);
    }
    forall j, k2, e2 | 0 <= j < |t.indices| && Has(t.indices[j], k2, e2) ensures EntryOk(t, own', j, k2, e2) {
      assert EntryOk(t, own, j, k2, e2);
    }
  }

  // ---- what being in step means for a reader of an index ----

  /** The base row an index entry leads to. */
  function Leads(t: Tbl, e: Id): Id
    requires e in t.idxRows && t.idxRows[e].master in t.masters
  {
    t.masters[t.idxRows[e].master].base
  }

  lemma EntryLeads(t: Tbl, i: nat, j: nat)
    requires InStep(t) && i < |t.indices| && j < |t.indices[i]|
    ensures var (k, e) := t.indices[i][j];
            && e in t.idxRows && t.idxRows[e].master in t.masters
            && Leads(t, e) in Members(t) && Leads(t, e) in t.cols && k == KeyIn(t, Leads(t, e), i)
            && Leads(t, e) in t.hidden && t.hidden[Leads(t, e)] == t.idxRows[e].master
            && i < |t.masters[t.idxRows[e].master].slots| && t.masters[t.idxRows[e].master].slots[i] == Some(e)
  {
    hide Has, BaseOk;
    EntryKey(t, Members(t), i, j);
    var (k, e) := t.indices[i][j];
    assert MasterOk(t, Members(t), Leads(t, e), {});
  }

  /** One entry per row: two entries of an index lead to different rows ... */
  lemma EntriesAreDistinct(t: Tbl, i: nat, j1: nat, j2: nat)
    requires InStep(t) && i < |t.indices| && j1 < j2 < |t.indices[i]|
    ensures var e1, e2 := t.indices[i][j1].1, t.indices[i][j2].1;
            e1 in t.idxRows && e2 in t.idxRows &&
            t.idxRows[e1].master in t.masters && t.idxRows[e2].master in t.masters &&
            Leads(t, e1) != Leads(t, e2)
  {
    hide Has, BaseOk, MastersOk, EntriesOk;
    EntryLeads(t, i, j1);
    EntryLeads(t, i, j2);
  }

  /** ... and every row has one. */
  lemma RowHasEntry(t: Tbl, i: nat, r: Id) returns (j: nat)
    requires InStep(t) && i < |t.indices| && r in Members(t)
    ensures j < |t.indices[i]|
    ensures var e := t.indices[i][j].1; e in t.idxRows && t.idxRows[e].master in t.masters && Leads(t, e) == r
  {
    hide BaseOk, EntriesOk;
    assert MasterOk(t, Members(t), r, {});
    var e := t.masters[t.hidden[r]].slots[i].value;
    assert Has(t.indices[i], KeyIn(t, r, i), e);
    j :| 0 <= j < |t.indices[i]| && t.indices[i][j] == (KeyIn(t, r, i), e);
  }

  class IndexedTable {
    const schema: Schema
    var rows: Entries
    var indices: seq<Entries>
    var cols: map<Id, seq<int>>
    var attached: set<Id>
    var hidden: map<Id, Id>
    var masters: map<Id, Master>
    var idxRows: map<Id, IdxRow>
    var nextRow: Id
    var nextMaster: Id
    var nextIdx: Id

    ghost function Value(): Tbl
      reads this
    {
      Tbl(schema, rows, indices, cols, hidden, masters, idxRows)
    }

    /** Ids are handed out in order. */
    ghost predicate Alloc()
      reads this
    {
      && (forall e :: e in idxRows ==> e < nextIdx)
      && (forall m :: m in masters ==> m < nextMaster)
      && Remembered(hidden, masters, |schema.indexCols|)
    }

    /** Every row that has a master exists. */
    ghost predicate RowsAlloc()
      reads this
    {
      hidden.Keys <= cols.Keys && Members(Value()) <= cols.Keys && forall r :: r in cols ==> r < nextRow
    }

    /** `Row::create`: a row outside any table, without a master. */
    method Create(c: seq<int>) returns (r: Id)
      requires Valid() && RowsAlloc() && |c| == schema.width
      modifies this`cols, this`nextRow
      ensures Valid() && RowsAlloc() && IsRow(r) && r !in hidden && r !in old(cols) && cols == old(cols)[r := c]
      ensures Members(Value()) == old(Members(Value()))
    {
      hide InStep, Members, Remembered;
      r := nextRow;
      OutsiderKeeps(Value(), r, c);
      SameMembers(Value(), Value().(cols := cols[r := c]));
      cols := cols[r := c];
      nextRow := nextRow + 1;
    }

    ghost predicate Valid()
      reads this
    {
      InStep(Value()) && Alloc() && Members(Value()) <= attached
    }

    ghost predicate IsRow(r: Id)
      reads this
    {
      r in cols && |cols[r]| == schema.width
    }

    constructor (schema: Schema)
      requires schema.Valid()
      ensures Valid() && RowsAlloc() && this.schema == schema && rows == []
    {
      this.schema := schema;
      rows, indices := [], seq(|schema.indexCols|, i => []);
      cols, attached, hidden, masters, idxRows := map[], {}, map[], map[], map[];
      nextRow, nextMaster, nextIdx := 0, 0, 0;
    }

    /** Pick columns from the base row into the index key. */
    method PickColumns(c: seq<int>, which: seq<nat>) returns (k: MultiKey)
      requires forall j :: 0 <= j < |which| ==> which[j] < |c|
      ensures k == Pick(c, which)
    {
      k := [];
      var i := 0;
      while i < |which|
        invariant 0 <= i <= |which| && k == Pick(c, which)[..i]
      {
        k := k + [c[which[i]]];
        i := i + 1;
      }
    }

    /** `make_index_row` and its insertion into the index. */
    method AddIndexRow(r: Id, i: nat, m: Id)
      requires schema.Valid() && IsRow(r) && i < |schema.indexCols| == |indices| && Alloc()
      requires Keyed(indices[i], |schema.indexCols[i]|) && m in masters && i < |masters[m].slots|
      modifies this`idxRows, this`masters, this`indices, this`nextIdx
      ensures Value() == AddEntry(old(Value()), r, m, i, old(nextIdx)) && Alloc()
      ensures masters.Keys == old(masters.Keys)
    {
      hide Remembered;
      assert schema.InWidth(schema.indexCols[i]);
      var k := PickColumns(cols[r], schema.indexCols[i]);
      var e := nextIdx;
      RememberSlot(hidden, masters, |schema.indexCols|, m, i, Some(e));
      nextIdx := nextIdx + 1;
      idxRows := idxRows[e := IdxRow(k, m)];
      masters := masters[m := masters[m].(slots := masters[m].slots[i := Some(e)])];
      indices := indices[i := Inserted(indices[i], k, e)];
    }

    /** Remove the index row in slot `i` from its index and empty the slot. */
    method DropIndexRow(r: Id, i: nat, ghost own: set<Id>, ghost open: set<nat>)
      requires Almost(Value(), own, r, open) && r in own && Alloc() && i < |indices| && i !in open
      modifies this`masters, this`indices
      ensures Almost(Value(), own, r, open + {i}) && Alloc() &&
              Value() == old(Value()).(masters := masters, indices := indices)
    {
      hide BaseOk, EntryOk, Shape, Remembered;
      assert MasterOk(Value(), own, r, open);
      SlotFilled(Value(), own, r, open, i);
      var m := hidden[r];
      var e := masters[m].slots[i].value;
      var found, j := Find(indices[i], idxRows[e].key, e);
      DropEntryKeeps(Value(), own, r, open, i, j, DropEntry(Value(), m, i, j));
      RememberSlot(hidden, masters, |schema.indexCols|, m, i, None);
      indices := indices[i := Erased(indices[i], j)];
      masters := masters[m := masters[m].(slots := masters[m].slots[i := None])];
    }

    /** `insert`: index rows are made for a row that has no master yet. */
    method Insert(r: Id)
      requires schema.Valid() && IsRow(r) && Keyed(rows, |schema.keyCols|)
      requires r !in hidden ==> Valid() && r !in Members(Value())
      modifies this`rows, this`indices, this`attached, this`hidden, this`masters, this`idxRows, this`nextMaster
      modifies this`nextIdx
      ensures attached == old(attached) + {r}
      ensures old(r !in hidden) ==> Valid() && Members(Value()) == old(Members(Value())) + {r}
      ensures old(r in hidden) ==>
                && Value() == old(Value()).(rows := Inserted(old(rows), Pick(cols[r], schema.keyCols), r))
                && nextMaster == old(nextMaster) && nextIdx == old(nextIdx)
      ensures old(Valid() && r !in Members(Value())) ==>
                (InStep(Value()) <==> old(r !in hidden) || |schema.indexCols| == 0)
    {
      hide Shape, BaseOk, MastersOk, EntriesOk, Below, Remembered;
      ghost var before := Members(Value());
      if Valid() && r !in before && r in hidden {
        InStepShape(Value());
        ReinsertIff(Value(), r, Value().(rows := Inserted(rows, Pick(cols[r], schema.keyCols), r)));
      }
      if r !in hidden {
        MakeIndexRows(r);
      }
      var k := PickColumns(cols[r], schema.keyCols);
      if old(r !in hidden) {
        BeforeBaseInsert(Value(), before, r);
        AddBaseKeeps(Value(), before + {r}, r, {}, r, Value().(rows := Inserted(rows, k, r)));
        AnyRow(Value().(rows := Inserted(rows, k, r)), before + {r}, r, 0);
      }
      rows := Inserted(rows, k, r);
      attached := attached + {r};
    }

    /** The loop of `insert` over the indices; the row learns its master at the end. */
    method MakeIndexRows(r: Id)
      requires schema.Valid() && IsRow(r) && r !in hidden && Valid() && r !in Members(Value())
      modifies this`indices, this`hidden, this`masters, this`idxRows, this`nextMaster, this`nextIdx
      ensures Almost(Value(), old(Members(Value())) + {r}, r, {}) && Alloc()
    {
      hide InStep, Almost, Below, Members, Remembered;
      ghost var before := Members(Value());
      InStepAlmost(Value(), r);
      AlmostShape(Value(), before, r, {});
      var m := nextMaster;
      RememberNew(hidden, masters, |schema.indexCols|, m, Master(seq(|indices|, i => None), r));
      nextMaster := nextMaster + 1;
      NewMasterKeeps(Value(), before, r, m,
                     Value().(hidden := hidden[r := m], masters := masters[m := Master(seq(|indices|, i => None), r)]));
      masters := masters[m := Master(seq(|indices|, i => None), r)];
      FillSlots(r, m, before + {r}, hidden[r := m]);
      OpenSlot(Value().(hidden := hidden[r := m]), before + {r}, r, {});
      AlmostShape(Value().(hidden := hidden[r := m]), before + {r}, r, {});
      RememberMore(hidden, masters, |schema.indexCols|, r, m);
      hidden := hidden[r := m];
    }

    /** `later` is the hidden column as it will be when the row learns its master. */
    method FillSlots(r: Id, m: Id, ghost own: set<Id>, ghost later: map<Id, Id>)
      requires schema.Valid() && IsRow(r) && r in own && Alloc() && m in masters && r in later && later[r] == m
      requires Almost(Value().(hidden := later), own, r, Below(|indices|))
      modifies this`indices, this`masters, this`idxRows, this`nextIdx
      ensures Almost(Value().(hidden := later), own, r, {}) && Alloc()
    {
      hide Almost, Below, Remembered;
      ghost var n := |indices|;
      assert Below(n) - Below(0) == Below(n);
      AlmostShape(Value().(hidden := later), own, r, Below(n));
      var i := 0;
      while i < |schema.indexCols|
        invariant 0 <= i <= |schema.indexCols| == n && Alloc() && m in masters
        invariant Almost(Value().(hidden := later), own, r, Below(n) - Below(i))
      {
        FillSlot(r, m, i, own, Below(n) - Below(i), later);
        assert Below(n) - Below(i) - {i} == Below(n) - Below(i + 1);
        i := i + 1;
      }
      assert Below(n) - Below(n) == {};
    }

    method FillSlot(r: Id, m: Id, i: nat, ghost own: set<Id>, ghost open: set<nat>, ghost later: map<Id, Id>)
      requires IsRow(r) && r in own && Alloc() && r in later && later[r] == m && i in open && i < |schema.indexCols|
      requires Almost(Value().(hidden := later), own, r, open)
      modifies this`indices, this`masters, this`idxRows, this`nextIdx
      ensures Almost(Value().(hidden := later), own, r, open - {i}) && Alloc() && m in masters
      ensures |indices| == old(|indices|)
    {
      hide Almost, Remembered;
      ghost var t, e := Value().(hidden := later), nextIdx;
      AlmostShape(t, own, r, open);
      OpenSlot(t, own, r, open);
      AddIndexRow(r, i, m);
      AddEntryKeeps(t, own, r, open, i, e, Value().(hidden := later));
    }

    /** `destroy_secondary_indices`: every index row goes; freeing the master is emptying its slots. */
    method DestroyIndexRows(r: Id, ghost own: set<Id>)
      requires Almost(Value(), own, r, {}) && r in own && Alloc()
      modifies this`masters, this`indices
      ensures Almost(Value(), own, r, Below(|indices|)) && Alloc() && |indices| == old(|indices|)
    {
      hide Almost, Below, Remembered;
      assert Below(0) == {};
      AlmostShape(Value(), own, r, {});
      var i := 0;
      while i < |schema.indexCols|
        invariant 0 <= i <= |schema.indexCols| == |indices| && Alloc()
        invariant Almost(Value(), own, r, Below(i))
      {
        DropIndexRow(r, i, own, Below(i));
        AlmostShape(Value(), own, r, Below(i) + {i});
        assert Below(i) + {i} == Below(i + 1);
        i := i + 1;
      }
    }

    /** `remove` at a position of the base table, freeing the row. */
    method RemoveAt(j: nat)
      requires Valid() && j < |rows|
      modifies this`rows, this`masters, this`indices
      ensures Valid() && rows == Erased(old(rows), j) && Members(Value()) == old(Members(Value())) - {old(rows)[j].1}
    {
      hide InStep, Almost, Below, Members, Remembered;
      ghost var own := Members(Value());
      var r := rows[j].1;
      EntryIsMember(Value(), j);
      InStepAlmost(Value(), r);
      DestroyIndexRows(r, own);
      ghost var t, n := Value(), |indices|;
      DropBaseKeeps(t, own, r, Below(n), j, t.(rows := Erased(rows, j)));
      ForgetKeeps(t.(rows := Erased(rows, j)), own, r, Below(n));
      SameMembers(t, old(Value()));
      AlmostInStep(t.(rows := Erased(rows, j)), own - {r}, r);
      rows := Erased(rows, j);
    }

    /** `remove(row)`. */
    method Remove(r: Id)
      requires Valid() && IsRow(r)
      modifies this`rows, this`masters, this`indices, this`attached
      ensures Valid() && Members(Value()) == old(Members(Value())) - {r}
      ensures attached == old(attached) - {r} || attached == old(attached)
    {
      hide Almost, Members, Remembered;
      AlmostShape(Value(), Members(Value()), 0, {});
      var k := PickColumns(cols[r], schema.keyCols);
      FoundIffMember(Value(), r);
      var found, j := Find(rows, k, r);
      if found {
        RemoveAt(j);
        attached := attached - {r};
      }
    }

    /** `remove(key)`: all rows with that key. */
    method RemoveKey(k: MultiKey)
      requires Valid() && |k| == |schema.keyCols|
      modifies this`rows, this`masters, this`indices
      ensures Valid()
      ensures forall r :: r in Members(Value()) <==> r in old(Members(Value())) && Pick(cols[r], schema.keyCols) != k
    {
      hide InStep, LowerBound, UpperBound, Remembered;
      BaseMeans(Value());
      var lo, hi := LowerBound(rows, k), UpperBound(rows, k);
      Stretch(rows, k);
      var c := lo;
      while c < hi
        invariant lo <= c <= hi && Valid() && rows == old(rows)[..lo] + old(rows)[c..]
      {
        RemoveAt(lo);
        assert rows == old(rows)[..lo] + old(rows)[c + 1..];
        c := c + 1;
      }
      BaseMeans(Value());
      KeyGone(old(Value()), Value(), k, lo, hi);
    }

    /** `remove(row, false)`: out of the base table only. */
    method Detach(r: Id, ghost own: set<Id>, ghost open: set<nat>)
      requires Almost(Value(), own, r, open) && r in own && r in Members(Value())
      modifies this`rows, this`attached
      ensures Almost(Value(), own, r, open) && NotIn(Value(), r) && Members(Value()) == old(Members(Value())) - {r}
      ensures attached == old(attached) - {r}
      ensures exists j :: 0 <= j < |old(rows)| && Value() == old(Value()).(rows := Erased(old(rows), j))
    {
      hide MastersOk, EntriesOk;
      AlmostFound(Value(), own, r, open);
      var k := PickColumns(cols[r], schema.keyCols);
      var found, j := Find(rows, k, r);
      DropBaseKeeps(Value(), own, r, open, j, Value().(rows := Erased(rows, j)));
      attached := attached - {r};
      rows := Erased(rows, j);
    }

    /** Does index `i` use column `c`? */
    method Uses(i: nat, c: nat) returns (affected: bool)
      requires i < |schema.indexCols|
      ensures affected <==> c in schema.indexCols[i]
    {
      var j := 0;
      while j < |schema.indexCols[i]|
        invariant 0 <= j <= |schema.indexCols[i]| && c !in schema.indexCols[i][..j]
      {
        if schema.indexCols[i][j] == c {
          return true;
        }
        j := j + 1;
      }
      assert schema.indexCols[i][..j] == schema.indexCols[i];
      return false;
    }

    /** Take the row out of every index that uses the column. */
    method NotifyBeforeUpdate(r: Id, c: nat, ghost own: set<Id>)
      requires Almost(Value(), own, r, {}) && r in own && Alloc()
      modifies this`masters, this`indices
      ensures Almost(Value(), own, r, Affected(schema, c, |schema.indexCols|)) && Alloc()
    {
      hide Almost, Affected, Remembered;
      assert Affected(schema, c, 0) == {};
      AlmostShape(Value(), own, r, {});
      var i := 0;
      while i < |schema.indexCols|
        invariant 0 <= i <= |schema.indexCols| == |indices| && Alloc()
        invariant Almost(Value(), own, r, Affected(schema, c, i))
      {
        var affected := Uses(i, c);
        AffectedStep(schema, c, i);
        if affected {
          DropIndexRow(r, i, own, Affected(schema, c, i));
          AlmostShape(Value(), own, r, Affected(schema, c, i) + {i});
        }
        i := i + 1;
      }
    }

    /** Put it back under its new key. */
    method NotifyAfterUpdate(r: Id, c: nat, ghost own: set<Id>)
      requires IsRow(r) && Almost(Value(), own, r, Affected(schema, c, |schema.indexCols|)) && r in own && Alloc()
      modifies this`masters, this`indices, this`idxRows, this`nextIdx
      ensures Almost(Value(), own, r, {}) && Alloc()
    {
      hide Almost, Affected, Remembered;
      ghost var all := Affected(schema, c, |schema.indexCols|);
      OpenSlot(Value(), own, r, all);
      AlmostShape(Value(), own, r, all);
      var m := hidden[r];
      assert all - Affected(schema, c, 0) == all;
      var i := 0;
      while i < |schema.indexCols|
        invariant 0 <= i <= |schema.indexCols| == |indices| && Alloc()
        invariant Almost(Value(), own, r, all - Affected(schema, c, i))
      {
        var affected := Uses(i, c);
        AffectedStep(schema, c, i);
        if affected {
          assert Value() == Value().(hidden := hidden);
          FillSlot(r, m, i, own, all - Affected(schema, c, i), hidden);
          assert Value() == Value().(hidden := hidden);
          assert all - Affected(schema, c, i) - {i} == all - Affected(schema, c, i + 1);
        }
        i := i + 1;
      }
      assert all - all == {};
    }

    /**
      `Row::update` of a column: out of the indices and the table, change, and back in. A row that names the
      table without being in it, as after a removal by key, stops at the check of `set_table` on its way back.
     */
    method Update(r: Id, c: nat, v: int)
      requires Valid() && IsRow(r) && c < schema.width
      requires r in attached && cols[r][c] != v && schema.Indexed(c) ==> r in Members(Value())
      modifies this
      ensures Valid() && Members(Value()) == old(Members(Value())) && attached == old(attached)
      ensures cols == old(cols)[r := old(cols)[r][c := v]]
    {
      hide InStep, Almost, Members, Affected, Remembered;
      ghost var own := Members(Value());
      if cols[r][c] == v {
        assert cols[r] == cols[r][c := v];
        assert cols == cols[r := cols[r][c := v]];
        return;
      }
      var indexed := Indexed(c);
      if indexed && r in attached {
        InStepAlmost(Value(), r);
        Reinsert(r, c, v, own);
        AlmostInStep(Value(), own, r);
      } else {
        PlainKeeps(Value(), r, c, v);
        cols := cols[r := cols[r][c := v]];
      }
    }

    method Indexed(c: nat) returns (yes: bool)
      ensures yes <==> schema.Indexed(c)
    {
      if c in schema.keyCols {
        return true;
      }
      var i := 0;
      while i < |schema.indexCols|
        invariant 0 <= i <= |schema.indexCols|
        invariant forall j :: 0 <= j < i ==> c !in schema.indexCols[j]
      {
        var uses := Uses(i, c);
        if uses {
          return true;
        }
        i := i + 1;
      }
      return false;
    }

    method Reinsert(r: Id, c: nat, v: int, ghost own: set<Id>)
      requires Almost(Value(), own, r, {}) && Alloc() && r in own && own == Members(Value()) && own <= attached
      requires IsRow(r) && c < schema.width
      modifies this
      ensures Almost(Value(), own, r, {}) && Alloc() && Members(Value()) == own && attached == old(attached)
      ensures cols == old(cols)[r := old(cols)[r][c := v]]
    {
      hide Almost, Members, Affected, Remembered;
      ghost var all := Affected(schema, c, |schema.indexCols|);
      NotifyBeforeUpdate(r, c, own);
      SameMembers(Value(), old(Value()));
      Detach(r, own, all);
      ghost var t' := Value().(cols := cols[r := cols[r][c := v]]);
      AlmostShape(Value(), own, r, all);
      MutateKeeps(Value(), own, r, all, c, v, t');
      SameMembers(Value(), t');
      cols := cols[r := cols[r][c := v]];
      OpenSlot(Value(), own, r, all);
      AlmostShape(Value(), own, r, all);
      SameNotIn(old(Value()), Value(), r, own);
      AddBaseKeeps(Value(), own, r, all, r, Value().(rows := Inserted(rows, Pick(cols[r], schema.keyCols), r)));
      Insert(r);
      assert Members(Value()) == own;
      ghost var t := Value();
      NotifyAfterUpdate(r, c, own);
      SameMembers(t, Value());
    }

    /** An index query: walk the matching stretch of the index and follow each entry to its base row. */
    method QueryIndex(i: nat, q: Query) returns (out: seq<Id>)
      requires Valid() && i < |schema.indexCols| && q.Width(|schema.indexCols[i]|)
      ensures forall r :: r in out <==> Selects(Value(), i, q, r)
      ensures forall a, b :: 0 <= a < b < |out| ==> out[a] != out[b]
    {
      hide InStep, Selects, Begin, End, Remembered;
      InStepShape(Value());
      ghost var t := Value();
      var n := |schema.indexCols[i]|;
      var j, end := Begin(indices[i], q, n), End(indices[i], q, n);
      ghost var lo := j;
      out := [];
      while j < end
        invariant lo <= j && (j <= end || j == lo) && |out| == j - lo
        invariant forall a :: 0 <= a < |out| ==> LeadsTo(t, i, lo + a, out[a])
      {
        EntryLeads(t, i, j);
        out := out + [masters[idxRows[indices[i][j].1].master].base];
        j := j + 1;
      }
      QueryAnswer(t, i, q, lo, out);
    }

    /** `remove(cursor)`: collect the rows of an index query, then remove each. */
    method RemoveQuery(i: nat, q: Query)
      requires Valid() && i < |schema.indexCols| && q.Width(|schema.indexCols[i]|)
      modifies this`rows, this`masters, this`indices, this`attached
      ensures Valid()
      ensures forall r :: r in Members(Value()) <==> r in old(Members(Value())) && !Selects(old(Value()), i, q, r)
    {
      hide InStep, Members, Remembered;
      var out := QueryIndex(i, q);
      MembersAreRows(Value());
      var j := 0;
      while j < |out|
        invariant 0 <= j <= |out| && Valid()
        invariant forall r :: r in Members(Value()) <==> r in old(Members(Value())) && r !in out[..j]
      {
        assert out[j] in out;
        Remove(out[j]);
        j := j + 1;
      }
      assert out[..j] == out;
    }
  }

  lemma InStepShape(t: Tbl)
    requires InStep(t)
    ensures t.schema.Valid() && |t.indices| == |t.schema.indexCols|
    ensures forall i :: 0 <= i < |t.indices| ==> Ok(t.indices[i], |t.schema.indexCols[i]|)
  {
  }

  lemma MembersAreRows(t: Tbl)
    requires InStep(t)
    ensures forall r :: r in Members(t) ==> r in t.cols && |t.cols[r]| == t.schema.width
  {
  }

  /** Entry `j` of index `i` leads to row `r`. */
  ghost predicate LeadsTo(t: Tbl, i: nat, j: nat, r: Id) {
    && i < |t.indices| && j < |t.indices[i]|
    && var e := t.indices[i][j].1;
    && e in t.idxRows && t.idxRows[e].master in t.masters && Leads(t, e) == r
  }

  /** A base row whose projection on the columns of index `i` matches. */
  ghost predicate Selects(t: Tbl, i: nat, q: Query, r: Id) {
    && t.schema.Valid() && i < |t.schema.indexCols| && q.Width(|t.schema.indexCols[i]|)
    && r in Members(t) && r in t.cols && |t.cols[r]| == t.schema.width
    && q.Matches(KeyIn(t, r, i))
  }

  lemma InAnswer(t: Tbl, i: nat, q: Query, lo: nat, out: seq<Id>, r: Id)
    requires InStep(t) && i < |t.indices| == |t.schema.indexCols| && t.schema.Valid() &&
             q.Width(|t.schema.indexCols[i]|)
    requires Ok(t.indices[i], |t.schema.indexCols[i]|) && lo == Begin(t.indices[i], q, |t.schema.indexCols[i]|)
    requires |out| == (var e := End(t.indices[i], q, |t.schema.indexCols[i]|); if lo <= e then e - lo else 0)
    requires forall a :: 0 <= a < |out| ==> LeadsTo(t, i, lo + a, out[a])
    ensures r in out <==> Selects(t, i, q, r)
  {
    hide InStep, Members, Begin, End;
    var n := |t.schema.indexCols[i]|;
    if r in out {
      var a :| 0 <= a < |out| && out[a] == r;
      assert LeadsTo(t, i, lo + a, out[a]);
      EntryLeads(t, i, lo + a);
      MembersAreRows(t);
      QueryIsExact(t.indices[i], q, n, lo + a);
    }
    if r in Members(t) {
      MembersAreRows(t);
      if q.Matches(KeyIn(t, r, i)) {
        var j := RowHasEntry(t, i, r);
        EntryLeads(t, i, j);
        QueryIsExact(t.indices[i], q, n, j);
        assert LeadsTo(t, i, lo + (j - lo), out[j - lo]);
      }
    }
  }

  lemma QueryAnswer(t: Tbl, i: nat, q: Query, lo: nat, out: seq<Id>)
    requires InStep(t) && i < |t.indices| == |t.schema.indexCols| && t.schema.Valid() &&
             q.Width(|t.schema.indexCols[i]|)
    requires Ok(t.indices[i], |t.schema.indexCols[i]|) && lo == Begin(t.indices[i], q, |t.schema.indexCols[i]|)
    requires |out| == (var e := End(t.indices[i], q, |t.schema.indexCols[i]|); if lo <= e then e - lo else 0)
    requires forall a :: 0 <= a < |out| ==> LeadsTo(t, i, lo + a, out[a])
    ensures forall r :: r in out <==> Selects(t, i, q, r)
    ensures forall a, b :: 0 <= a < b < |out| ==> out[a] != out[b]
  {
    hide InStep, Members, Selects;
    forall r ensures r in out <==> Selects(t, i, q, r) {
      InAnswer(t, i, q, lo, out, r);
    }
    forall a, b | 0 <= a < b < |out| ensures out[a] != out[b] {
      assert LeadsTo(t, i, lo + a, out[a]) && LeadsTo(t, i, lo + b, out[b]);
      EntriesAreDistinct(t, i, lo + a, lo + b);
    }
  }

  /** Columns of a row outside the table do not matter to it. */
  lemma OutsiderKeeps(t: Tbl, r: Id, c: seq<int>)
    requires InStep(t) && r !in Members(t)
    ensures InStep(t.(cols := t.cols[r := c]))
  {
    hide Has;
    var t', own := t.(cols := t.cols[r := c]), Members(t);
    assert Members(t') == own;
    forall x | x in own ensures MasterOk(t', own, x, {}) {
      assert MasterOk(t, own, x, {});
      forall i | 0 <= i < |t.indices| ensures KeyIn(t', x, i) == KeyIn(t, x, i) {
      }
    }
    forall j, k2, e2 | 0 <= j < |t'.indices| && Has(t'.indices[j], k2, e2) ensures EntryOk(t', own, j, k2, e2) {
      assert EntryOk(t, own, j, k2, e2);
    }
  }

  lemma SameNotIn(t: Tbl, t': Tbl, r: Id, own: set<Id>)
    requires Members(t) == own && Members(t') == own - {r}
    ensures NotIn(t', r)
  {
    BeforeBaseInsert(t', own - {r}, r);
  }

  /**
    A row that was removed keeps the pointer to its old master, so inserting it again makes no
    index rows: with at least one index, the table is then out of step.
   */
  lemma ReinsertedRowIsLost(t: Tbl, r: Id, t': Tbl)
    requires InStep(t) && r !in Members(t) && r in t.hidden && |t.indices| > 0 && r in t.cols &&
             |t.cols[r]| == t.schema.width
    requires t.schema.Valid() && Keyed(t.rows, |t.schema.keyCols|)
    requires t' == t.(rows := Inserted(t.rows, Pick(t.cols[r], t.schema.keyCols), r))
    ensures !InStep(t')
  {
    hide BaseOk, UpperBound;
    var u := UpperBound(t.rows, Pick(t.cols[r], t.schema.keyCols));
    assert t'.rows[u].1 == r;
    if InStep(t') {
      LostSlot(t, r, t');
    }
  }

  /**
    Taking a row out of the base table without freeing it, as the commit of a staged removal does,
    leaves its index entries behind: the table is then in step exactly when there is no index.
   */
  lemma DetachedRowStaysIndexed(t: Tbl, j: nat, t': Tbl)
    requires InStep(t) && j < |t.rows| && t' == t.(rows := Erased(t.rows, j))
    ensures InStep(t') <==> |t.indices| == 0
  {
    hide InStep, Almost, Members;
    var r := t.rows[j].1;
    if |t.indices| == 0 {
      EntryIsMember(t, j);
      InStepAlmost(t, r);
      DropBaseKeeps(t, Members(t), r, {}, j, t');
      ForgetKeeps(t', Members(t), r, {});
      AlmostInStep(t', Members(t) - {r}, r);
    } else {
      DropGone(t, j, t');
      if InStep(t') {
        EntryIsMember(t, j);
        KeepsBase(t, r, t');
      }
    }
  }

  lemma DropGone(t: Tbl, j: nat, t': Tbl)
    requires InStep(t) && j < |t.rows| && t'.rows == Erased(t.rows, j)
    ensures t.rows[j].1 !in Members(t')
  {
    hide Almost, Members;
    BaseMeans(t);
    DropMembers(t, j, t');
  }

  /** A row with an index entry is in the base table of a table in step. */
  lemma KeepsBase(t: Tbl, r: Id, t': Tbl)
    requires InStep(t) && InStep(t') && r in Members(t) && |t.indices| > 0 && t' == t.(rows := t'.rows)
    ensures r in Members(t')
  {
    hide InStep, Members;
    var j := RowHasEntry(t, 0, r);
    EntryLeads(t', 0, j);
  }

  lemma OutsiderWithMaster(t: Tbl, r: Id)
    requires InStep(t) && Remembered(t.hidden, t.masters, |t.schema.indexCols|) && r in t.hidden && |t.indices| == 0
    requires r in t.cols && |t.cols[r]| == t.schema.width
    ensures Almost(t, Members(t) + {r}, r, {})
  {
    hide Has;
    forall x | x in Members(t) + {r} ensures MasterOk(t, Members(t) + {r}, x, {}) {
    }
  }

  /** Inserting a row that has a master keeps the table in step exactly when there is no index. */
  lemma ReinsertIff(t: Tbl, r: Id, t': Tbl)
    requires InStep(t) && Remembered(t.hidden, t.masters, |t.schema.indexCols|) && r !in Members(t) && r in t.hidden
    requires r in t.cols && |t.cols[r]| == t.schema.width && t.schema.Valid() && Keyed(t.rows, |t.schema.keyCols|)
    requires t' == t.(rows := Inserted(t.rows, Pick(t.cols[r], t.schema.keyCols), r))
    ensures InStep(t') <==> |t.indices| == 0
  {
    hide InStep, Almost, Remembered;
    if |t.indices| == 0 {
      OutsiderWithMaster(t, r);
      BeforeBaseInsert(t, Members(t), r);
      AddBaseKeeps(t, Members(t) + {r}, r, {}, r, t');
      AlmostInStep(t', Members(t) + {r}, r);
    } else {
      ReinsertedRowIsLost(t, r, t');
    }
  }

  lemma MemberHasMaster(t: Tbl, r: Id)
    requires InStep(t) && r in Members(t)
    ensures r in t.hidden && t.schema.Valid() && Keyed(t.rows, |t.schema.keyCols|)
  {
    assert MasterOk(t, Members(t), r, {});
  }

  /** A run that gets there: a row kept alive by a reference of the caller is inserted, removed and inserted again. */
  method InsertRemoveInsert(schema: Schema, c: seq<int>) returns (t: IndexedTable, r: Id)
    requires schema.Valid() && |c| == schema.width
    ensures fresh(t) && t.schema == schema
    ensures InStep(t.Value()) <==> |schema.indexCols| == 0
  {
    hide InStep, Remembered, Members;
    t := new IndexedTable(schema);
    NoMembers(t.Value());
    r := t.Create(c);
    t.Insert(r);
    MemberHasMaster(t.Value(), r);
    t.Remove(r);
    InStepRows(t.Value());
    t.Insert(r);
  }

  /** A run that gets there: the commit of a staged removal detaches a row that was inserted. */
  method InsertDetach(schema: Schema, c: seq<int>) returns (t: IndexedTable, r: Id)
    requires schema.Valid() && |c| == schema.width
    ensures fresh(t) && t.schema == schema
    ensures InStep(t.Value()) <==> |schema.indexCols| == 0
  {
    hide InStep, Remembered, Members, Almost;
    t := new IndexedTable(schema);
    NoMembers(t.Value());
    r := t.Create(c);
    t.Insert(r);
    ghost var was := t.Value();
    InStepAlmost(was, r);
    InStepShape(was);
    t.Detach(r, Members(was), {});
    ghost var j :| 0 <= j < |was.rows| && t.Value() == was.(rows := Erased(was.rows, j));
    DetachedRowStaysIndexed(was, j, t.Value());
  }

  lemma NoMembers(t: Tbl)
    requires t.rows == []
    ensures Members(t) == {}
  {
  }

  lemma InStepRows(t: Tbl)
    requires InStep(t)
    ensures Keyed(t.rows, |t.schema.keyCols|)
  {
  }

  lemma LostSlot(t: Tbl, r: Id, t': Tbl)
    requires InStep(t) && InStep(t') && t' == t.(rows := t'.rows) && r in Members(t') && |t.indices| > 0
    ensures r in Members(t)
  {
    hide BaseOk;
    assert MasterOk(t', Members(t'), r, {});
    var e := t.masters[t.hidden[r]].slots[0].value;
    assert EntryOk(t, Members(t), 0, KeyIn(t', r, 0), e);
  }

  /** The indices below `n` that use column `c`. */
  ghost function Affected(s: Schema, c: nat, n: nat): (a: set<nat>)
    requires n <= |s.indexCols|
    ensures forall i :: i in a <==> 0 <= i < n && c in s.indexCols[i]
  {
    if n == 0 then {} else Affected(s, c, n - 1) + if c in s.indexCols[n - 1] then {n - 1} else {}
  }

  lemma AffectedStep(s: Schema, c: nat, i: nat)
    requires i < |s.indexCols|
    ensures Affected(s, c, i + 1) == if c in s.indexCols[i] then Affected(s, c, i) + {i} else Affected(s, c, i)
    ensures i !in Affected(s, c, i)
    ensures c in s.indexCols[i] ==> i in Affected(s, c, |s.indexCols|)
  {
  }

  lemma EntryIsMember(t: Tbl, j: nat)
    requires j < |t.rows|
    ensures t.rows[j].1 in Members(t)
  {
  }

  /** A column of a row outside the table, or of no key and no index, changes in place. */
  lemma PlainKeeps(t: Tbl, r: Id, c: nat, v: int)
    requires InStep(t) && r in t.cols && c < |t.cols[r]| == t.schema.width
    requires r !in Members(t) || !t.schema.Indexed(c)
    ensures var t' := t.(cols := t.cols[r := t.cols[r][c := v]]); InStep(t') && Members(t') == Members(t)
  {
    hide InStep, Almost, Members;
    var t' := t.(cols := t.cols[r := t.cols[r][c := v]]);
    SameMembers(t, t');
    if r !in Members(t) {
      OutsiderKeeps(t, r, t.cols[r][c := v]);
    } else {
      InStepAlmost(t, r);
      AlmostShape(t, Members(t), r, {});
      MutateKeeps(t, Members(t), r, {}, c, v, t');
      AlmostInStep(t', Members(t), r);
    }
  }

  lemma SameMembers(t: Tbl, t': Tbl)
    requires t.rows == t'.rows
    ensures Members(t) == Members(t')
  {
  }

  lemma AlmostInStep(t: Tbl, own: set<Id>, x: Id)
    requires Almost(t, own, x, {}) && Members(t) == own
    ensures InStep(t)
  {
    hide Almost;
    AnyRow(t, own, x, 0);
  }

  /** A row of the base table is found under its current key. */
  lemma AlmostFound(t: Tbl, own: set<Id>, x: Id, open: set<nat>)
    requires Almost(t, own, x, open) && x in own
    ensures t.schema.Valid() && x in t.cols && |t.cols[x]| == t.schema.width
    ensures Ok(t.rows, |t.schema.keyCols|)
    ensures x in Members(t) ==> Has(t.rows, Pick(t.cols[x], t.schema.keyCols), x)
  {
    hide MastersOk, EntriesOk;
    if x in Members(t) {
      var i :| 0 <= i < |t.rows| && t.rows[i].1 == x;
      assert t.rows[i].0 == Pick(t.cols[x], t.schema.keyCols);
    }
  }

  lemma FoundIffMember(t: Tbl, r: Id)
    requires InStep(t) && r in t.cols && |t.cols[r]| == t.schema.width
    ensures t.schema.Valid() && Ok(t.rows, |t.schema.keyCols|)
    ensures Has(t.rows, Pick(t.cols[r], t.schema.keyCols), r) <==> r in Members(t)
  {
    hide MastersOk, EntriesOk;
    if r in Members(t) {
      AlmostFound(t, Members(t), r, {}) by { InStepAlmost(t, r); }
    }
  }

  lemma BaseMeans(t: Tbl)
    requires InStep(t)
    ensures t.schema.Valid() && Ok(t.rows, |t.schema.keyCols|) && Unique(t.rows)
    ensures forall i :: 0 <= i < |t.rows| ==>
                          && t.rows[i].1 in t.cols && |t.cols[t.rows[i].1]| == t.schema.width
                          && t.rows[i].0 == Pick(t.cols[t.rows[i].1], t.schema.keyCols)
  {
    hide MastersOk, EntriesOk;
    assert forall i :: 0 <= i < |t.rows| ==> t.rows[i].1 in Members(t);
  }

  lemma Stretch(m: Entries, k: MultiKey)
    requires Ok(m, |k|)
    ensures LowerBound(m, k) <= UpperBound(m, k)
    ensures forall j :: 0 <= j < |m| ==> (m[j].0 == k <==> LowerBound(m, k) <= j < UpperBound(m, k))
  {
    hide LowerBound, UpperBound;
    forall j | 0 <= j < |m| ensures m[j].0 == k <==> LowerBound(m, k) <= j < UpperBound(m, k) {
      QueryIsExact(m, Equal(k), |k|, j);
    }
    BoundsOrdered(m, k);
  }

  lemma {:induction false} BoundsOrdered(m: Entries, k: MultiKey)
    requires Keyed(m, |k|)
    ensures LowerBound(m, k) <= UpperBound(m, k)
  {
    if m != [] {
      LessIsStrict(m[0].0, k);
      BoundsOrdered(m[1..], k);
    }
  }

  lemma KeyGone(t: Tbl, t': Tbl, k: MultiKey, lo: nat, hi: nat)
    requires lo <= hi <= |t.rows| && t'.rows == t.rows[..lo] + t.rows[hi..] && t'.cols == t.cols &&
             t'.schema == t.schema
    requires t.schema.Valid()
    requires forall i :: 0 <= i < |t.rows| ==>
                           && t.rows[i].1 in t.cols && |t.cols[t.rows[i].1]| == t.schema.width
                           && t.rows[i].0 == Pick(t.cols[t.rows[i].1], t.schema.keyCols)
    requires forall j :: 0 <= j < |t.rows| ==> (t.rows[j].0 == k <==> lo <= j < hi)
    ensures forall r :: r in Members(t') <==> r in Members(t) && Pick(t.cols[r], t.schema.keyCols) != k
  {
    forall r ensures r in Members(t') <==> r in Members(t) && Pick(t.cols[r], t.schema.keyCols) != k {
      if r in Members(t) {
        var j :| 0 <= j < |t.rows| && t.rows[j].1 == r;
        if t.rows[j].0 != k {
          assert t'.rows[if j < lo then j else j - (hi - lo)] == t.rows[j];
        }
      }
      if r in Members(t') {
        var j :| 0 <= j < |t'.rows| && t'.rows[j].1 == r;
        assert t'.rows[j] == t.rows[if j < lo then j else j + (hi - lo)];
      }
    }
  }

  lemma InStepAlmost(t: Tbl, r: Id)
    requires InStep(t)
    ensures Almost(t, Members(t), r, {})
  {
    hide Almost;
    AnyRow(t, Members(t), 0, r);
  }

  lemma AlmostShape(t: Tbl, own: set<Id>, x: Id, open: set<nat>)
    requires Almost(t, own, x, open)
    ensures t.schema.Valid() && |t.indices| == |t.schema.indexCols| && Keyed(t.rows, |t.schema.keyCols|)
    ensures forall i :: 0 <= i < |t.indices| ==> Keyed(t.indices[i], |t.schema.indexCols[i]|)
  {
  }

  lemma OpenSlot(t: Tbl, own: set<Id>, x: Id, open: set<nat>)
    requires Almost(t, own, x, open) && x in own
    ensures x in t.hidden && t.hidden[x] in t.masters && |t.masters[t.hidden[x]].slots| == |t.indices|
    ensures t.masters[t.hidden[x]].base == x
  {
    assert MasterOk(t, own, x, open);
  }

  lemma BeforeBaseInsert(t: Tbl, before: set<Id>, r: Id)
    requires Members(t) == before && r !in before
    ensures NotIn(t, r)
  {
    forall k ensures !Has(t.rows, k, r) {
      if Has(t.rows, k, r) { HasIsMember(t, k, r); }
    }
  }

  lemma HasIsMember(t: Tbl, k: MultiKey, r: Id)
    requires Has(t.rows, k, r)
    ensures r in Members(t)
  {
  }

  lemma SlotFilled(t: Tbl, own: set<Id>, r: Id, open: set<nat>, i: nat)
    requires Shape(t, own) && r in own && MasterOk(t, own, r, open) && i < |t.indices| && i !in open
    ensures r in t.hidden && t.hidden[r] in t.masters && i < |t.masters[t.hidden[r]].slots|
    ensures t.masters[t.hidden[r]].slots[i].Some?
    ensures var e := t.masters[t.hidden[r]].slots[i].value;
            e in t.idxRows && Ok(t.indices[i], |t.idxRows[e].key|) && Has(t.indices[i], t.idxRows[e].key, e)
  {
  }
}
