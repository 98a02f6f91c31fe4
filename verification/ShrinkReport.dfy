/** A replacement must report exactly the shrinks that a merge-PATCH of the new snapshot cannot carry out. */
module ShrinkReport {
  import opened Options
  import opened KeyedIntent
  import opened MergePatch

  /** The document the writer builds from a stored collection, one entry per row. */
  function Snapshot<K(==), F, L, V>(rows: map<K, Row<F>>, emit: F -> map<L, V>): Document<K, L, V> {
    map k | k in rows :: emit(rows[k].fields)
  }

  function Synced<K(==), F>(rows: map<K, Row<F>>, entries: seq<Entry<K, F>>, rule: Acceptance, now: int): map<K, Row<F>> {
    Upserted(Kept(rows, entries), entries, rule, now)
  }

  /** The report is faithful on every row that an entry meets. */
  ghost predicate ExactOn<K, F, L(!new), V>(rows: map<K, Row<F>>, entries: seq<Entry<K, F>>,
                                            emit: F -> map<L, V>, clears: (F, F) -> bool)
  {
    forall i :: 0 <= i < |entries| && entries[i].key in rows ==>
      var before, after := rows[entries[i].key].fields, entries[i].fields;
      clears(before, after) <==> LeafDropped(emit(before), emit(after))
  }

  /** The report misses no dropped leaf of any row. */
  ghost predicate Complete<F(!new), L(!new), V>(emit: F -> map<L, V>, clears: (F, F) -> bool) {
    forall before, after :: LeafDropped(emit(before), emit(after)) ==> clears(before, after)
  }

  /** The new snapshot shows each entry as it is written. */
  lemma SnapshotShows<K(!new), F, L, V>(rows: map<K, Row<F>>, entries: seq<Entry<K, F>>, rule: Acceptance, now: int,
                                        emit: F -> map<L, V>)
    requires Unique(entries)
    ensures var after := Snapshot(Synced(rows, entries, rule, now), emit);
      && after.Keys == Keys(entries)
      && forall i :: 0 <= i < |entries| ==> entries[i].key in after && after[entries[i].key] == emit(entries[i].fields)
  {
    UpsertedKeys(Kept(rows, entries), entries, rule, now);
    assert Synced(rows, entries, rule, now).Keys == Keys(entries);
    forall i | 0 <= i < |entries|
      ensures entries[i].key in Synced(rows, entries, rule, now)
      ensures Synced(rows, entries, rule, now)[entries[i].key].fields == entries[i].fields
    {
      UpsertedUnique(Kept(rows, entries), entries, rule, now, i);
    }
    hide Synced, Keys;
  }

  /** An entry drops a leaf of the row it replaces. */
  ghost predicate EntryDrops<K, F, L(!new), V>(rows: map<K, Row<F>>, entries: seq<Entry<K, F>>, emit: F -> map<L, V>, i: nat)
    requires i < |entries|
  {
    entries[i].key in rows && LeafDropped(emit(rows[entries[i].key].fields), emit(entries[i].fields))
  }

  /** What the new snapshot drops is a deleted row, or a leaf dropped by an entry. */
  lemma DropsIff<K(!new), F, L(!new), V>(rows: map<K, Row<F>>, entries: seq<Entry<K, F>>, rule: Acceptance, now: int,
                                         emit: F -> map<L, V>)
    requires Unique(entries)
    ensures Drops(Snapshot(rows, emit), Snapshot(Synced(rows, entries, rule, now), emit)) <==>
      Deleted(rows, entries) || exists i: nat :: i < |entries| && EntryDrops(rows, entries, emit, i)
  {
    var prior, after := Snapshot(rows, emit), Snapshot(Synced(rows, entries, rule, now), emit);
    SnapshotShows(rows, entries, rule, now, emit);
    assert prior.Keys == rows.Keys && forall k :: k in rows ==> prior[k] == emit(rows[k].fields);
    hide Snapshot, Synced;
    if Drops(prior, after) {
      var k :| k in prior && (k !in after || exists l :: l in prior[k] && l !in after[k]);
      if k in after {
        var i: nat :| i < |entries| && entries[i].key == k;
        assert EntryDrops(rows, entries, emit, i);
      }
    }
    hide Keys;
    forall i: nat | i < |entries| && EntryDrops(rows, entries, emit, i) ensures Drops(prior, after) {
      var l :| l in prior[entries[i].key] && l !in after[entries[i].key];
    }
  }

  /** For distinct keys: a row was deleted or cleared exactly when merging the new snapshot would leave residue. */
  lemma ShrinkIff<K(!new), F, L(!new), V>(rows: map<K, Row<F>>, entries: seq<Entry<K, F>>, rule: Acceptance, now: int,
                                          emit: F -> map<L, V>, clears: (F, F) -> bool)
    requires Unique(entries) && ExactOn(rows, entries, emit, clears)
    ensures var after := Snapshot(Synced(rows, entries, rule, now), emit);
      (Deleted(rows, entries) || Cleared(rows, entries, rule, now, clears))
      <==> Merge(Snapshot(rows, emit), after) != after
  {
    MergeDiffersIff(Snapshot(rows, emit), Snapshot(Synced(rows, entries, rule, now), emit));
    ClearedUnique(rows, entries, rule, now, clears);
    DropsIff(rows, entries, rule, now, emit);
    hide Snapshot, Synced, Merge, Cleared, Deleted, Drops, LeafDropped;
    forall i: nat | i < |entries|
      ensures EntryDrops(rows, entries, emit, i) <==>
        entries[i].key in rows && clears(rows[entries[i].key].fields, entries[i].fields)
    {
    }
  }

  /** A leaf of a stored row survives the first i entries, or one of them reported a clear. */
  lemma {:induction false} LeafSurvives<K, F(!new), L(!new), V>(rows: map<K, Row<F>>, entries: seq<Entry<K, F>>,
      rule: Acceptance, now: int, emit: F -> map<L, V>, clears: (F, F) -> bool, k: K, l: L, i: nat)
    requires k in rows && k in Keys(entries) && l in emit(rows[k].fields) && i <= |entries|
    requires forall j :: 0 <= j < i ==> !ClearedAt(rows, entries, rule, now, clears, j)
    requires Complete(emit, clears)
    ensures var upserted := Upserted(Kept(rows, entries), entries[..i], rule, now);
      k in upserted && l in emit(upserted[k].fields)
  {
    if i > 0 {
      LeafSurvives(rows, entries, rule, now, emit, clears, k, l, i - 1);
      UpsertStep(rows, entries, rule, now, clears, i - 1);
      var found := Upserted(Kept(rows, entries), entries[..i - 1], rule, now)[k].fields;
      if entries[i - 1].key == k {
        assert !ClearedAt(rows, entries, rule, now, clears, i - 1);
        assert !LeafDropped(emit(found), emit(entries[i - 1].fields));
      }
    }
  }

  /** Entry i drops a leaf of the row it finds, which may be what an earlier entry of its key left. */
  ghost predicate DropsFound<K, F, L(!new), V>(rows: map<K, Row<F>>, entries: seq<Entry<K, F>>, rule: Acceptance, now: int,
                                               emit: F -> map<L, V>, i: nat)
    requires i < |entries|
  {
    var found := Upserted(Kept(rows, entries), entries[..i], rule, now);
    entries[i].key in rows && entries[i].key in found
    && LeafDropped(emit(found[entries[i].key].fields), emit(entries[i].fields))
  }

  lemma {:induction false} LeafKept<K, F, L(!new), V>(rows: map<K, Row<F>>, entries: seq<Entry<K, F>>,
      rule: Acceptance, now: int, emit: F -> map<L, V>, k: K, l: L, i: nat)
    requires k in rows && k in Keys(entries) && l in emit(rows[k].fields) && i <= |entries|
    requires forall j :: 0 <= j < i ==> !DropsFound(rows, entries, rule, now, emit, j)
    ensures var upserted := Upserted(Kept(rows, entries), entries[..i], rule, now);
      k in upserted && l in emit(upserted[k].fields)
  {
    if i > 0 {
      LeafKept(rows, entries, rule, now, emit, k, l, i - 1);
      UpsertStep(rows, entries, rule, now, (b, a) => false, i - 1);
      if entries[i - 1].key == k {
        assert !DropsFound(rows, entries, rule, now, emit, i - 1);
      }
    }
  }

  /** Residue comes from a deleted row or from an entry that drops a leaf of what it finds, repeated keys or not. */
  lemma ResidueHasCause<K(!new), F, L(!new), V>(rows: map<K, Row<F>>, entries: seq<Entry<K, F>>, rule: Acceptance,
                                                now: int, emit: F -> map<L, V>)
    ensures var after := Snapshot(Synced(rows, entries, rule, now), emit);
      Merge(Snapshot(rows, emit), after) != after ==>
        Deleted(rows, entries) || exists i: nat :: i < |entries| && DropsFound(rows, entries, rule, now, emit, i)
  {
    var prior, synced := Snapshot(rows, emit), Synced(rows, entries, rule, now);
    var after := Snapshot(synced, emit);
    MergeDiffersIff(prior, after);
    UpsertedKeys(Kept(rows, entries), entries, rule, now);
    assert entries[..|entries|] == entries;
    if Drops(prior, after) && !Deleted(rows, entries)
       && forall i: nat :: i < |entries| ==> !DropsFound(rows, entries, rule, now, emit, i) {
      var k :| k in prior && (k !in after || exists l :: l in prior[k] && l !in after[k]);
      var l :| l in prior[k] && l !in after[k];
      LeafKept(rows, entries, rule, now, emit, k, l, |entries|);
      assert false;
    }
  }

  /** With repeated keys too, no residue goes unreported. */
  lemma NothingMissed<K(!new), F(!new), L(!new), V>(rows: map<K, Row<F>>, entries: seq<Entry<K, F>>, rule: Acceptance,
                                              now: int, emit: F -> map<L, V>, clears: (F, F) -> bool)
    requires Complete(emit, clears)
    ensures var after := Snapshot(Synced(rows, entries, rule, now), emit);
      Merge(Snapshot(rows, emit), after) != after ==>
        Deleted(rows, entries) || Cleared(rows, entries, rule, now, clears)
  {
    var prior, synced := Snapshot(rows, emit), Synced(rows, entries, rule, now);
    var after := Snapshot(synced, emit);
    MergeDiffersIff(prior, after);
    UpsertedKeys(Kept(rows, entries), entries, rule, now);
    assert entries[..|entries|] == entries;
    if Drops(prior, after) && !Deleted(rows, entries) && !Cleared(rows, entries, rule, now, clears) {
      var k :| k in prior && (k !in after || exists l :: l in prior[k] && l !in after[k]);
      var l :| l in prior[k] && l !in after[k];
      LeafSurvives(rows, entries, rule, now, emit, clears, k, l, |entries|);
      assert false;
    }
  }
}
