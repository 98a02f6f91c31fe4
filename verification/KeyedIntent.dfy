/** Full replacement of one keyed intent collection (`_sync_keyed_intent`, and the VLAN body). */
module KeyedIntent {
  import opened Options

  datatype Row<+F> = Row(fields: F, acceptedAt: int)

  datatype Entry<+K, +F> = Entry(key: K, fields: F, acceptedAt: Option<int>)

  /** An entry without a timestamp stamps its row anew, or leaves the timestamp of a row that exists. */
  datatype Acceptance = Restamp | Keep

  function Stamped<K, F>(rule: Acceptance, row: Option<Row<F>>, e: Entry<K, F>, now: int): Row<F> {
    Row(e.fields,
        match e.acceptedAt
        case Some(at) => at
        case None => if rule.Keep? && row.Some? then row.value.acceptedAt else now)
  }

  function Lookup<K(==), F>(rows: map<K, Row<F>>, k: K): Option<Row<F>> {
    if k in rows then Some(rows[k]) else None
  }

  function Keys<K(==), F>(entries: seq<Entry<K, F>>): set<K> {
    set i | 0 <= i < |entries| :: entries[i].key
  }

  /** The rows the deletion loop leaves. */
  function Kept<K(==), F>(rows: map<K, Row<F>>, entries: seq<Entry<K, F>>): map<K, Row<F>> {
    map k | k in rows && k in Keys(entries) :: rows[k]
  }

  function Upserted<K(==), F>(rows: map<K, Row<F>>, entries: seq<Entry<K, F>>, rule: Acceptance, now: int)
    : map<K, Row<F>>
    decreases |entries|
  {
    if entries == [] then rows
    else
      var before := Upserted(rows, entries[..|entries| - 1], rule, now);
      var e := entries[|entries| - 1];
      before[e.key := Stamped(rule, Lookup(before, e.key), e, now)]
  }

  /** Two entries insert the same new key, which the unique constraint refuses. */
  ghost predicate Violates<K, F>(rows: map<K, Row<F>>, entries: seq<Entry<K, F>>) {
    exists i, j :: 0 <= i < j < |entries| && entries[i].key == entries[j].key && entries[i].key !in rows
  }

  ghost predicate Unique<K, F>(entries: seq<Entry<K, F>>) {
    forall i, j :: 0 <= i < j < |entries| ==> entries[i].key != entries[j].key
  }

  /** Some entry of a row that existed before cleared it, compared with what the entry found. */
  ghost predicate ClearedAt<K, F>(rows: map<K, Row<F>>, entries: seq<Entry<K, F>>, rule: Acceptance, now: int,
                                  clears: (F, F) -> bool, i: nat)
    requires i < |entries|
  {
    var before := Upserted(Kept(rows, entries), entries[..i], rule, now);
    entries[i].key in rows && entries[i].key in before && clears(before[entries[i].key].fields, entries[i].fields)
  }

  ghost predicate Cleared<K, F>(rows: map<K, Row<F>>, entries: seq<Entry<K, F>>, rule: Acceptance, now: int,
                                clears: (F, F) -> bool)
  {
    exists i :: 0 <= i < |entries| && ClearedAt(rows, entries, rule, now, clears, i)
  }

  ghost predicate Deleted<K, F>(rows: map<K, Row<F>>, entries: seq<Entry<K, F>>) {
    exists k :: k in rows && k !in Keys(entries)
  }

  /** One stored collection of a device. */
  class Collection<K(==,!new), F> {
    var rows: map<K, Row<F>>

    constructor ()
      ensures rows == map[]
    {
      rows := map[];
    }

    /** Replace the collection; a refused insert leaves it to the caller to roll back. */
    method Sync(entries: seq<Entry<K, F>>, rule: Acceptance, now: int, clears: (F, F) -> bool)
      returns (refused: bool, removed: set<K>, cleared: bool)
      modifies this
      ensures refused <==> Violates(old(rows), entries)
      ensures !refused ==> rows == Upserted(Kept(old(rows), entries), entries, rule, now)
      ensures removed == old(rows).Keys - Keys(entries)
      ensures !refused ==> (cleared <==> Cleared(old(rows), entries, rule, now, clears))
    {
      var existing := rows;
      var incoming := Keys(entries);
      removed := existing.Keys - incoming;
      rows := Kept(existing, entries);
      refused, cleared := false, false;
      var added: set<K> := {};
      UpsertStart(existing, entries, rule, now);
      for i := 0 to |entries|
        invariant rows == Upserted(Kept(existing, entries), entries[..i], rule, now)
        invariant added == Keys(entries[..i]) - existing.Keys
        invariant refused <==> Violates(existing, entries[..i])
        invariant cleared <==> exists j :: 0 <= j < i && ClearedAt(existing, entries, rule, now, clears, j)
      {
        hide Keys, Kept, Upserted, Violates, ClearedAt, Stamped, Lookup;
        var e := entries[i];
        KeysSnoc(entries, i);
        ViolatesSnoc(existing, entries, i);
        UpsertStep(existing, entries, rule, now, clears, i);
        if e.key in existing {
          if clears(rows[e.key].fields, e.fields) {
            cleared := true;
          }
        } else if e.key in added {
          refused := true;
        } else {
          added := added + {e.key};
        }
        rows := rows[e.key := Stamped(rule, Lookup(rows, e.key), e, now)];
      }
      assert entries[..|entries|] == entries;
    }
  }

  lemma UpsertStart<K, F>(rows: map<K, Row<F>>, entries: seq<Entry<K, F>>, rule: Acceptance, now: int)
    ensures Kept(rows, entries) == Upserted(Kept(rows, entries), entries[..0], rule, now)
    ensures Keys(entries[..0]) == {} && !Violates(rows, entries[..0])
  {
  }

  lemma UpsertStep<K, F>(rows: map<K, Row<F>>, entries: seq<Entry<K, F>>, rule: Acceptance, now: int,
                         clears: (F, F) -> bool, i: nat)
    requires i < |entries|
    ensures var e, before := entries[i], Upserted(Kept(rows, entries), entries[..i], rule, now);
      && (e.key in rows ==> e.key in before)
      && (ClearedAt(rows, entries, rule, now, clears, i) <==>
            e.key in rows && clears(before[e.key].fields, e.fields))
      && Upserted(Kept(rows, entries), entries[..i + 1], rule, now)
         == before[e.key := Stamped(rule, Lookup(before, e.key), e, now)]
  {
    UpsertedKeys(Kept(rows, entries), entries[..i], rule, now);
    KeysSnoc(entries, i);
    assert entries[..i + 1][..i] == entries[..i];
  }

  lemma KeysSnoc<K, F>(entries: seq<Entry<K, F>>, i: nat)
    requires i < |entries|
    ensures Keys(entries[..i + 1]) == Keys(entries[..i]) + {entries[i].key}
    ensures entries[i].key in Keys(entries)
  {
    forall k | k in Keys(entries[..i + 1]) ensures k in Keys(entries[..i]) + {entries[i].key} {
      var j :| 0 <= j <= i && entries[..i + 1][j].key == k;
      assert j < i ==> entries[..i][j].key == k;
    }
    forall k | k in Keys(entries[..i]) ensures k in Keys(entries[..i + 1]) {
      var j :| 0 <= j < i && entries[..i][j].key == k;
      assert entries[..i + 1][j].key == k;
    }
    assert entries[..i + 1][i].key == entries[i].key;
  }

  lemma ViolatesSnoc<K, F>(rows: map<K, Row<F>>, entries: seq<Entry<K, F>>, i: nat)
    requires i < |entries|
    ensures Violates(rows, entries[..i + 1]) <==>
      Violates(rows, entries[..i]) || (entries[i].key in Keys(entries[..i]) && entries[i].key !in rows)
  {
    var short, long := entries[..i], entries[..i + 1];
    if Violates(rows, short) {
      var j, k :| 0 <= j < k < |short| && short[j].key == short[k].key && short[j].key !in rows;
      assert long[j].key == long[k].key;
    }
    if entries[i].key in Keys(short) && entries[i].key !in rows {
      var j :| 0 <= j < |short| && short[j].key == entries[i].key;
      assert long[j].key == long[i].key;
    }
    if Violates(rows, long) {
      var j, k :| 0 <= j < k < |long| && long[j].key == long[k].key && long[j].key !in rows;
      assert short[j].key in Keys(short);
      assert k < i ==> short[j].key == short[k].key;
    }
  }

  // ---- what the new collection is ----

  /** Entry i is the last one for its key. */
  ghost predicate Last<K, F>(entries: seq<Entry<K, F>>, i: nat) {
    i < |entries| && forall j :: i < j < |entries| ==> entries[j].key != entries[i].key
  }

  lemma {:induction false} UpsertedKeys<K, F>(rows: map<K, Row<F>>, entries: seq<Entry<K, F>>, rule: Acceptance, now: int)
    ensures Upserted(rows, entries, rule, now).Keys == rows.Keys + Keys(entries)
    ensures forall k :: k in rows && k !in Keys(entries) ==> Upserted(rows, entries, rule, now)[k] == rows[k]
    decreases |entries|
  {
    if entries != [] {
      var n := |entries| - 1;
      UpsertedKeys(rows, entries[..n], rule, now);
      KeysSnoc(entries, n);
      assert entries[..n + 1] == entries;
    }
  }

  /** The collection shows exactly the payload: its keys, each with the fields of its last entry. */
  lemma {:induction false} UpsertedShows<K, F>(rows: map<K, Row<F>>, entries: seq<Entry<K, F>>, rule: Acceptance,
                                               now: int, i: nat)
    requires Last(entries, i)
    ensures Upserted(Kept(rows, entries), entries, rule, now).Keys == Keys(entries)
    ensures Upserted(Kept(rows, entries), entries, rule, now)[entries[i].key].fields == entries[i].fields
  {
    KeysSnoc(entries, i);
    UpsertedKeys(Kept(rows, entries), entries, rule, now);
    UpsertedLast(Kept(rows, entries), entries, rule, now, i);
  }

  lemma {:induction false} UpsertedLast<K, F>(rows: map<K, Row<F>>, entries: seq<Entry<K, F>>, rule: Acceptance,
                                              now: int, i: nat)
    requires Last(entries, i)
    ensures Lookup(Upserted(rows, entries, rule, now), entries[i].key).Some?
    ensures var row := Lookup(Upserted(rows, entries, rule, now), entries[i].key).value;
      row.fields == entries[i].fields && (rule.Restamp? ==> row == Stamped(rule, None, entries[i], now))
    decreases |entries|
  {
    var n := |entries| - 1;
    if i < n {
      assert entries[..n][i] == entries[i];
      UpsertedLast(rows, entries[..n], rule, now, i);
    }
  }

  /** The timestamps, for entries with distinct keys. */
  lemma {:induction false} UpsertedUnique<K, F>(rows: map<K, Row<F>>, entries: seq<Entry<K, F>>, rule: Acceptance,
                                                now: int, i: nat)
    requires Unique(entries) && i < |entries|
    ensures entries[i].key in Upserted(rows, entries, rule, now)
    ensures Upserted(rows, entries, rule, now)[entries[i].key]
         == Stamped(rule, Lookup(rows, entries[i].key), entries[i], now)
    decreases |entries|
  {
    var n := |entries| - 1;
    var short := entries[..n];
    UpsertedKeys(rows, short, rule, now);
    if i < n {
      UpsertedUnique(rows, short, rule, now, i);
      assert short[i] == entries[i];
    } else {
      assert entries[n].key !in Keys(short);
    }
  }

  // ---- which shrinks are reported ----

  /** With distinct keys an entry meets the row as it was stored. */
  lemma ClearedUnique<K(!new), F>(rows: map<K, Row<F>>, entries: seq<Entry<K, F>>, rule: Acceptance, now: int,
                                  clears: (F, F) -> bool)
    requires Unique(entries)
    ensures Cleared(rows, entries, rule, now, clears) <==>
      exists i :: 0 <= i < |entries| && entries[i].key in rows
                  && clears(rows[entries[i].key].fields, entries[i].fields)
  {
    forall i | 0 <= i < |entries|
      ensures ClearedAt(rows, entries, rule, now, clears, i) <==>
        entries[i].key in rows && clears(rows[entries[i].key].fields, entries[i].fields)
    {
      UpsertedKeys(Kept(rows, entries), entries[..i], rule, now);
      KeysSnoc(entries, i);
      assert entries[i].key !in Keys(entries[..i]);
    }
  }

  lemma DeletedIff<K(!new), F>(rows: map<K, Row<F>>, entries: seq<Entry<K, F>>)
    ensures rows.Keys - Keys(entries) != {} <==> Deleted(rows, entries)
  {
    var removed := rows.Keys - Keys(entries);
    if !Deleted(rows, entries) {
      forall k ensures k !in removed {
      }
      assert removed == {};
    } else {
      var k :| k in rows && k !in Keys(entries);
      assert k in removed;
    }
  }

  /** The replacement of a collection that is read, changed and written back as a whole. */
  method Replace<K(==,!new), F>(rows: map<K, Row<F>>, entries: seq<Entry<K, F>>, rule: Acceptance, now: int, clears: (F, F) -> bool)
    returns (refused: bool, replaced: map<K, Row<F>>, removed: set<K>, cleared: bool)
    ensures refused <==> Violates(rows, entries)
    ensures !refused ==> replaced == Upserted(Kept(rows, entries), entries, rule, now)
    ensures removed == rows.Keys - Keys(entries) && (removed != {} <==> Deleted(rows, entries))
    ensures !refused ==> (cleared <==> Cleared(rows, entries, rule, now, clears))
  {
    hide Violates, Upserted, Kept, Keys, Deleted, Cleared;
    var collection := new Collection<K, F>();
    collection.rows := rows;
    refused, removed, cleared := collection.Sync(entries, rule, now, clears);
    replaced := collection.rows;
    DeletedIff(rows, entries);
  }
}
