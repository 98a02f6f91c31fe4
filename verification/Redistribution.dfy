/** Full replacement of the redistribution rows of one destination protocol (`_sync_*redistribution`). */
module Redistribution {
  import opened Options
  import opened Removal

  datatype Protocol = Bgp | Isis | Ospf

  /** How a statement is written; equivalent AS notations spell one source in several ways. */
  datatype Spelling = Spelling(destRef: string, sourceProtocol: string, sourceRef: string)

  datatype Values = Values(routeMap: Option<string>, metric: Option<int>, metricType: Option<string>)

  datatype Row = Row(protocol: Protocol, spelling: Spelling, values: Values, acceptedAt: int)

  datatype Entry = Entry(spelling: Spelling, values: Values)

  datatype Store = Store(rows: map<nat, Row>, next: nat)

  ghost predicate Valid(s: Store) {
    forall id :: id in s.rows ==> id < s.next
  }

  /** The identities compare source protocols as they are, and destinations too unless they are AS numbers. */
  ghost predicate Exact<K>(p: Protocol, key: Spelling -> K) {
    forall a, b :: key(a) == key(b) ==> a.sourceProtocol == b.sourceProtocol && (!p.Bgp? ==> a.destRef == b.destRef)
  }

  /** The query for the stored rows of a protocol returns each once, in any order. */
  ghost predicate Selects(s: Store, p: Protocol, existing: seq<nat>) {
    && (forall i, j :: 0 <= i < j < |existing| ==> existing[i] != existing[j])
    && (forall id :: id in existing <==> id in s.rows && s.rows[id].protocol == p)
  }

  // ---- which rows are retained ----

  function Incoming<K>(entries: seq<Entry>, key: Spelling -> K): set<K> {
    set i | 0 <= i < |entries| :: key(entries[i].spelling)
  }

  ghost predicate Stored(s: Store, existing: seq<nat>) {
    forall i :: 0 <= i < |existing| ==> existing[i] in s.rows
  }

  function KeyAt<K>(s: Store, existing: seq<nat>, key: Spelling -> K, i: nat): K
    requires i < |existing| && existing[i] in s.rows
  {
    key(s.rows[existing[i]].spelling)
  }

  /** The row is the first of the stored ones with its identity, and the identity comes in. */
  ghost predicate Retained<K>(s: Store, existing: seq<nat>, incoming: set<K>, key: Spelling -> K, i: nat)
    requires i < |existing| && Stored(s, existing)
  {
    && KeyAt(s, existing, key, i) in incoming
    && forall j :: 0 <= j < i ==> KeyAt(s, existing, key, j) != KeyAt(s, existing, key, i)
  }

  /** The spellings of the rows that are not retained, in the order of the query. */
  ghost function Removed<K>(s: Store, existing: seq<nat>, incoming: set<K>, key: Spelling -> K, n: nat): seq<Spelling>
    requires n <= |existing| && Stored(s, existing)
  {
    if n == 0 then []
    else
      Removed(s, existing, incoming, key, n - 1)
      + (if Retained(s, existing, incoming, key, n - 1) then [] else [s.rows[existing[n - 1]].spelling])
  }

  /** `existing_map` after the first n rows. */
  ghost function Matched<K>(s: Store, existing: seq<nat>, incoming: set<K>, key: Spelling -> K, n: nat): map<K, nat>
    requires n <= |existing| && Stored(s, existing)
  {
    if n == 0 then map[]
    else
      var before := Matched(s, existing, incoming, key, n - 1);
      if Retained(s, existing, incoming, key, n - 1) then before[KeyAt(s, existing, key, n - 1) := existing[n - 1]]
      else before
  }

  /** The store without the rows deleted among the first n. */
  ghost function Pruned<K>(s: Store, existing: seq<nat>, incoming: set<K>, key: Spelling -> K, n: nat): Store
    requires n <= |existing| && Stored(s, existing)
  {
    if n == 0 then s
    else
      var before := Pruned(s, existing, incoming, key, n - 1);
      if Retained(s, existing, incoming, key, n - 1) then before else before.(rows := before.rows - {existing[n - 1]})
  }

  /** An identity is matched once a row with it has been seen, and to the first such row. */
  lemma {:induction false} MatchedFirst<K>(s: Store, existing: seq<nat>, incoming: set<K>, key: Spelling -> K, n: nat, k: K)
    requires n <= |existing| && Stored(s, existing)
    ensures k in Matched(s, existing, incoming, key, n) <==>
      k in incoming && exists j :: 0 <= j < n && KeyAt(s, existing, key, j) == k
    ensures k in Matched(s, existing, incoming, key, n) ==>
      exists j :: 0 <= j < n && Retained(s, existing, incoming, key, j) && KeyAt(s, existing, key, j) == k
                  && Matched(s, existing, incoming, key, n)[k] == existing[j]
  {
    if n > 0 {
      MatchedFirst(s, existing, incoming, key, n - 1, k);
    }
  }

  lemma {:induction false} PrunedRows<K>(s: Store, existing: seq<nat>, incoming: set<K>, key: Spelling -> K, n: nat, id: nat)
    requires n <= |existing| && Stored(s, existing)
    requires forall i, j :: 0 <= i < j < |existing| ==> existing[i] != existing[j]
    ensures var pruned := Pruned(s, existing, incoming, key, n);
      && pruned.next == s.next
      && (id in pruned.rows ==> id in s.rows && pruned.rows[id] == s.rows[id])
      && (id in pruned.rows <==>
            id in s.rows && forall i :: 0 <= i < n && existing[i] == id ==> Retained(s, existing, incoming, key, i))
  {
    if n > 0 {
      PrunedRows(s, existing, incoming, key, n - 1, id);
    }
  }

  // ---- what an entry writes ----

  /** BGP writes the destination as it is now spelled and leaves the metric type alone. */
  function Written(p: Protocol, found: Option<Row>, e: Entry, at: int): Row {
    match found
    case None => Row(p, e.spelling, if p.Bgp? then e.values.(metricType := None) else e.values, at)
    case Some(r) =>
      Row(r.protocol,
          Spelling(if p.Bgp? then e.spelling.destRef else r.spelling.destRef, r.spelling.sourceProtocol, e.spelling.sourceRef),
          if p.Bgp? then e.values.(metricType := r.values.metricType) else e.values, at)
  }

  predicate ClearsRow(p: Protocol, r: Row, e: Entry) {
    if p.Bgp? then
      || IsCleared(OfText(r.values.routeMap), OfText(e.values.routeMap), None)
      || IsCleared(OfNumber(r.values.metric), OfNumber(e.values.metric), None)
    else
      || (r.values.routeMap.Some? && e.values.routeMap.None?)
      || (r.values.metric.Some? && e.values.metric.None?)
      || (r.values.metricType.Some? && e.values.metricType.None?)
  }

  /** What the second loop works from: the rows found by identity, the entries and the parents' timestamps. */
  datatype Plan<!K> = Plan(protocol: Protocol, matched: map<K, nat>, entries: seq<Entry>, accepted: map<string, int>,
                           key: Spelling -> K)
  {
    function Key(i: nat): K
      requires i < |entries|
    {
      key(entries[i].spelling)
    }

    predicate Dated(i: nat)
      requires i < |entries|
    {
      entries[i].spelling.destRef in accepted
    }

    function At(i: nat): int
      requires i < |entries| && Dated(i)
    {
      accepted[entries[i].spelling.destRef]
    }
  }

  ghost predicate Ready<K>(s: Store, plan: Plan<K>, n: nat) {
    && n <= |plan.entries|
    && (forall k :: k in plan.matched ==> plan.matched[k] in s.rows)
    && (forall i :: 0 <= i < n ==> plan.Dated(i))
  }

  /** The store after the first n entries; a row inserted here is not found again. */
  ghost function Applied<K>(s: Store, plan: Plan<K>, n: nat): (r: Store)
    requires Ready(s, plan, n)
    ensures s.next <= r.next && forall id :: id in s.rows ==> id in r.rows
  {
    if n == 0 then s
    else
      var before, e, k := Applied(s, plan, n - 1), plan.entries[n - 1], plan.Key(n - 1);
      if k in plan.matched then
        var id := plan.matched[k];
        before.(rows := before.rows[id := Written(plan.protocol, Some(before.rows[id]), e, plan.At(n - 1))])
      else
        Store(before.rows[before.next := Written(plan.protocol, None, e, plan.At(n - 1))], before.next + 1)
  }

  lemma AppliedStep<K>(s: Store, plan: Plan<K>, i: nat)
    requires i < |plan.entries| && Ready(s, plan, i + 1)
    ensures Ready(s, plan, i)
    ensures var before, e, k := Applied(s, plan, i), plan.entries[i], plan.Key(i);
      Applied(s, plan, i + 1) ==
        if k in plan.matched then
          var id := plan.matched[k];
          before.(rows := before.rows[id := Written(plan.protocol, Some(before.rows[id]), e, plan.At(i))])
        else
          Store(before.rows[before.next := Written(plan.protocol, None, e, plan.At(i))], before.next + 1)
  {
  }

  /** Entry n finds a row and clears one of its values. */
  ghost predicate ClearedAt<K>(s: Store, plan: Plan<K>, n: nat)
    requires n < |plan.entries| && Ready(s, plan, n)
  {
    var k := plan.Key(n);
    k in plan.matched && ClearsRow(plan.protocol, Applied(s, plan, n).rows[plan.matched[k]], plan.entries[n])
  }

  ghost predicate AnyCleared<K>(s: Store, plan: Plan<K>, n: nat)
    requires Ready(s, plan, n)
  {
    n > 0 && (AnyCleared(s, plan, n - 1) || ClearedAt(s, plan, n - 1))
  }

  lemma ClearedStep<K>(s: Store, plan: Plan<K>, i: nat, before: map<nat, Row>)
    requires i < |plan.entries| && Ready(s, plan, i) && Ready(s, plan, i + 1) && before == Applied(s, plan, i).rows
    ensures plan.Key(i) in plan.matched ==> plan.matched[plan.Key(i)] in before
    ensures AnyCleared(s, plan, i + 1) <==>
      || AnyCleared(s, plan, i)
      || (plan.Key(i) in plan.matched && ClearsRow(plan.protocol, before[plan.matched[plan.Key(i)]], plan.entries[i]))
  {
  }

  // ---- the table ----

  class Table {
    var rows: map<nat, Row>
    var next: nat

    ghost function View(): Store
      reads this
    {
      Store(rows, next)
    }

    constructor ()
      ensures View() == Store(map[], 0)
    {
      rows, next := map[], 0;
    }

    /** The first loop: keep the first row of each incoming identity, delete the others. */
    method Prune<K(==)>(existing: seq<nat>, incoming: set<K>, key: Spelling -> K)
      returns (matched: map<K, nat>, removed: seq<Spelling>)
      requires Stored(View(), existing) && forall i, j :: 0 <= i < j < |existing| ==> existing[i] != existing[j]
      modifies this
      ensures matched == Matched(old(View()), existing, incoming, key, |existing|)
      ensures removed == Removed(old(View()), existing, incoming, key, |existing|)
      ensures View() == Pruned(old(View()), existing, incoming, key, |existing|)
    {
      ghost var s := View();
      matched, removed := map[], [];
      for i := 0 to |existing|
        invariant matched == Matched(s, existing, incoming, key, i)
        invariant removed == Removed(s, existing, incoming, key, i)
        invariant View() == Pruned(s, existing, incoming, key, i)
      {
        var id := existing[i];
        PrunedRows(s, existing, incoming, key, i, id);
        var k := key(rows[id].spelling);
        MatchedFirst(s, existing, incoming, key, i, k);
        if k !in incoming || k in matched {
          removed := removed + [rows[id].spelling];
          rows := rows - {id};
        } else {
          matched := matched[k := id];
        }
      }
    }

    /** The second loop: update the row of each entry, or insert one; a parent without a timestamp is a failure. */
    method Upsert<K(==)>(plan: Plan<K>) returns (missing: bool, cleared: bool)
      requires forall k :: k in plan.matched ==> plan.matched[k] in rows
      modifies this
      ensures missing <==> exists i :: 0 <= i < |plan.entries| && !plan.Dated(i)
      ensures !missing ==> View() == Applied(old(View()), plan, |plan.entries|)
      ensures !missing ==> (cleared <==> AnyCleared(old(View()), plan, |plan.entries|))
    {
      ghost var s := View();
      missing, cleared := false, false;
      for i := 0 to |plan.entries|
        invariant Ready(s, plan, i)
        invariant View() == Applied(s, plan, i)
        invariant cleared <==> AnyCleared(s, plan, i)
      {
        var e := plan.entries[i];
        if e.spelling.destRef !in plan.accepted {
          assert !plan.Dated(i);
          return true, cleared;
        }
        var k, at := plan.key(e.spelling), plan.accepted[e.spelling.destRef];
        assert Ready(s, plan, i + 1);
        hide AnyCleared, ClearsRow, Written, Applied, Ready;
        ClearedStep(s, plan, i, rows);
        AppliedStep(s, plan, i);
        if k in plan.matched {
          var row := rows[plan.matched[k]];
          if ClearsRow(plan.protocol, row, e) {
            cleared := true;
          }
          rows := rows[plan.matched[k] := Written(plan.protocol, Some(row), e, at)];
        } else {
          rows, next := rows[next := Written(plan.protocol, None, e, at)], next + 1;
        }
      }
    }

    /** The whole replacement for one destination protocol. */
    method Sync<K(==,!new)>(p: Protocol, existing: seq<nat>, entries: seq<Entry>, accepted: map<string, int>,
                            key: Spelling -> K)
      returns (missing: bool, removed: seq<Spelling>, cleared: bool)
      requires Valid(View()) && Selects(View(), p, existing)
      modifies this
      ensures missing <==> exists i :: 0 <= i < |entries| && entries[i].spelling.destRef !in accepted
      ensures removed == Removed(old(View()), existing, Incoming(entries, key), key, |existing|)
      ensures !missing ==> View() == Synced(old(View()), p, existing, entries, accepted, key)
      ensures !missing ==> (cleared <==> SyncClears(old(View()), p, existing, entries, accepted, key))
      ensures !missing && Exact(p, key) && UniqueKeys(entries, key) ==>
        && Replaced(old(View()), View(), p, existing, entries, accepted, key)
        && (cleared <==> SomeCleared(old(View()), p, existing, entries, key))
    {
      hide Matched, Pruned, Removed, Replaced, Incoming, Exact, UniqueKeys, Valid, Applied, AnyCleared, SomeCleared;
      ghost var s := View();
      SelectsStored(s, p, existing);
      var incoming := Incoming(entries, key);
      var matched;
      matched, removed := Prune(existing, incoming, key);
      var plan := Plan(p, matched, entries, accepted, key);
      MatchedStored(s, p, existing, entries, key);
      assert matched == MatchedAll(s, existing, entries, key) && View() == PrunedAll(s, existing, entries, key);
      missing, cleared := Upsert(plan);
      assert forall i :: 0 <= i < |entries| ==> (plan.Dated(i) <==> entries[i].spelling.destRef in accepted);
      if !missing && Exact(p, key) && UniqueKeys(entries, key) {
        SyncedReplaces(s, p, existing, entries, accepted, key);
        SyncClearsIff(s, p, existing, entries, accepted, key);
      }
    }
  }

  // ---- exactly one row per incoming identity ----

  ghost predicate UniqueKeys<K>(entries: seq<Entry>, key: Spelling -> K) {
    forall i, j :: 0 <= i < j < |entries| ==> key(entries[i].spelling) != key(entries[j].spelling)
  }

  ghost predicate Injective<K(!new)>(matched: map<K, nat>) {
    forall k, l :: k in matched && l in matched && matched[k] == matched[l] ==> k == l
  }

  /** Distinct incoming identities, each matched to a row of its own. */
  ghost predicate Sound<K(!new)>(s: Store, plan: Plan<K>) {
    Valid(s) && Injective(plan.matched) && UniqueKeys(plan.entries, plan.key)
  }

  function Fresh<K>(plan: Plan<K>, n: nat): nat
    requires n <= |plan.entries|
  {
    if n == 0 then 0 else Fresh(plan, n - 1) + (if plan.Key(n - 1) in plan.matched then 0 else 1)
  }

  /** The row that entry m writes. */
  function Slot<K>(s: Store, plan: Plan<K>, m: nat): nat
    requires m < |plan.entries|
  {
    if plan.Key(m) in plan.matched then plan.matched[plan.Key(m)] else s.next + Fresh(plan, m)
  }

  lemma {:induction false} FreshMonotone<K>(plan: Plan<K>, m: nat, n: nat)
    requires m < n <= |plan.entries|
    ensures Fresh(plan, m) <= Fresh(plan, n)
    ensures plan.Key(m) !in plan.matched ==> Fresh(plan, m) < Fresh(plan, n)
    decreases n
  {
    if m < n - 1 {
      FreshMonotone(plan, m, n - 1);
    }
  }

  lemma SlotsApart<K(!new)>(s: Store, plan: Plan<K>, m: nat, n: nat)
    requires Sound(s, plan) && Ready(s, plan, n) && m < n < |plan.entries|
    ensures Slot(s, plan, m) != Slot(s, plan, n)
  {
    FreshMonotone(plan, m, n);
    assert plan.Key(m) != plan.Key(n);
  }

  ghost predicate SlotBefore<K(!new)>(s: Store, plan: Plan<K>, n: nat, id: nat)
    requires n <= |plan.entries|
  {
    exists m :: 0 <= m < n && Slot(s, plan, m) == id
  }

  lemma SlotBeforeSnoc<K(!new)>(s: Store, plan: Plan<K>, n: nat, id: nat)
    requires n < |plan.entries|
    ensures SlotBefore(s, plan, n + 1, id) <==> SlotBefore(s, plan, n, id) || id == Slot(s, plan, n)
  {
    hide Slot;
    if SlotBefore(s, plan, n, id) {
      var m :| 0 <= m < n && Slot(s, plan, m) == id;
      assert 0 <= m < n + 1;
    }
  }

  /** What entry m leaves in its slot. */
  ghost function Final<K>(s: Store, plan: Plan<K>, m: nat): Row
    requires m < |plan.entries| && plan.Dated(m)
  {
    var id := Slot(s, plan, m);
    Written(plan.protocol, if id in s.rows then Some(s.rows[id]) else None, plan.entries[m], plan.At(m))
  }

  ghost predicate WrittenAt<K>(r: Store, s: Store, plan: Plan<K>, m: nat)
    requires m < |plan.entries|
  {
    plan.Dated(m) && Slot(s, plan, m) in r.rows && r.rows[Slot(s, plan, m)] == Final(s, plan, m)
  }

  /** Outside the slots of the first n entries the rows are as before. */
  ghost predicate Framed<K(!new)>(r: Store, s: Store, plan: Plan<K>, n: nat)
    requires n <= |plan.entries|
  {
    && (forall id :: id in r.rows ==> id in s.rows || SlotBefore(s, plan, n, id))
    && (forall id :: id in s.rows ==> id in r.rows && (SlotBefore(s, plan, n, id) || r.rows[id] == s.rows[id]))
  }

  ghost predicate Progress<K(!new)>(r: Store, s: Store, plan: Plan<K>, n: nat)
    requires n <= |plan.entries|
  {
    && r.next == s.next + Fresh(plan, n)
    && (forall m :: 0 <= m < n ==> WrittenAt(r, s, plan, m))
    && Framed(r, s, plan, n)
  }

  /** The next entry writes its own slot, over the row that was there at the start. */
  lemma SlotStep<K(!new)>(s: Store, plan: Plan<K>, n: nat)
    requires Sound(s, plan) && n < |plan.entries| && Ready(s, plan, n + 1)
    requires Ready(s, plan, n) && Progress(Applied(s, plan, n), s, plan, n)
    ensures var before, r := Applied(s, plan, n), Applied(s, plan, n + 1);
      && r.rows == before.rows[Slot(s, plan, n) := Final(s, plan, n)]
      && r.next == s.next + Fresh(plan, n + 1)
      && !SlotBefore(s, plan, n, Slot(s, plan, n))
  {
    SlotUnused(s, plan, n);
    hide WrittenAt, Written, SlotBefore;
    AppliedStep(s, plan, n);
  }

  lemma SlotUnused<K(!new)>(s: Store, plan: Plan<K>, n: nat)
    requires Sound(s, plan) && n < |plan.entries| && Ready(s, plan, n + 1)
    ensures !SlotBefore(s, plan, n, Slot(s, plan, n))
  {
    hide Slot;
    forall m | 0 <= m < n ensures Slot(s, plan, m) != Slot(s, plan, n) {
      SlotsApart(s, plan, m, n);
    }
  }

  lemma FramedStep<K(!new)>(before: Store, r: Store, s: Store, plan: Plan<K>, n: nat)
    requires n < |plan.entries| && plan.Dated(n) && Framed(before, s, plan, n)
    requires r.rows == before.rows[Slot(s, plan, n) := Final(s, plan, n)]
    ensures Framed(r, s, plan, n + 1)
  {
    hide Slot, Final;
    forall id: nat
      ensures SlotBefore(s, plan, n + 1, id) <==> SlotBefore(s, plan, n, id) || id == Slot(s, plan, n)
    {
      SlotBeforeSnoc(s, plan, n, id);
    }
    hide SlotBefore;
  }

  lemma WrittenStep<K(!new)>(before: Store, r: Store, s: Store, plan: Plan<K>, n: nat, m: nat)
    requires n < |plan.entries| && plan.Dated(n) && m <= n
    requires m < n ==> WrittenAt(before, s, plan, m)
    requires r.rows == before.rows[Slot(s, plan, n) := Final(s, plan, n)] && !SlotBefore(s, plan, n, Slot(s, plan, n))
    ensures WrittenAt(r, s, plan, m)
  {
    hide Slot, Final;
  }

  lemma ProgressStart<K(!new)>(s: Store, plan: Plan<K>)
    ensures Progress(s, s, plan, 0)
  {
  }

  lemma ProgressStep<K(!new)>(s: Store, plan: Plan<K>, n: nat)
    requires Sound(s, plan) && n < |plan.entries| && Ready(s, plan, n + 1)
    requires Ready(s, plan, n) && Progress(Applied(s, plan, n), s, plan, n)
    ensures Progress(Applied(s, plan, n + 1), s, plan, n + 1)
  {
    assert plan.Dated(n);
    SlotStep(s, plan, n);
    var before, r := Applied(s, plan, n), Applied(s, plan, n + 1);
    hide Applied, WrittenAt, Framed, SlotBefore, Slot, Final, Sound, Ready, Fresh;
    FramedStep(before, r, s, plan, n);
    forall m | 0 <= m <= n ensures WrittenAt(r, s, plan, m) {
      WrittenStep(before, r, s, plan, n, m);
    }
  }

  lemma {:induction false} AppliedProgress<K(!new)>(s: Store, plan: Plan<K>, n: nat)
    requires Sound(s, plan) && Ready(s, plan, n)
    ensures Progress(Applied(s, plan, n), s, plan, n)
  {
    hide Progress, Sound;
    if n == 0 {
      ProgressStart(s, plan);
    } else {
      assert Ready(s, plan, n - 1);
      hide Applied, Ready;
      AppliedProgress(s, plan, n - 1);
      ProgressStep(s, plan, n - 1);
    }
  }

  // ---- from the two loops to the whole table ----

  ghost function PrunedAll<K>(s: Store, existing: seq<nat>, entries: seq<Entry>, key: Spelling -> K): Store
    requires Stored(s, existing)
  {
    Pruned(s, existing, Incoming(entries, key), key, |existing|)
  }

  ghost function MatchedAll<K>(s: Store, existing: seq<nat>, entries: seq<Entry>, key: Spelling -> K): map<K, nat>
    requires Stored(s, existing)
  {
    Matched(s, existing, Incoming(entries, key), key, |existing|)
  }

  ghost predicate AllDated(entries: seq<Entry>, accepted: map<string, int>) {
    forall i :: 0 <= i < |entries| ==> entries[i].spelling.destRef in accepted
  }

  /** The table after both loops. */
  ghost function Synced<K(!new)>(s: Store, p: Protocol, existing: seq<nat>, entries: seq<Entry>, accepted: map<string, int>,
                                 key: Spelling -> K): Store
    requires Selects(s, p, existing) && AllDated(entries, accepted)
  {
    SelectsStored(s, p, existing);
    MatchedStored(s, p, existing, entries, key);
    var plan := Plan(p, MatchedAll(s, existing, entries, key), entries, accepted, key);
    Applied(PrunedAll(s, existing, entries, key), plan, |entries|)
  }

  /** Some entry clears a value of the row it finds. */
  ghost predicate SyncClears<K(!new)>(s: Store, p: Protocol, existing: seq<nat>, entries: seq<Entry>, accepted: map<string, int>,
                                      key: Spelling -> K)
    requires Selects(s, p, existing) && AllDated(entries, accepted)
  {
    SelectsStored(s, p, existing);
    MatchedStored(s, p, existing, entries, key);
    AnyCleared(PrunedAll(s, existing, entries, key), Plan(p, MatchedAll(s, existing, entries, key), entries, accepted, key),
               |entries|)
  }

  lemma MatchedStored<K(!new)>(s: Store, p: Protocol, existing: seq<nat>, entries: seq<Entry>, key: Spelling -> K)
    requires Selects(s, p, existing) && Stored(s, existing)
    ensures forall k :: k in MatchedAll(s, existing, entries, key) ==>
      MatchedAll(s, existing, entries, key)[k] in PrunedAll(s, existing, entries, key).rows
  {
    hide MatchedAll, PrunedAll;
    forall k | k in MatchedAll(s, existing, entries, key)
      ensures MatchedAll(s, existing, entries, key)[k] in PrunedAll(s, existing, entries, key).rows
    {
      MatchedRow(s, p, existing, entries, key, k);
    }
  }

  /** An entry clears a value of the stored row that it keeps. */
  ghost predicate SomeCleared<K>(s: Store, p: Protocol, existing: seq<nat>, entries: seq<Entry>, key: Spelling -> K)
    requires Stored(s, existing)
  {
    exists i, m :: 0 <= i < |existing| && 0 <= m < |entries| && KeptBy(s, existing, entries, key, i, m)
                   && ClearsRow(p, s.rows[existing[i]], entries[m])
  }

  ghost predicate KeptBy<K>(s: Store, existing: seq<nat>, entries: seq<Entry>, key: Spelling -> K, i: nat, m: nat)
    requires i < |existing| && m < |entries| && Stored(s, existing)
  {
    Retained(s, existing, Incoming(entries, key), key, i) && KeyAt(s, existing, key, i) == key(entries[m].spelling)
  }

  /** Row id is the one row of protocol p with the identity of e, and it says what e says. */
  ghost predicate Represents<K>(r: Store, p: Protocol, key: Spelling -> K, e: Entry, at: int, id: nat) {
    && id in r.rows && r.rows[id].protocol == p && r.rows[id].spelling == e.spelling && r.rows[id].acceptedAt == at
    && r.rows[id].values.routeMap == e.values.routeMap && r.rows[id].values.metric == e.values.metric
    && (!p.Bgp? ==> r.rows[id].values == e.values)
    && forall other :: other in r.rows && r.rows[other].protocol == p && key(r.rows[other].spelling) == key(e.spelling) ==>
         other == id
  }

  ghost predicate Represented<K>(r: Store, p: Protocol, key: Spelling -> K, e: Entry, accepted: map<string, int>) {
    e.spelling.destRef in accepted && exists id: nat :: Represents(r, p, key, e, accepted[e.spelling.destRef], id)
  }

  /** Rows of other protocols stay as they are, and none appears. */
  ghost predicate OthersKept(s: Store, r: Store, p: Protocol) {
    && (forall id :: id in s.rows && s.rows[id].protocol != p ==> id in r.rows && r.rows[id] == s.rows[id])
    && (forall id :: id in r.rows && r.rows[id].protocol != p ==> id in s.rows)
  }

  ghost predicate NoneElse<K>(r: Store, p: Protocol, incoming: set<K>, key: Spelling -> K) {
    forall id :: id in r.rows && r.rows[id].protocol == p ==> key(r.rows[id].spelling) in incoming
  }

  ghost predicate DeletedExactly<K>(s: Store, r: Store, existing: seq<nat>, incoming: set<K>, key: Spelling -> K)
    requires Stored(s, existing)
  {
    forall i :: 0 <= i < |existing| ==> (existing[i] in r.rows <==> Retained(s, existing, incoming, key, i))
  }

  /**
   Every entry has exactly one row, with its spelling and values; no other row of the protocol is left; the
   deleted rows are the ones reported; other protocols are untouched.
   */
  ghost predicate Replaced<K(!new)>(s: Store, r: Store, p: Protocol, existing: seq<nat>, entries: seq<Entry>,
                                    accepted: map<string, int>, key: Spelling -> K)
    requires Stored(s, existing)
  {
    && Valid(r)
    && (forall m :: 0 <= m < |entries| ==> Represented(r, p, key, entries[m], accepted))
    && NoneElse(r, p, Incoming(entries, key), key)
    && OthersKept(s, r, p)
    && DeletedExactly(s, r, existing, Incoming(entries, key), key)
  }

  /** The pruned store and the rows found, as the second loop starts. */
  ghost predicate Found<K(!new)>(s: Store, pruned: Store, plan: Plan<K>, existing: seq<nat>) {
    && Valid(s) && Selects(s, plan.protocol, existing) && Stored(s, existing) && Exact(plan.protocol, plan.key)
    && pruned == PrunedAll(s, existing, plan.entries, plan.key)
    && plan.matched == MatchedAll(s, existing, plan.entries, plan.key)
    && Valid(pruned) && Injective(plan.matched) && Ready(pruned, plan, |plan.entries|)
    && (forall k :: k in plan.matched ==>
          var id := plan.matched[k];
          id in s.rows && s.rows[id].protocol == plan.protocol && plan.key(s.rows[id].spelling) == k)
  }

  ghost predicate Started<K(!new)>(s: Store, pruned: Store, plan: Plan<K>, existing: seq<nat>) {
    Found(s, pruned, plan, existing) && UniqueKeys(plan.entries, plan.key)
  }

  lemma MatchedRow<K(!new)>(s: Store, p: Protocol, existing: seq<nat>, entries: seq<Entry>, key: Spelling -> K, k: K)
    requires Selects(s, p, existing) && Stored(s, existing) && k in MatchedAll(s, existing, entries, key)
    ensures var id := MatchedAll(s, existing, entries, key)[k];
      && id in s.rows && s.rows[id].protocol == p && key(s.rows[id].spelling) == k
      && id in PrunedAll(s, existing, entries, key).rows
  {
    var incoming := Incoming(entries, key);
    MatchedFirst(s, existing, incoming, key, |existing|, k);
    var j :| 0 <= j < |existing| && Retained(s, existing, incoming, key, j) && KeyAt(s, existing, key, j) == k
             && Matched(s, existing, incoming, key, |existing|)[k] == existing[j];
    PrunedRows(s, existing, incoming, key, |existing|, existing[j]);
    assert existing[j] in existing;
  }

  lemma PlanFound<K(!new)>(s: Store, p: Protocol, existing: seq<nat>, entries: seq<Entry>, accepted: map<string, int>,
                           key: Spelling -> K)
    requires Valid(s) && Selects(s, p, existing) && Stored(s, existing) && Exact(p, key)
    ensures var plan := Plan(p, MatchedAll(s, existing, entries, key), entries, accepted, key);
      var pruned := PrunedAll(s, existing, entries, key);
      && (forall k :: k in plan.matched ==> plan.matched[k] in pruned.rows)
      && ((forall i :: 0 <= i < |entries| ==> plan.Dated(i)) ==> Found(s, pruned, plan, existing))
  {
    var matched, pruned := MatchedAll(s, existing, entries, key), PrunedAll(s, existing, entries, key);
    hide Matched, Pruned, MatchedAll, PrunedAll;
    forall k | k in matched
      ensures matched[k] in s.rows && matched[k] in pruned.rows
      ensures s.rows[matched[k]].protocol == p && key(s.rows[matched[k]].spelling) == k
    {
      MatchedRow(s, p, existing, entries, key, k);
    }
    forall id: nat ensures pruned.next == s.next && (id in pruned.rows ==> id in s.rows) {
      PrunedAllRows(s, existing, entries, key, id);
    }
  }

  lemma PrunedAllRows<K>(s: Store, existing: seq<nat>, entries: seq<Entry>, key: Spelling -> K, id: nat)
    requires Stored(s, existing) && forall i, j :: 0 <= i < j < |existing| ==> existing[i] != existing[j]
    ensures var pruned := PrunedAll(s, existing, entries, key);
      pruned.next == s.next && (id in pruned.rows ==> id in s.rows)
  {
    PrunedRows(s, existing, Incoming(entries, key), key, |existing|, id);
  }

  lemma SelectsStored(s: Store, p: Protocol, existing: seq<nat>)
    requires Selects(s, p, existing)
    ensures Stored(s, existing)
  {
    forall i | 0 <= i < |existing| ensures existing[i] in s.rows {
      assert existing[i] in existing;
    }
  }

  /** A row that was stored is pruned exactly when it is not retained; the rest is unchanged. */
  lemma PrunedRow<K(!new)>(s: Store, pruned: Store, plan: Plan<K>, existing: seq<nat>, id: nat)
    requires Found(s, pruned, plan, existing)
    ensures pruned.next == s.next
    ensures id in pruned.rows ==> id in s.rows && pruned.rows[id] == s.rows[id]
    ensures id in s.rows && s.rows[id].protocol != plan.protocol ==> id in pruned.rows
    ensures forall i :: 0 <= i < |existing| && existing[i] == id ==>
      (id in pruned.rows <==> Retained(s, existing, Incoming(plan.entries, plan.key), plan.key, i))
  {
    PrunedRows(s, existing, Incoming(plan.entries, plan.key), plan.key, |existing|, id);
    forall i | 0 <= i < |existing| ensures existing[i] in existing {
    }
  }

  /** A retained row of the protocol is the one found for its identity. */
  lemma RetainedFound<K(!new)>(s: Store, pruned: Store, plan: Plan<K>, existing: seq<nat>, id: nat) returns (m: nat)
    requires Found(s, pruned, plan, existing) && id in pruned.rows && pruned.rows[id].protocol == plan.protocol
    ensures m < |plan.entries| && Slot(pruned, plan, m) == id
  {
    PrunedRow(s, pruned, plan, existing, id);
    assert id in existing;
    var i :| 0 <= i < |existing| && existing[i] == id;
    var incoming := Incoming(plan.entries, plan.key);
    assert KeyAt(s, existing, plan.key, i) in incoming;
    m :| 0 <= m < |plan.entries| && plan.key(plan.entries[m].spelling) == KeyAt(s, existing, plan.key, i);
    MatchedFirst(s, existing, incoming, plan.key, |existing|, plan.Key(m));
    var j :| 0 <= j < |existing| && Retained(s, existing, incoming, plan.key, j)
             && KeyAt(s, existing, plan.key, j) == plan.Key(m) && plan.matched[plan.Key(m)] == existing[j];
    assert i == j;
  }

  /** The row in the slot of an entry is that entry, spelled its way. */
  lemma SlotRow<K(!new)>(s: Store, pruned: Store, r: Store, plan: Plan<K>, existing: seq<nat>, m: nat)
    requires Started(s, pruned, plan, existing) && m < |plan.entries| && WrittenAt(r, pruned, plan, m)
    ensures var row, e := r.rows[Slot(pruned, plan, m)], plan.entries[m];
      && row.protocol == plan.protocol && row.spelling == e.spelling && row.acceptedAt == plan.At(m)
      && row.values.routeMap == e.values.routeMap && row.values.metric == e.values.metric
      && (!plan.protocol.Bgp? ==> row.values == e.values)
    ensures Slot(pruned, plan, m) in s.rows ==> Slot(pruned, plan, m) in pruned.rows
  {
    var id := Slot(pruned, plan, m);
    PrunedRow(s, pruned, plan, existing, id);
    if plan.Key(m) in plan.matched {
      assert plan.key(s.rows[id].spelling) == plan.key(plan.entries[m].spelling);
    }
  }

  /** Every row of the protocol is in the slot of an entry. */
  lemma RowInSlot<K(!new)>(s: Store, pruned: Store, r: Store, plan: Plan<K>, existing: seq<nat>, id: nat) returns (m: nat)
    requires Started(s, pruned, plan, existing) && Framed(r, pruned, plan, |plan.entries|)
    requires id in r.rows && (r.rows[id].protocol == plan.protocol || id !in pruned.rows)
    ensures m < |plan.entries| && Slot(pruned, plan, m) == id
  {
    if SlotBefore(pruned, plan, |plan.entries|, id) {
      m :| 0 <= m < |plan.entries| && Slot(pruned, plan, m) == id;
    } else {
      m := RetainedFound(s, pruned, plan, existing, id);
    }
  }

  lemma EntryRepresented<K(!new)>(s: Store, pruned: Store, r: Store, plan: Plan<K>, existing: seq<nat>, m: nat)
    requires Started(s, pruned, plan, existing) && Progress(r, pruned, plan, |plan.entries|) && m < |plan.entries|
    ensures plan.Dated(m) && Represents(r, plan.protocol, plan.key, plan.entries[m], plan.At(m), Slot(pruned, plan, m))
  {
    var id := Slot(pruned, plan, m);
    assert WrittenAt(r, pruned, plan, m);
    SlotRow(s, pruned, r, plan, existing, m);
    forall other | other in r.rows && r.rows[other].protocol == plan.protocol
        && plan.key(r.rows[other].spelling) == plan.Key(m)
      ensures other == id
    {
      var n := RowInSlot(s, pruned, r, plan, existing, other);
      assert WrittenAt(r, pruned, plan, n);
      SlotRow(s, pruned, r, plan, existing, n);
      assert plan.key(plan.entries[n].spelling) == plan.key(plan.entries[m].spelling);
    }
  }

  /** Rows of other protocols, and rows that come and go. */
  lemma RowFramed<K(!new)>(s: Store, pruned: Store, r: Store, plan: Plan<K>, existing: seq<nat>, id: nat)
    requires Started(s, pruned, plan, existing) && Progress(r, pruned, plan, |plan.entries|)
    ensures id in s.rows ==> (id in r.rows <==> id in pruned.rows)
    ensures id in s.rows && s.rows[id].protocol != plan.protocol ==> id in r.rows && r.rows[id] == s.rows[id]
    ensures id in r.rows && r.rows[id].protocol != plan.protocol ==> id in s.rows
    ensures id in r.rows ==> id < r.next
  {
    PrunedRow(s, pruned, plan, existing, id);
    if id in r.rows && (r.rows[id].protocol == plan.protocol || id !in pruned.rows) {
      var m := RowInSlot(s, pruned, r, plan, existing, id);
      assert WrittenAt(r, pruned, plan, m);
      SlotRow(s, pruned, r, plan, existing, m);
      FreshMonotone(plan, m, |plan.entries|);
    }
    if id in pruned.rows && SlotBefore(pruned, plan, |plan.entries|, id) {
      var m :| 0 <= m < |plan.entries| && Slot(pruned, plan, m) == id;
      assert WrittenAt(r, pruned, plan, m);
      SlotRow(s, pruned, r, plan, existing, m);
      assert plan.Key(m) in plan.matched;
    }
  }

  lemma RowIncoming<K(!new)>(s: Store, pruned: Store, r: Store, plan: Plan<K>, existing: seq<nat>, id: nat)
    requires Started(s, pruned, plan, existing) && Progress(r, pruned, plan, |plan.entries|)
    requires id in r.rows && r.rows[id].protocol == plan.protocol
    ensures plan.key(r.rows[id].spelling) in Incoming(plan.entries, plan.key)
  {
    var m := RowInSlot(s, pruned, r, plan, existing, id);
    assert WrittenAt(r, pruned, plan, m);
    SlotRow(s, pruned, r, plan, existing, m);
  }

  lemma RetainedRow<K(!new)>(s: Store, pruned: Store, r: Store, plan: Plan<K>, existing: seq<nat>, i: nat)
    requires Started(s, pruned, plan, existing) && Progress(r, pruned, plan, |plan.entries|) && i < |existing|
    ensures Stored(s, existing)
    ensures existing[i] in r.rows <==> Retained(s, existing, Incoming(plan.entries, plan.key), plan.key, i)
  {
    hide Progress, Retained;
    RowFramed(s, pruned, r, plan, existing, existing[i]);
    PrunedRow(s, pruned, plan, existing, existing[i]);
  }

  lemma RowsFramed<K(!new)>(s: Store, pruned: Store, r: Store, plan: Plan<K>, existing: seq<nat>)
    requires Started(s, pruned, plan, existing) && Progress(r, pruned, plan, |plan.entries|)
    ensures Valid(r) && OthersKept(s, r, plan.protocol) && NoneElse(r, plan.protocol, Incoming(plan.entries, plan.key), plan.key)
  {
    hide Started, Progress, Incoming;
    forall id: nat
      ensures id in s.rows && s.rows[id].protocol != plan.protocol ==> id in r.rows && r.rows[id] == s.rows[id]
      ensures id in r.rows && r.rows[id].protocol != plan.protocol ==> id in s.rows
      ensures id in r.rows ==> id < r.next
    {
      RowFramed(s, pruned, r, plan, existing, id);
    }
    forall id: nat | id in r.rows && r.rows[id].protocol == plan.protocol
      ensures plan.key(r.rows[id].spelling) in Incoming(plan.entries, plan.key)
    {
      RowIncoming(s, pruned, r, plan, existing, id);
    }
  }

  lemma ProgressReplaces<K(!new)>(s: Store, pruned: Store, r: Store, plan: Plan<K>, existing: seq<nat>)
    requires Started(s, pruned, plan, existing) && Progress(r, pruned, plan, |plan.entries|)
    ensures Stored(s, existing)
    ensures Replaced(s, r, plan.protocol, existing, plan.entries, plan.accepted, plan.key)
  {
    assert Stored(s, existing);
    hide Started, Progress, Stored, Represents, Retained, Slot, Incoming, OthersKept, NoneElse, Valid;
    RowsFramed(s, pruned, r, plan, existing);
    forall i | 0 <= i < |existing|
      ensures existing[i] in r.rows <==> Retained(s, existing, Incoming(plan.entries, plan.key), plan.key, i)
    {
      RetainedRow(s, pruned, r, plan, existing, i);
    }
    assert DeletedExactly(s, r, existing, Incoming(plan.entries, plan.key), plan.key);
    hide DeletedExactly;
    forall m | 0 <= m < |plan.entries|
      ensures Represented(r, plan.protocol, plan.key, plan.entries[m], plan.accepted)
    {
      EntryRepresented(s, pruned, r, plan, existing, m);
    }
    hide Represented;
  }

  lemma SyncedReplaces<K(!new)>(s: Store, p: Protocol, existing: seq<nat>, entries: seq<Entry>, accepted: map<string, int>,
                                key: Spelling -> K)
    requires Valid(s) && Selects(s, p, existing) && Stored(s, existing) && Exact(p, key) && UniqueKeys(entries, key)
    requires AllDated(entries, accepted)
    ensures Replaced(s, Synced(s, p, existing, entries, accepted, key), p, existing, entries, accepted, key)
  {
    var plan := Plan(p, MatchedAll(s, existing, entries, key), entries, accepted, key);
    var pruned := PrunedAll(s, existing, entries, key);
    PlanFound(s, p, existing, entries, accepted, key);
    AppliedProgress(pruned, plan, |entries|);
    ProgressReplaces(s, pruned, Applied(pruned, plan, |entries|), plan, existing);
  }

  /** With distinct identities an entry meets the row as it was stored. */
  lemma ClearedAtIff<K(!new)>(s: Store, pruned: Store, plan: Plan<K>, existing: seq<nat>, m: nat)
    requires Started(s, pruned, plan, existing) && m < |plan.entries|
    ensures Ready(pruned, plan, m)
    ensures ClearedAt(pruned, plan, m) <==>
      plan.Key(m) in plan.matched && ClearsRow(plan.protocol, s.rows[plan.matched[plan.Key(m)]], plan.entries[m])
  {
    if plan.Key(m) in plan.matched {
      AppliedProgress(pruned, plan, m);
      var id := Slot(pruned, plan, m);
      PrunedRow(s, pruned, plan, existing, id);
      forall n | 0 <= n < m ensures Slot(pruned, plan, n) != id {
        SlotsApart(pruned, plan, n, m);
      }
      assert !SlotBefore(pruned, plan, m, id);
    }
  }

  lemma {:induction false} AnyClearedUpTo<K(!new)>(s: Store, pruned: Store, plan: Plan<K>, existing: seq<nat>, n: nat)
    requires Started(s, pruned, plan, existing) && n <= |plan.entries|
    ensures Ready(pruned, plan, n)
    ensures AnyCleared(pruned, plan, n) <==>
      exists m :: 0 <= m < n && plan.Key(m) in plan.matched
                  && ClearsRow(plan.protocol, s.rows[plan.matched[plan.Key(m)]], plan.entries[m])
  {
    if n > 0 {
      hide ClearsRow;
      AnyClearedUpTo(s, pruned, plan, existing, n - 1);
      ClearedAtIff(s, pruned, plan, existing, n - 1);
      hide ClearedAt, Started;
    }
  }

  /** The row found for entry m is the stored row that it keeps. */
  lemma FoundKept<K(!new)>(s: Store, pruned: Store, plan: Plan<K>, existing: seq<nat>, m: nat) returns (i: nat)
    requires Started(s, pruned, plan, existing) && m < |plan.entries| && plan.Key(m) in plan.matched
    ensures i < |existing| && KeptBy(s, existing, plan.entries, plan.key, i, m) && existing[i] == plan.matched[plan.Key(m)]
  {
    var incoming := Incoming(plan.entries, plan.key);
    MatchedFirst(s, existing, incoming, plan.key, |existing|, plan.Key(m));
    i :| 0 <= i < |existing| && Retained(s, existing, incoming, plan.key, i)
         && KeyAt(s, existing, plan.key, i) == plan.Key(m) && plan.matched[plan.Key(m)] == existing[i];
  }

  lemma KeptFound<K(!new)>(s: Store, pruned: Store, plan: Plan<K>, existing: seq<nat>, i: nat, m: nat)
    requires Started(s, pruned, plan, existing) && i < |existing| && m < |plan.entries|
    requires KeptBy(s, existing, plan.entries, plan.key, i, m)
    ensures plan.Key(m) in plan.matched && plan.matched[plan.Key(m)] == existing[i]
  {
    MatchedFirst(s, existing, Incoming(plan.entries, plan.key), plan.key, |existing|, plan.Key(m));
  }

  lemma AnyClearedIff<K(!new)>(s: Store, pruned: Store, plan: Plan<K>, existing: seq<nat>)
    requires Started(s, pruned, plan, existing)
    ensures Ready(pruned, plan, |plan.entries|)
    ensures AnyCleared(pruned, plan, |plan.entries|) <==> SomeCleared(s, plan.protocol, existing, plan.entries, plan.key)
  {
    AnyClearedUpTo(s, pruned, plan, existing, |plan.entries|);
    assert Stored(s, existing);
    hide AnyCleared, Started, KeptBy, ClearsRow, Stored;
    if m :| 0 <= m < |plan.entries| && plan.Key(m) in plan.matched
            && ClearsRow(plan.protocol, s.rows[plan.matched[plan.Key(m)]], plan.entries[m]) {
      var i := FoundKept(s, pruned, plan, existing, m);
      assert SomeCleared(s, plan.protocol, existing, plan.entries, plan.key);
    }
    if SomeCleared(s, plan.protocol, existing, plan.entries, plan.key) {
      var i, m :| 0 <= i < |existing| && 0 <= m < |plan.entries| && KeptBy(s, existing, plan.entries, plan.key, i, m)
                  && ClearsRow(plan.protocol, s.rows[existing[i]], plan.entries[m]);
      KeptFound(s, pruned, plan, existing, i, m);
    }
  }

  /** With distinct incoming identities, a sync clears exactly when an entry clears a value of the row it keeps. */
  lemma SyncClearsIff<K(!new)>(s: Store, p: Protocol, existing: seq<nat>, entries: seq<Entry>, accepted: map<string, int>,
                               key: Spelling -> K)
    requires Valid(s) && Selects(s, p, existing) && Stored(s, existing) && AllDated(entries, accepted)
    requires Exact(p, key) && UniqueKeys(entries, key)
    ensures SyncClears(s, p, existing, entries, accepted, key) <==> SomeCleared(s, p, existing, entries, key)
  {
    hide Matched, Pruned, Incoming, Exact, UniqueKeys, Valid, AnyCleared, SomeCleared;
    SelectsStored(s, p, existing);
    MatchedStored(s, p, existing, entries, key);
    PlanFound(s, p, existing, entries, accepted, key);
    AnyClearedIff(s, PrunedAll(s, existing, entries, key),
                  Plan(p, MatchedAll(s, existing, entries, key), entries, accepted, key), existing);
  }

  // ---- repeated identities ----

  /** Entry m inserts a row. */
  predicate Inserts<K>(plan: Plan<K>, m: nat)
    requires m < |plan.entries|
  {
    plan.Key(m) !in plan.matched
  }

  ghost predicate InsertedAt<K>(pruned: Store, plan: Plan<K>, n: nat, id: nat)
    requires n <= |plan.entries|
  {
    exists m :: 0 <= m < n && Inserts(plan, m) && Slot(pruned, plan, m) == id
  }

  ghost predicate Holds<K>(r: Store, plan: Plan<K>, id: nat, k: K) {
    id in r.rows && r.rows[id].protocol == plan.protocol && plan.key(r.rows[id].spelling) == k
  }

  /** The rows are the pruned ones and the inserts so far. */
  ghost predicate Origins<K(!new)>(r: Store, pruned: Store, plan: Plan<K>, n: nat)
    requires n <= |plan.entries|
  {
    forall id :: id in r.rows ==> id in pruned.rows || InsertedAt(pruned, plan, n, id)
  }

  /** The pruned rows keep their protocol and their identity. */
  ghost predicate KeysKept<K(!new)>(r: Store, pruned: Store, key: Spelling -> K) {
    forall id :: id in pruned.rows ==>
      id in r.rows && r.rows[id].protocol == pruned.rows[id].protocol
      && key(r.rows[id].spelling) == key(pruned.rows[id].spelling)
  }

  ghost predicate InsertHeld<K(!new)>(r: Store, pruned: Store, plan: Plan<K>, m: nat)
    requires m < |plan.entries|
  {
    Inserts(plan, m) ==> Holds(r, plan, Slot(pruned, plan, m), plan.Key(m))
  }

  /** After n entries, repeated or not: kept rows keep their identity and every insert has a row of its own. */
  ghost predicate Keyed<K(!new)>(r: Store, pruned: Store, plan: Plan<K>, n: nat)
    requires n <= |plan.entries|
  {
    && r.next == pruned.next + Fresh(plan, n)
    && Origins(r, pruned, plan, n)
    && KeysKept(r, pruned, plan.key)
    && forall m :: 0 <= m < n ==> InsertHeld(r, pruned, plan, m)
  }

  lemma InsertedAtSnoc<K>(pruned: Store, plan: Plan<K>, n: nat, id: nat)
    requires n < |plan.entries|
    ensures InsertedAt(pruned, plan, n + 1, id) <==>
      InsertedAt(pruned, plan, n, id) || (Inserts(plan, n) && id == Slot(pruned, plan, n))
  {
    hide Slot, Inserts;
    if InsertedAt(pruned, plan, n, id) {
      var m :| 0 <= m < n && Inserts(plan, m) && Slot(pruned, plan, m) == id;
      assert 0 <= m < n + 1;
    }
  }

  lemma UpdateKeepsKey<K(!new)>(p: Protocol, key: Spelling -> K, row: Row, e: Entry, at: int)
    requires Exact(p, key) && key(row.spelling) == key(e.spelling)
    ensures Written(p, Some(row), e, at).spelling == e.spelling && Written(p, Some(row), e, at).protocol == row.protocol
  {
  }

  /** Writing a pruned row, or the next new one, leaves the inserts so far alone. */
  lemma InsertStays<K(!new)>(before: Store, r: Store, pruned: Store, plan: Plan<K>, n: nat, m: nat, id: nat, row: Row)
    requires m < n <= |plan.entries| && Valid(pruned) && InsertHeld(before, pruned, plan, m)
    requires r.rows == before.rows[id := row] && (id in pruned.rows || id == pruned.next + Fresh(plan, n))
    ensures InsertHeld(r, pruned, plan, m)
  {
    hide Fresh;
    FreshMonotone(plan, m, n);
  }

  lemma OriginsStep<K(!new)>(before: Store, r: Store, pruned: Store, plan: Plan<K>, n: nat, id: nat, row: Row)
    requires n < |plan.entries| && Origins(before, pruned, plan, n) && r.rows == before.rows[id := row]
    requires id in pruned.rows || (Inserts(plan, n) && id == Slot(pruned, plan, n))
    ensures Origins(r, pruned, plan, n + 1)
  {
    hide Slot, Inserts;
    forall other: nat | other in r.rows ensures other in pruned.rows || InsertedAt(pruned, plan, n + 1, other) {
      InsertedAtSnoc(pruned, plan, n, other);
    }
  }

  lemma KeyedUpdate<K(!new)>(before: Store, r: Store, pruned: Store, plan: Plan<K>, n: nat, id: nat, row: Row)
    requires n < |plan.entries| && !Inserts(plan, n) && Keyed(before, pruned, plan, n) && Valid(pruned)
    requires id in pruned.rows && id in before.rows && r == before.(rows := before.rows[id := row])
    requires row.protocol == before.rows[id].protocol && plan.key(row.spelling) == plan.key(before.rows[id].spelling)
    ensures Keyed(r, pruned, plan, n + 1)
  {
    OriginsStep(before, r, pruned, plan, n, id, row);
    assert InsertHeld(r, pruned, plan, n);
    hide Origins, InsertHeld, Slot;
    forall m | 0 <= m < n ensures InsertHeld(r, pruned, plan, m) {
      InsertStays(before, r, pruned, plan, n, m, id, row);
    }
  }

  lemma KeyedInsert<K(!new)>(before: Store, r: Store, pruned: Store, plan: Plan<K>, n: nat, row: Row)
    requires n < |plan.entries| && Inserts(plan, n) && Keyed(before, pruned, plan, n) && Valid(pruned)
    requires r == Store(before.rows[before.next := row], before.next + 1)
    requires row.protocol == plan.protocol && plan.key(row.spelling) == plan.Key(n)
    ensures Keyed(r, pruned, plan, n + 1)
  {
    assert Slot(pruned, plan, n) == before.next;
    OriginsStep(before, r, pruned, plan, n, before.next, row);
    assert InsertHeld(r, pruned, plan, n);
    assert Fresh(plan, n + 1) == Fresh(plan, n) + 1;
    hide Origins, InsertHeld, Slot, Fresh;
    forall m | 0 <= m < n ensures InsertHeld(r, pruned, plan, m) {
      InsertStays(before, r, pruned, plan, n, m, before.next, row);
    }
  }

  lemma KeyedStep<K(!new)>(s: Store, pruned: Store, plan: Plan<K>, existing: seq<nat>, n: nat)
    requires Found(s, pruned, plan, existing) && n < |plan.entries| && Ready(pruned, plan, n) && Ready(pruned, plan, n + 1)
    requires Keyed(Applied(pruned, plan, n), pruned, plan, n)
    ensures Keyed(Applied(pruned, plan, n + 1), pruned, plan, n + 1)
  {
    var before, r, e := Applied(pruned, plan, n), Applied(pruned, plan, n + 1), plan.entries[n];
    AppliedStep(pruned, plan, n);
    hide Applied;
    if Inserts(plan, n) {
      hide Keyed, Found, Selects, Exact;
      KeyedInsert(before, r, pruned, plan, n, Written(plan.protocol, None, e, plan.At(n)));
    } else {
      var id := plan.matched[plan.Key(n)];
      PrunedRow(s, pruned, plan, existing, id);
      assert id in before.rows && plan.key(before.rows[id].spelling) == plan.key(e.spelling);
      UpdateKeepsKey(plan.protocol, plan.key, before.rows[id], e, plan.At(n));
      hide Keyed, Found, Written;
      KeyedUpdate(before, r, pruned, plan, n, id, Written(plan.protocol, Some(before.rows[id]), e, plan.At(n)));
    }
  }

  lemma KeyedStart<K(!new)>(pruned: Store, plan: Plan<K>)
    ensures Keyed(pruned, pruned, plan, 0)
  {
  }

  lemma {:induction false} AppliedKeyed<K(!new)>(s: Store, pruned: Store, plan: Plan<K>, existing: seq<nat>, n: nat)
    requires Found(s, pruned, plan, existing) && n <= |plan.entries| && Ready(pruned, plan, n)
    ensures Keyed(Applied(pruned, plan, n), pruned, plan, n)
  {
    hide Keyed, Found;
    if n == 0 {
      KeyedStart(pruned, plan);
    } else {
      assert Ready(pruned, plan, n - 1);
      hide Applied, Ready;
      AppliedKeyed(s, pruned, plan, existing, n - 1);
      KeyedStep(s, pruned, plan, existing, n - 1);
    }
  }

  ghost predicate OneRowEach<K(!new)>(r: Store, plan: Plan<K>) {
    forall m, a, b :: 0 <= m < |plan.entries| && Holds(r, plan, a, plan.Key(m)) && Holds(r, plan, b, plan.Key(m)) ==> a == b
  }

  /** No identity that is not stored yet comes in twice. */
  ghost predicate NoRepeatedInsert<K(!new)>(plan: Plan<K>) {
    forall i, j :: 0 <= i < j < |plan.entries| && Inserts(plan, i) && Inserts(plan, j) ==> plan.Key(i) != plan.Key(j)
  }

  /** A row with the identity of an entry is the row found for it, or the insert of an entry with that identity. */
  lemma HolderKnown<K(!new)>(s: Store, pruned: Store, r: Store, plan: Plan<K>, existing: seq<nat>, m: nat, id: nat)
    requires Found(s, pruned, plan, existing) && Keyed(r, pruned, plan, |plan.entries|)
    requires m < |plan.entries| && Holds(r, plan, id, plan.Key(m))
    ensures if Inserts(plan, m)
            then exists n :: 0 <= n < |plan.entries| && Inserts(plan, n) && plan.Key(n) == plan.Key(m) && Slot(pruned, plan, n) == id
            else id == plan.matched[plan.Key(m)]
  {
    if id in pruned.rows {
      var n := RetainedFound(s, pruned, plan, existing, id);
      PrunedRow(s, pruned, plan, existing, id);
      assert plan.Key(n) in plan.matched;
    } else {
      var n :| 0 <= n < |plan.entries| && Inserts(plan, n) && Slot(pruned, plan, n) == id;
      assert InsertHeld(r, pruned, plan, n);
    }
  }

  lemma RepeatedInsert<K(!new)>(pruned: Store, r: Store, plan: Plan<K>, i: nat, j: nat)
    requires Keyed(r, pruned, plan, |plan.entries|) && i < j < |plan.entries|
    requires Inserts(plan, i) && Inserts(plan, j) && plan.Key(i) == plan.Key(j)
    ensures Holds(r, plan, Slot(pruned, plan, i), plan.Key(i)) && Holds(r, plan, Slot(pruned, plan, j), plan.Key(i))
    ensures Slot(pruned, plan, i) != Slot(pruned, plan, j)
  {
    assert InsertHeld(r, pruned, plan, i) && InsertHeld(r, pruned, plan, j);
    hide Keyed, Fresh;
    FreshMonotone(plan, i, j);
  }

  /** Whatever the entries: an identity ends up on one row exactly when none of the new ones is repeated. */
  lemma OneRowIff<K(!new)>(s: Store, pruned: Store, plan: Plan<K>, existing: seq<nat>)
    requires Found(s, pruned, plan, existing)
    ensures OneRowEach(Applied(pruned, plan, |plan.entries|), plan) <==> NoRepeatedInsert(plan)
  {
    var r := Applied(pruned, plan, |plan.entries|);
    AppliedKeyed(s, pruned, plan, existing, |plan.entries|);
    hide Applied, Found, Keyed, Slot, Inserts, Holds;
    if !NoRepeatedInsert(plan) {
      var i, j :| 0 <= i < j < |plan.entries| && Inserts(plan, i) && Inserts(plan, j) && plan.Key(i) == plan.Key(j);
      RepeatedInsert(pruned, r, plan, i, j);
      assert !OneRowEach(r, plan);
    } else {
      forall m, a: nat, b: nat | 0 <= m < |plan.entries| && Holds(r, plan, a, plan.Key(m)) && Holds(r, plan, b, plan.Key(m))
        ensures a == b
      {
        OneHolder(s, pruned, r, plan, existing, m, a, b);
      }
      hide NoRepeatedInsert;
    }
  }

  lemma OneHolder<K(!new)>(s: Store, pruned: Store, r: Store, plan: Plan<K>, existing: seq<nat>, m: nat, a: nat, b: nat)
    requires Found(s, pruned, plan, existing) && Keyed(r, pruned, plan, |plan.entries|) && NoRepeatedInsert(plan)
    requires m < |plan.entries| && Holds(r, plan, a, plan.Key(m)) && Holds(r, plan, b, plan.Key(m))
    ensures a == b
  {
    HolderKnown(s, pruned, r, plan, existing, m, a);
    HolderKnown(s, pruned, r, plan, existing, m, b);
    hide Found, Keyed, Slot, Inserts, Holds;
    if Inserts(plan, m) {
      var i :| 0 <= i < |plan.entries| && Inserts(plan, i) && plan.Key(i) == plan.Key(m) && Slot(pruned, plan, i) == a;
      var j :| 0 <= j < |plan.entries| && Inserts(plan, j) && plan.Key(j) == plan.Key(m) && Slot(pruned, plan, j) == b;
      assert i == j;
    }
  }

  /** No identity that is not stored yet comes in twice. */
  ghost predicate NoNewRepeat<K>(s: Store, existing: seq<nat>, entries: seq<Entry>, key: Spelling -> K)
    requires Stored(s, existing)
  {
    forall i, j :: 0 <= i < j < |entries| && key(entries[i].spelling) == key(entries[j].spelling) ==>
      exists x :: 0 <= x < |existing| && KeyAt(s, existing, key, x) == key(entries[i].spelling)
  }

  /** No two rows of the protocol share the identity of an entry. */
  ghost predicate OneRowPerEntry<K>(r: Store, p: Protocol, entries: seq<Entry>, key: Spelling -> K) {
    forall m, a: nat, b: nat :: 0 <= m < |entries| ==>
      (HoldsIdentity(r, p, key, a, key(entries[m].spelling)) && HoldsIdentity(r, p, key, b, key(entries[m].spelling)) ==> a == b)
  }

  predicate HoldsIdentity<K(==)>(r: Store, p: Protocol, key: Spelling -> K, id: nat, k: K) {
    id in r.rows && r.rows[id].protocol == p && key(r.rows[id].spelling) == k
  }

  /** The same of the whole replacement, in terms of what is stored. */
  lemma SyncedOneRowIff<K(!new)>(s: Store, p: Protocol, existing: seq<nat>, entries: seq<Entry>, accepted: map<string, int>,
                                 key: Spelling -> K)
    requires Valid(s) && Selects(s, p, existing) && Stored(s, existing) && Exact(p, key) && AllDated(entries, accepted)
    ensures OneRowPerEntry(Synced(s, p, existing, entries, accepted, key), p, entries, key) <==>
      NoNewRepeat(s, existing, entries, key)
  {
    var plan := Plan(p, MatchedAll(s, existing, entries, key), entries, accepted, key);
    var pruned, r := PrunedAll(s, existing, entries, key), Synced(s, p, existing, entries, accepted, key);
    PlanFound(s, p, existing, entries, accepted, key);
    OneRowIff(s, pruned, plan, existing);
    assert r == Applied(pruned, plan, |entries|);
    forall i | 0 <= i < |entries|
      ensures Inserts(plan, i) <==> !exists x :: 0 <= x < |existing| && KeyAt(s, existing, key, x) == key(entries[i].spelling)
    {
      MatchedFirst(s, existing, Incoming(entries, key), key, |existing|, plan.Key(i));
      assert plan.Key(i) in Incoming(entries, key);
    }
    hide Synced, Applied, MatchedAll, PrunedAll, Found, Inserts;
    assert forall id: nat, k :: Holds(r, plan, id, k) <==> HoldsIdentity(r, p, key, id, k);
    assert forall m: nat :: m < |entries| ==> plan.Key(m) == key(entries[m].spelling);
    hide Holds, HoldsIdentity;
  }

  /** Two notations of one source that is not stored yet, sent under two entries of one stored process, become two rows. */
  lemma TwoNotationsTwoRows<K(!new)>(key: Spelling -> K, at: int)
    requires Exact(Isis, key) && key(Spelling("p", "bgp", "65536")) == key(Spelling("p", "bgp", "1.0"))
    ensures var none := Values(None, None, None);
      var entries := [Entry(Spelling("p", "bgp", "65536"), none), Entry(Spelling("p", "bgp", "1.0"), none)];
      !OneRowPerEntry(Synced(Store(map[], 0), Isis, [], entries, map["p" := at], key), Isis, entries, key)
  {
    var none := Values(None, None, None);
    var entries := [Entry(Spelling("p", "bgp", "65536"), none), Entry(Spelling("p", "bgp", "1.0"), none)];
    SyncedOneRowIff(Store(map[], 0), Isis, [], entries, map["p" := at], key);
    assert key(entries[0].spelling) == key(entries[1].spelling);
  }

  // ---- the row found for one identity, entry by entry ----

  /** An entry writes the row found for its own identity and no other found row. */
  lemma FoundStep<K(!new)>(s: Store, plan: Plan<K>, n: nat, k: K)
    requires Valid(s) && Injective(plan.matched) && n < |plan.entries| && Ready(s, plan, n) && Ready(s, plan, n + 1)
    requires k in plan.matched
    ensures var id := plan.matched[k];
      Applied(s, plan, n + 1).rows[id] == (
        if plan.Key(n) == k then Written(plan.protocol, Some(Applied(s, plan, n).rows[id]), plan.entries[n], plan.At(n))
        else Applied(s, plan, n).rows[id])
  {
    hide Written;
    AppliedStep(s, plan, n);
  }

  /** No later entry of the first n has the identity of entry m. */
  ghost predicate LastOf<K(!new)>(plan: Plan<K>, m: nat, n: nat)
    requires n <= |plan.entries|
  {
    m < n && forall j :: m < j < n ==> plan.Key(j) != plan.Key(m)
  }

  /** The row found for an identity ends with the values of the last entry that has it. */
  lemma {:induction false} LastWrites<K(!new)>(s: Store, plan: Plan<K>, n: nat, m: nat)
    requires Valid(s) && Injective(plan.matched) && n <= |plan.entries| && Ready(s, plan, n)
    requires LastOf(plan, m, n) && plan.Key(m) in plan.matched
    ensures var values, e := Applied(s, plan, n).rows[plan.matched[plan.Key(m)]].values, plan.entries[m];
      values == (if plan.protocol.Bgp? then e.values.(metricType := values.metricType) else e.values)
    decreases n
  {
    assert Ready(s, plan, n - 1);
    FoundStep(s, plan, n - 1, plan.Key(m));
    hide Applied, Injective, Valid;
    if m < n - 1 {
      hide Written, Ready;
      LastWrites(s, plan, n - 1, m);
    }
  }

  lemma {:induction false} AnyClearedSome<K>(s: Store, plan: Plan<K>, n: nat)
    requires Ready(s, plan, n)
    ensures AnyCleared(s, plan, n) <==> exists m: nat :: m < n && Ready(s, plan, m) && ClearedAt(s, plan, m)
  {
    if n > 0 {
      assert Ready(s, plan, n - 1);
      AnyClearedSome(s, plan, n - 1);
      hide ClearedAt, Ready;
    }
  }

  // ---- timestamps and frame, whatever the entries ----

  ghost predicate ParentStamp<K>(row: Row, plan: Plan<K>) {
    && row.protocol == plan.protocol
    && row.spelling.destRef in plan.accepted && row.acceptedAt == plan.accepted[row.spelling.destRef]
  }

  ghost predicate SlotStamped<K>(r: Store, pruned: Store, plan: Plan<K>, m: nat)
    requires m < |plan.entries|
  {
    Slot(pruned, plan, m) in r.rows && ParentStamp(r.rows[Slot(pruned, plan, m)], plan)
  }

  /** The rows written so far carry the timestamp of their parent; the others are as they were. */
  ghost predicate Stamped<K(!new)>(r: Store, pruned: Store, plan: Plan<K>, n: nat)
    requires n <= |plan.entries|
  {
    && (forall m :: 0 <= m < n ==> SlotStamped(r, pruned, plan, m))
    && Framed(r, pruned, plan, n)
  }

  lemma StampedStep<K(!new)>(before: Store, r: Store, pruned: Store, plan: Plan<K>, n: nat, row: Row)
    requires n < |plan.entries| && Stamped(before, pruned, plan, n) && ParentStamp(row, plan)
    requires r.rows == before.rows[Slot(pruned, plan, n) := row]
    ensures Stamped(r, pruned, plan, n + 1)
  {
    hide Slot, ParentStamp;
    forall m | 0 <= m <= n ensures SlotStamped(r, pruned, plan, m) {
      assert m < n ==> SlotStamped(before, pruned, plan, m);
    }
    forall id: nat
      ensures SlotBefore(pruned, plan, n + 1, id) <==> SlotBefore(pruned, plan, n, id) || id == Slot(pruned, plan, n)
    {
      SlotBeforeSnoc(pruned, plan, n, id);
    }
    hide SlotBefore, SlotStamped;
  }

  /** What the next entry writes, and where. */
  lemma WritesSlot<K(!new)>(s: Store, pruned: Store, plan: Plan<K>, existing: seq<nat>, n: nat) returns (row: Row)
    requires Found(s, pruned, plan, existing) && n < |plan.entries| && Ready(pruned, plan, n) && Ready(pruned, plan, n + 1)
    requires Keyed(Applied(pruned, plan, n), pruned, plan, n)
    ensures ParentStamp(row, plan)
    ensures Applied(pruned, plan, n + 1).rows == Applied(pruned, plan, n).rows[Slot(pruned, plan, n) := row]
  {
    var before, e := Applied(pruned, plan, n), plan.entries[n];
    AppliedStep(pruned, plan, n);
    hide Applied;
    if Inserts(plan, n) {
      row := Written(plan.protocol, None, e, plan.At(n));
    } else {
      var id := plan.matched[plan.Key(n)];
      PrunedRow(s, pruned, plan, existing, id);
      assert id in before.rows && plan.key(before.rows[id].spelling) == plan.key(e.spelling);
      UpdateKeepsKey(plan.protocol, plan.key, before.rows[id], e, plan.At(n));
      row := Written(plan.protocol, Some(before.rows[id]), e, plan.At(n));
    }
  }

  lemma StampedStart<K(!new)>(pruned: Store, plan: Plan<K>)
    ensures Stamped(pruned, pruned, plan, 0)
  {
  }

  lemma {:induction false} AppliedStamped<K(!new)>(s: Store, pruned: Store, plan: Plan<K>, existing: seq<nat>, n: nat)
    requires Found(s, pruned, plan, existing) && n <= |plan.entries| && Ready(pruned, plan, n)
    ensures Stamped(Applied(pruned, plan, n), pruned, plan, n)
  {
    hide Found, Keyed, Stamped, ParentStamp, Slot;
    if n == 0 {
      StampedStart(pruned, plan);
    } else {
      assert Ready(pruned, plan, n - 1);
      hide Ready, Applied;
      AppliedStamped(s, pruned, plan, existing, n - 1);
      AppliedKeyed(s, pruned, plan, existing, n - 1);
      var row := WritesSlot(s, pruned, plan, existing, n - 1);
      StampedStep(Applied(pruned, plan, n - 1), Applied(pruned, plan, n), pruned, plan, n - 1, row);
    }
  }

  /** After a replacement every row of the protocol carries its parent's timestamp, and other protocols are untouched. */
  lemma SyncedStamped<K(!new)>(s: Store, p: Protocol, existing: seq<nat>, entries: seq<Entry>, accepted: map<string, int>,
                               key: Spelling -> K, id: nat)
    requires Valid(s) && Selects(s, p, existing) && Exact(p, key) && AllDated(entries, accepted)
    ensures var r := Synced(s, p, existing, entries, accepted, key);
      && (id in r.rows && r.rows[id].protocol == p ==>
            r.rows[id].spelling.destRef in accepted && r.rows[id].acceptedAt == accepted[r.rows[id].spelling.destRef])
      && (id in s.rows && s.rows[id].protocol != p ==> id in r.rows && r.rows[id] == s.rows[id])
      && (id in r.rows && r.rows[id].protocol != p ==> id in s.rows && r.rows[id] == s.rows[id])
      && (id in r.rows ==> id < r.next)
  {
    SelectsStored(s, p, existing);
    MatchedStored(s, p, existing, entries, key);
    var plan := Plan(p, MatchedAll(s, existing, entries, key), entries, accepted, key);
    var pruned, r := PrunedAll(s, existing, entries, key), Synced(s, p, existing, entries, accepted, key);
    PlanFound(s, p, existing, entries, accepted, key);
    AppliedKeyed(s, pruned, plan, existing, |entries|);
    AppliedStamped(s, pruned, plan, existing, |entries|);
    StampedRow(s, pruned, r, plan, existing, id);
  }

  lemma StampedRow<K(!new)>(s: Store, pruned: Store, r: Store, plan: Plan<K>, existing: seq<nat>, id: nat)
    requires Found(s, pruned, plan, existing)
    requires Keyed(r, pruned, plan, |plan.entries|) && Stamped(r, pruned, plan, |plan.entries|)
    ensures id in r.rows && r.rows[id].protocol == plan.protocol ==> ParentStamp(r.rows[id], plan)
    ensures id in s.rows && s.rows[id].protocol != plan.protocol ==> id in r.rows && r.rows[id] == s.rows[id]
    ensures id in r.rows && r.rows[id].protocol != plan.protocol ==> id in s.rows && r.rows[id] == s.rows[id]
    ensures id in r.rows ==> id < r.next
  {
    PrunedRow(s, pruned, plan, existing, id);
    if id in pruned.rows && pruned.rows[id].protocol == plan.protocol {
      var m := RetainedFound(s, pruned, plan, existing, id);
      assert SlotStamped(r, pruned, plan, m);
    } else if id in pruned.rows {
      forall m | 0 <= m < |plan.entries| ensures Slot(pruned, plan, m) != id {
      }
    } else if id in r.rows {
      var m :| 0 <= m < |plan.entries| && Inserts(plan, m) && Slot(pruned, plan, m) == id;
      assert SlotStamped(r, pruned, plan, m);
      FreshMonotone(plan, m, |plan.entries|);
    }
  }
}
