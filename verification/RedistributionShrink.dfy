/** The shrinks a redistribution replacement reports, against what a merge-PATCH of the new rows leaves behind. */
module RedistributionShrink {
  import opened Options
  import opened Removal
  import opened MergePatch
  import opened Redistribution

  // ---- what the writers emit of a row ----

  function Column(v: Values, f: Field): Scalar {
    match f
    case RouteMap => OfText(v.routeMap)
    case Metric => OfNumber(v.metric)
    case MetricType => OfText(v.metricType)
    case _ => Null
  }

  /** The BGP writer knows no metric type. */
  predicate Emits(p: Protocol, v: Values, f: Field) {
    match f
    case RouteMap => Truthy(Column(v, f))
    case Metric => Column(v, f) != Null
    case MetricType => !p.Bgp? && Truthy(Column(v, f))
    case _ => false
  }

  function Emit(p: Protocol, v: Values): map<Field, Scalar> {
    map f: Field | Emits(p, v, f) :: Column(v, f)
  }

  // ---- row by row ----

  /** The test of the loop, field by field: BGP asks `is_cleared`, the others whether a value became null. */
  predicate FieldCleared(p: Protocol, before: Values, after: Values, f: Field) {
    if p.Bgp? then f in {RouteMap, Metric} && IsCleared(Column(before, f), Column(after, f), None)
    else f in {RouteMap, Metric, MetricType} && Column(before, f) != Null && Column(after, f) == Null
  }

  lemma ClearsRowIff(p: Protocol, r: Row, e: Entry)
    ensures ClearsRow(p, r, e) <==> exists f :: FieldCleared(p, r.values, e.values, f)
  {
    if ClearsRow(p, r, e) {
      assert FieldCleared(p, r.values, e.values, RouteMap) || FieldCleared(p, r.values, e.values, Metric)
        || FieldCleared(p, r.values, e.values, MetricType);
    }
  }

  /** A text that becomes blank is dropped, and only BGP takes it for cleared. */
  predicate BlankMissed(p: Protocol, before: Values, after: Values, f: Field) {
    !p.Bgp? && f in {RouteMap, MetricType} && Truthy(Column(before, f)) && Column(after, f) == Text("")
  }

  /** A blank text that becomes null was never written. */
  predicate BlankCleared(p: Protocol, before: Values, after: Values, f: Field) {
    !p.Bgp? && f in {RouteMap, MetricType} && Column(before, f) == Text("") && Column(after, f) == Null
  }

  lemma FieldDropped(p: Protocol, before: Values, after: Values, f: Field)
    ensures Emits(p, before, f) && !Emits(p, after, f) <==>
      BlankMissed(p, before, after, f) || (FieldCleared(p, before, after, f) && !BlankCleared(p, before, after, f))
  {
  }

  ghost predicate RowMissed(p: Protocol, before: Values, after: Values) {
    exists f :: BlankMissed(p, before, after, f)
  }

  ghost predicate RowEffect(p: Protocol, before: Values, after: Values) {
    exists f :: FieldCleared(p, before, after, f) && !BlankCleared(p, before, after, f)
  }

  /** For every two rows, a written leaf is dropped exactly by a missed blank or by a clear with an effect. */
  lemma RowDropsIff(p: Protocol, before: Values, after: Values)
    ensures LeafDropped(Emit(p, before), Emit(p, after)) <==> RowMissed(p, before, after) || RowEffect(p, before, after)
  {
    hide Emits, Column, BlankMissed, FieldCleared, BlankCleared;
    if f :| BlankMissed(p, before, after, f) || (FieldCleared(p, before, after, f) && !BlankCleared(p, before, after, f)) {
      FieldDropped(p, before, after, f);
      assert f in Emit(p, before) && f !in Emit(p, after);
    }
    if f :| f in Emit(p, before) && f !in Emit(p, after) {
      FieldDropped(p, before, after, f);
    }
  }

  /** For BGP the test of the loop is exact. */
  lemma BgpRowExact(r: Row, e: Entry, at: int)
    ensures ClearsRow(Bgp, r, e) <==> LeafDropped(Emit(Bgp, r.values), Emit(Bgp, Written(Bgp, Some(r), e, at).values))
  {
    var after := Written(Bgp, Some(r), e, at).values;
    ClearsRowIff(Bgp, r, e);
    RowDropsIff(Bgp, r.values, after);
    forall f ensures FieldCleared(Bgp, r.values, after, f) <==> FieldCleared(Bgp, r.values, e.values, f) {
    }
  }

  // ---- the documents ----

  /**
   A document written from the rows of a protocol. The writers name an entry by the identity that the replacement
   compares; when several stored rows share it, the document shows one of them.
   */
  ghost predicate Renders<K(!new)>(doc: Document<K, Field, Scalar>, s: Store, p: Protocol, key: Spelling -> K) {
    && (forall k :: k in doc ==> exists id: nat :: RowOf(s, p, key, k, id) && doc[k] == Emit(p, s.rows[id].values))
    && (forall id: nat :: id in s.rows && s.rows[id].protocol == p ==> key(s.rows[id].spelling) in doc)
  }

  predicate RowOf<K(==)>(s: Store, p: Protocol, key: Spelling -> K, k: K, id: nat) {
    id in s.rows && s.rows[id].protocol == p && key(s.rows[id].spelling) == k
  }

  /** A stored identity does not come in. */
  ghost predicate Gone<K>(s: Store, existing: seq<nat>, incoming: set<K>, key: Spelling -> K)
    requires Stored(s, existing)
  {
    exists i: nat :: i < |existing| && KeyAt(s, existing, key, i) !in incoming
  }

  /** Two stored rows share an identity. */
  ghost predicate Duplicated<K>(s: Store, existing: seq<nat>, key: Spelling -> K)
    requires Stored(s, existing)
  {
    exists i: nat, j: nat :: i < j < |existing| && KeyAt(s, existing, key, i) == KeyAt(s, existing, key, j)
  }

  lemma {:induction false} RemovedSome<K>(s: Store, existing: seq<nat>, incoming: set<K>, key: Spelling -> K, n: nat)
    requires n <= |existing| && Stored(s, existing)
    ensures Removed(s, existing, incoming, key, n) != [] <==>
      exists i: nat :: i < n && !Retained(s, existing, incoming, key, i)
  {
    if n > 0 {
      RemovedSome(s, existing, incoming, key, n - 1);
    }
  }

  /** Rows are removed exactly when an identity is gone or was stored twice. */
  lemma RemovedIff<K>(s: Store, existing: seq<nat>, incoming: set<K>, key: Spelling -> K)
    requires Stored(s, existing)
    ensures Removed(s, existing, incoming, key, |existing|) != [] <==>
      Gone(s, existing, incoming, key) || Duplicated(s, existing, key)
  {
    RemovedSome(s, existing, incoming, key, |existing|);
    hide Removed;
    if i: nat :| i < |existing| && !Retained(s, existing, incoming, key, i) {
      if KeyAt(s, existing, key, i) in incoming {
        var j :| 0 <= j < i && KeyAt(s, existing, key, j) == KeyAt(s, existing, key, i);
        assert Duplicated(s, existing, key);
      }
    }
    if i: nat :| i < |existing| && KeyAt(s, existing, key, i) !in incoming {
      assert !Retained(s, existing, incoming, key, i);
    }
    if Duplicated(s, existing, key) {
      var i: nat, j: nat :| i < j < |existing| && KeyAt(s, existing, key, i) == KeyAt(s, existing, key, j);
      assert !Retained(s, existing, incoming, key, j);
    }
  }

  // ---- the whole replacement ----

  /** A replacement of the rows of one protocol by any entries, and the documents before and after. */
  datatype Change<!K(!new)> = Change(s: Store, r: Store, protocol: Protocol, existing: seq<nat>, entries: seq<Entry>,
                               accepted: map<string, int>, key: Spelling -> K,
                               prior: Document<K, Field, Scalar>, after: Document<K, Field, Scalar>)
  {
    ghost predicate Replaces() {
      && Valid(s) && Selects(s, protocol, existing) && Stored(s, existing)
      && Exact(protocol, key) && AllDated(entries, accepted)
      && r == Synced(s, protocol, existing, entries, accepted, key)
      && Renders(prior, s, protocol, key) && Renders(after, r, protocol, key)
    }

    ghost predicate Residue() {
      Merge(prior, after) != after
    }

    /** What the caller hears: rows were removed, or an entry cleared a value of the row it found. */
    ghost predicate Reported()
      requires Replaces()
    {
      || Removed(s, existing, Incoming(entries, key), key, |existing|) != []
      || SyncClears(s, protocol, existing, entries, accepted, key)
    }

    ghost predicate AnyGone()
      requires Stored(s, existing)
    {
      Gone(s, existing, Incoming(entries, key), key)
    }

    ghost predicate AnyDuplicated()
      requires Stored(s, existing)
    {
      Duplicated(s, existing, key)
    }

    /** The rows the second loop starts from. */
    ghost function Start(): Store
      requires Stored(s, existing)
    {
      PrunedAll(s, existing, entries, key)
    }

    ghost function Work(): Plan<K>
      requires Stored(s, existing)
    {
      Plan(protocol, MatchedAll(s, existing, entries, key), entries, accepted, key)
    }
  }

  lemma Works<K(!new)>(c: Change<K>)
    requires c.Replaces()
    ensures Found(c.s, c.Start(), c.Work(), c.existing) && c.r == Applied(c.Start(), c.Work(), |c.entries|)
    ensures SyncClears(c.s, c.protocol, c.existing, c.entries, c.accepted, c.key) <==>
      AnyCleared(c.Start(), c.Work(), |c.entries|)
  {
    hide Matched, Pruned, Applied, AnyCleared, Exact, Valid, Renders, Selects;
    PlanFound(c.s, c.protocol, c.existing, c.entries, c.accepted, c.key);
    assert forall i :: 0 <= i < |c.entries| ==> c.Work().Dated(i);
  }

  lemma SameLeaves(p: Protocol, v: Values, w: Values)
    requires v.routeMap == w.routeMap && v.metric == w.metric && (!p.Bgp? ==> v == w)
    ensures Emit(p, v) == Emit(p, w)
  {
    forall f ensures Emits(p, v, f) <==> Emits(p, w, f) {
    }
  }

  /** An entry's identity is found exactly when it is stored. */
  lemma MatchedIff<K(!new)>(c: Change<K>, k: K)
    requires Stored(c.s, c.existing) && k in Incoming(c.entries, c.key)
    ensures k in c.Work().matched <==> exists i: nat :: i < |c.existing| && KeyAt(c.s, c.existing, c.key, i) == k
  {
    MatchedFirst(c.s, c.existing, Incoming(c.entries, c.key), c.key, |c.existing|, k);
  }

  /** No later entry has the identity of entry m. */
  ghost predicate Last<K(!new)>(c: Change<K>, m: nat) {
    m < |c.entries| && forall j :: m < j < |c.entries| ==> c.key(c.entries[j].spelling) != c.key(c.entries[m].spelling)
  }

  lemma LastEntry<K(!new)>(c: Change<K>, k: K) returns (m: nat)
    requires k in Incoming(c.entries, c.key)
    ensures Last(c, m) && c.key(c.entries[m].spelling) == k
  {
    m :| m < |c.entries| && c.key(c.entries[m].spelling) == k;
    while !Last(c, m)
      invariant m < |c.entries| && c.key(c.entries[m].spelling) == k
      decreases |c.entries| - m
    {
      var j :| m < j < |c.entries| && c.key(c.entries[j].spelling) == k;
      m := j;
    }
  }

  /** Every row left of the protocol has an incoming identity. */
  lemma RowIncomes<K(!new)>(c: Change<K>, id: nat)
    requires c.Replaces() && id in c.r.rows && c.r.rows[id].protocol == c.protocol
    ensures c.key(c.r.rows[id].spelling) in Incoming(c.entries, c.key)
  {
    Works(c);
    var pruned, plan := c.Start(), c.Work();
    AppliedKeyed(c.s, pruned, plan, c.existing, |c.entries|);
    hide Change.Replaces, Change.Start, Change.Work, Applied;
    if id in pruned.rows {
      var m := RetainedFound(c.s, pruned, plan, c.existing, id);
      PrunedRow(c.s, pruned, plan, c.existing, id);
      assert plan.Key(m) in plan.matched;
      assert plan.Key(m) == c.key(c.entries[m].spelling);
    } else {
      var n :| 0 <= n < |plan.entries| && Inserts(plan, n) && Slot(pruned, plan, n) == id;
      assert InsertHeld(c.r, pruned, plan, n);
      assert plan.Key(n) == c.key(c.entries[n].spelling);
    }
  }

  /** The row of a stored identity ends with the last entry that has it, and is the only one. */
  lemma AfterShows<K(!new)>(c: Change<K>, m: nat)
    requires c.Replaces() && Last(c, m) && c.key(c.entries[m].spelling) in c.prior
    ensures c.key(c.entries[m].spelling) in c.after
    ensures c.after[c.key(c.entries[m].spelling)] == Emit(c.protocol, c.entries[m].values)
  {
    var k := c.key(c.entries[m].spelling);
    PriorKeys(c, k);
    MatchedIff(c, k);
    Works(c);
    var id := FoundHolds(c, m);
    assert RowOf(c.r, c.protocol, c.key, k, id);
    var other: nat :| RowOf(c.r, c.protocol, c.key, k, other) && c.after[k] == Emit(c.protocol, c.r.rows[other].values);
    assert other == id;
    SameLeaves(c.protocol, c.r.rows[id].values, c.entries[m].values);
  }

  lemma FoundHolds<K(!new)>(c: Change<K>, m: nat) returns (id: nat)
    requires c.Replaces() && Last(c, m) && c.key(c.entries[m].spelling) in c.Work().matched
    ensures var k := c.key(c.entries[m].spelling); RowOf(c.r, c.protocol, c.key, k, id)
    ensures var k := c.key(c.entries[m].spelling); forall other: nat :: RowOf(c.r, c.protocol, c.key, k, other) ==> other == id
    ensures var v, w := c.r.rows[id].values, c.entries[m].values;
      v.routeMap == w.routeMap && v.metric == w.metric && (!c.protocol.Bgp? ==> v == w)
  {
    Works(c);
    var pruned, plan, r := c.Start(), c.Work(), c.r;
    var k := c.key(c.entries[m].spelling);
    hide Change.Replaces, Change.Start, Change.Work;
    id := plan.matched[k];
    AppliedKeyed(c.s, pruned, plan, c.existing, |c.entries|);
    PrunedRow(c.s, pruned, plan, c.existing, id);
    assert plan.Key(m) == k && LastOf(plan, m, |c.entries|);
    LastWrites(pruned, plan, |c.entries|, m);
    hide Applied;
    assert RowOf(r, c.protocol, c.key, k, id);
    forall other: nat | RowOf(r, c.protocol, c.key, k, other) ensures other == id {
      HolderKnown(c.s, pruned, r, plan, c.existing, m, other);
    }
  }

  lemma AfterKeys<K(!new)>(c: Change<K>, k: K)
    requires c.Replaces() && k in c.prior
    ensures k in c.after <==> k in Incoming(c.entries, c.key)
  {
    if k in c.after {
      var id: nat :| RowOf(c.r, c.protocol, c.key, k, id) && c.after[k] == Emit(c.protocol, c.r.rows[id].values);
      RowIncomes(c, id);
    }
    if k in Incoming(c.entries, c.key) {
      var m := LastEntry(c, k);
      AfterShows(c, m);
    }
  }

  lemma PriorKeys<K(!new)>(c: Change<K>, k: K)
    requires c.Replaces()
    ensures k in c.prior <==> exists i: nat :: i < |c.existing| && KeyAt(c.s, c.existing, c.key, i) == k
    ensures k in c.prior ==> exists i: nat :: RendersAt(c, k, i)
  {
    if k in c.prior {
      var id: nat :| RowOf(c.s, c.protocol, c.key, k, id) && c.prior[k] == Emit(c.protocol, c.s.rows[id].values);
      assert id in c.existing;
      var i: nat :| i < |c.existing| && c.existing[i] == id;
      assert RendersAt(c, k, i);
    }
    if i: nat :| i < |c.existing| && KeyAt(c.s, c.existing, c.key, i) == k {
      assert c.existing[i] in c.existing;
    }
  }

  /** The document shows row i for the identity. */
  ghost predicate RendersAt<K(!new)>(c: Change<K>, k: K, i: nat)
    requires Stored(c.s, c.existing)
  {
    && i < |c.existing| && KeyAt(c.s, c.existing, c.key, i) == k
    && k in c.prior && c.prior[k] == Emit(c.protocol, c.s.rows[c.existing[i]].values)
  }

  /** Entry m is the last word on its identity and drops a leaf that the document showed. */
  ghost predicate EntryDrops<K(!new)>(c: Change<K>, m: nat) {
    && Last(c, m) && c.key(c.entries[m].spelling) in c.prior
    && LeafDropped(c.prior[c.key(c.entries[m].spelling)], Emit(c.protocol, c.entries[m].values))
  }

  lemma DropCaused<K(!new)>(c: Change<K>, k: K)
    requires c.Replaces() && k in c.prior && (k !in c.after || LeafDropped(c.prior[k], c.after[k]))
    ensures c.AnyGone() || exists m: nat :: EntryDrops(c, m)
  {
    assert Stored(c.s, c.existing);
    hide Change.Replaces, Emit, LeafDropped;
    AfterKeys(c, k);
    if k in c.after {
      var m := LastEntry(c, k);
      AfterShows(c, m);
      assert EntryDrops(c, m);
    } else {
      PriorKeys(c, k);
    }
  }

  lemma EntryDropDrops<K(!new)>(c: Change<K>, m: nat)
    requires c.Replaces() && EntryDrops(c, m)
    ensures Drops(c.prior, c.after)
  {
    AfterShows(c, m);
    hide Change.Replaces, Emit;
    var k := c.key(c.entries[m].spelling);
    assert LeafDropped(c.prior[k], c.after[k]);
  }

  lemma GoneDrops<K(!new)>(c: Change<K>)
    requires c.Replaces() && c.AnyGone()
    ensures Drops(c.prior, c.after)
  {
    var i: nat :| i < |c.existing| && KeyAt(c.s, c.existing, c.key, i) !in Incoming(c.entries, c.key);
    hide Change.Replaces;
    PriorKeys(c, KeyAt(c.s, c.existing, c.key, i));
    AfterKeys(c, KeyAt(c.s, c.existing, c.key, i));
  }

  /** Merging the new document leaves residue exactly when an identity is gone or its last entry drops a leaf. */
  lemma ResidueIff<K(!new)>(c: Change<K>)
    requires c.Replaces()
    ensures c.Residue() <==> c.AnyGone() || exists m: nat :: EntryDrops(c, m)
  {
    assert Stored(c.s, c.existing);
    MergeDiffersIff(c.prior, c.after);
    hide Change.Replaces, Change.AnyGone, Merge, EntryDrops;
    if Drops(c.prior, c.after) {
      var k :| k in c.prior && (k !in c.after || exists l :: l in c.prior[k] && l !in c.after[k]);
      DropCaused(c, k);
    }
    hide Drops;
    if m: nat :| EntryDrops(c, m) {
      EntryDropDrops(c, m);
    }
    if c.AnyGone() {
      GoneDrops(c);
    }
  }

  // ---- residue and report ----

  /** The row kept for the identity of entry m, as it was stored, and m is the last entry to write it. */
  ghost predicate KeptRow<K(!new)>(c: Change<K>, i: nat, m: nat)
    requires Stored(c.s, c.existing)
  {
    i < |c.existing| && Last(c, m) && KeptBy(c.s, c.existing, c.entries, c.key, i, m)
  }

  ghost predicate MissedAt<K(!new)>(c: Change<K>, i: nat, m: nat)
    requires Stored(c.s, c.existing)
  {
    KeptRow(c, i, m) && RowMissed(c.protocol, c.s.rows[c.existing[i]].values, c.entries[m].values)
  }

  ghost predicate EffectAt<K(!new)>(c: Change<K>, i: nat, m: nat)
    requires Stored(c.s, c.existing)
  {
    KeptRow(c, i, m) && RowEffect(c.protocol, c.s.rows[c.existing[i]].values, c.entries[m].values)
  }

  /** Entry m finds a row. */
  ghost predicate Meets<K(!new)>(c: Change<K>, m: nat)
    requires Stored(c.s, c.existing)
  {
    m < |c.entries| && c.key(c.entries[m].spelling) in c.Work().matched
  }

  /** The row entry m finds, as the entries before it left it. */
  ghost function FoundRow<K(!new)>(c: Change<K>, m: nat): Row
    requires c.Replaces() && Meets(c, m)
  {
    Works(c);
    Applied(c.Start(), c.Work(), m).rows[c.Work().matched[c.key(c.entries[m].spelling)]]
  }

  /** Entry m makes a text of the row it finds blank. */
  ghost predicate MissFound<K(!new)>(c: Change<K>, m: nat)
    requires c.Replaces()
  {
    Meets(c, m) && RowMissed(c.protocol, FoundRow(c, m).values, c.entries[m].values)
  }

  /** Entry m clears a value of the row it finds. */
  ghost predicate ClearFound<K(!new)>(c: Change<K>, m: nat)
    requires c.Replaces()
  {
    Meets(c, m) && exists f :: FieldCleared(c.protocol, FoundRow(c, m).values, c.entries[m].values, f)
  }

  lemma ClearFoundIff<K(!new)>(c: Change<K>, m: nat)
    requires c.Replaces() && m < |c.entries|
    ensures Found(c.s, c.Start(), c.Work(), c.existing) && Ready(c.Start(), c.Work(), m)
    ensures ClearFound(c, m) <==> ClearedAt(c.Start(), c.Work(), m)
  {
    Works(c);
    assert c.Work().Key(m) == c.key(c.entries[m].spelling);
    if Meets(c, m) {
      ClearsRowIff(c.protocol, FoundRow(c, m), c.entries[m]);
    }
    hide Applied, Change.Replaces, Change.Start, FieldCleared, ClearsRow;
  }

  /** The report, in terms of the rows: an identity gone or stored twice, or a clear. */
  lemma ReportedIff<K(!new)>(c: Change<K>)
    requires c.Replaces()
    ensures c.Reported() <==> c.AnyGone() || c.AnyDuplicated() || exists m: nat :: ClearFound(c, m)
  {
    RemovedIff(c.s, c.existing, Incoming(c.entries, c.key), c.key);
    Works(c);
    AnyClearedSome(c.Start(), c.Work(), |c.entries|);
    forall m: nat | m < |c.entries|
      ensures Ready(c.Start(), c.Work(), m) && (ClearFound(c, m) <==> ClearedAt(c.Start(), c.Work(), m))
    {
      ClearFoundIff(c, m);
    }
    assert forall m: nat :: ClearFound(c, m) ==> m < |c.entries|;
    hide Removed, Incoming, Change.Replaces, Change.Start, Change.Work, ClearFound, ClearedAt, Gone, Duplicated, Ready, AnyCleared,
      SyncClears;
  }

  /** Without stored duplicates the document shows the row that is kept. */
  lemma ShownIsKept<K(!new)>(c: Change<K>, i: nat, m: nat)
    requires Stored(c.s, c.existing) && !c.AnyDuplicated() && Last(c, m) && i < |c.existing|
    requires KeyAt(c.s, c.existing, c.key, i) == c.key(c.entries[m].spelling)
    ensures KeptRow(c, i, m)
  {
    assert c.key(c.entries[m].spelling) in Incoming(c.entries, c.key);
  }

  lemma EntryDropsRow<K(!new)>(c: Change<K>, m: nat)
    requires c.Replaces() && !c.AnyDuplicated() && EntryDrops(c, m)
    ensures Stored(c.s, c.existing) && exists i: nat :: MissedAt(c, i, m) || EffectAt(c, i, m)
  {
    assert Stored(c.s, c.existing);
    var k := c.key(c.entries[m].spelling);
    PriorKeys(c, k);
    hide Change.Replaces, Emit, LeafDropped, RowMissed, RowEffect, Stored, KeptRow, Change.AnyDuplicated;
    var i: nat :| RendersAt(c, k, i);
    ShownIsKept(c, i, m);
    RowDropsIff(c.protocol, c.s.rows[c.existing[i]].values, c.entries[m].values);
    assert MissedAt(c, i, m) || EffectAt(c, i, m);
  }

  lemma SameIdentity<K(!new)>(c: Change<K>, i: nat, j: nat)
    requires Stored(c.s, c.existing) && !c.AnyDuplicated() && i < |c.existing| && j < |c.existing|
    requires KeyAt(c.s, c.existing, c.key, i) == KeyAt(c.s, c.existing, c.key, j)
    ensures i == j
  {
  }

  lemma RowEntryDrops<K(!new)>(c: Change<K>, i: nat, m: nat)
    requires c.Replaces() && !c.AnyDuplicated() && (MissedAt(c, i, m) || EffectAt(c, i, m))
    ensures EntryDrops(c, m)
  {
    var k := c.key(c.entries[m].spelling);
    assert KeptRow(c, i, m) && KeyAt(c.s, c.existing, c.key, i) == k;
    PriorKeys(c, k);
    assert Stored(c.s, c.existing);
    hide Change.Replaces, Emit, LeafDropped, RowMissed, RowEffect, Stored, KeptRow, Change.AnyDuplicated;
    var j: nat :| RendersAt(c, k, j);
    SameIdentity(c, i, j);
    RowDropsIff(c.protocol, c.s.rows[c.existing[i]].values, c.entries[m].values);
  }

  lemma ResidueRows<K(!new)>(c: Change<K>)
    requires c.Replaces() && !c.AnyDuplicated()
    ensures Stored(c.s, c.existing)
    ensures c.Residue() <==> c.AnyGone() || (exists i: nat, m: nat :: MissedAt(c, i, m)) || exists i: nat, m: nat :: EffectAt(c, i, m)
  {
    ResidueIff(c);
    assert Stored(c.s, c.existing);
    hide Change.Replaces, Change.AnyGone, Change.AnyDuplicated, Change.Residue, EntryDrops, MissedAt, EffectAt, Stored;
    if m: nat :| EntryDrops(c, m) {
      EntryDropsRow(c, m);
      var i: nat :| MissedAt(c, i, m) || EffectAt(c, i, m);
    }
    if i: nat, m: nat :| MissedAt(c, i, m) {
      RowEntryDrops(c, i, m);
    }
    if i: nat, m: nat :| EffectAt(c, i, m) {
      RowEntryDrops(c, i, m);
    }
  }

  /**
   Redistribution, exactly, for any entries. Stored duplicates are always reported. Without them residue is an identity gone
   or a stored row whose last entry misses a blank or clears with an effect; the report is an identity gone or an entry that
   clears a value of the row it finds; and the two agree exactly when an identity is gone or both or neither of these happen.
   */
  lemma RedistributionShrink<K(!new)>(c: Change<K>)
    requires c.Replaces()
    ensures var missed := exists i: nat, m: nat :: MissedAt(c, i, m);
      var effect := exists i: nat, m: nat :: EffectAt(c, i, m);
      var cleared := exists m: nat :: ClearFound(c, m);
      && (c.Reported() <==> c.AnyGone() || c.AnyDuplicated() || cleared)
      && (!c.AnyDuplicated() ==>
            && (c.Residue() <==> c.AnyGone() || missed || effect)
            && ((c.Reported() <==> c.Residue()) <==> c.AnyGone() || ((missed || effect) <==> cleared)))
  {
    assert Stored(c.s, c.existing);
    ReportedIff(c);
    if !c.AnyDuplicated() {
      ResidueRows(c);
    }
    hide Change.Replaces, Change.AnyGone, Change.AnyDuplicated, Change.Residue, Change.Reported, MissedAt,
      EffectAt, ClearFound, Stored;
  }

  // ---- distinct identities ----

  ghost predicate ClearAt<K(!new)>(c: Change<K>, i: nat, m: nat)
    requires Stored(c.s, c.existing)
  {
    KeptRow(c, i, m) && exists f :: FieldCleared(c.protocol, c.s.rows[c.existing[i]].values, c.entries[m].values, f)
  }

  lemma EffectClears<K(!new)>(c: Change<K>, i: nat, m: nat)
    requires Stored(c.s, c.existing) && EffectAt(c, i, m)
    ensures ClearAt(c, i, m)
  {
    hide FieldCleared, BlankCleared;
  }

  /** With distinct identities the rows found are the stored ones. */
  lemma DistinctClears<K(!new)>(c: Change<K>)
    requires c.Replaces() && UniqueKeys(c.entries, c.key)
    ensures SyncClears(c.s, c.protocol, c.existing, c.entries, c.accepted, c.key) <==> exists i: nat, m: nat :: ClearAt(c, i, m)
  {
    assert Stored(c.s, c.existing) && forall m: nat :: m < |c.entries| ==> Last(c, m);
    hide SyncClears, FieldCleared, ClearsRow, KeptBy, UniqueKeys, Last, Renders, Synced, Selects, Exact, Valid, AllDated;
    SyncClearsIff(c.s, c.protocol, c.existing, c.entries, c.accepted, c.key);
    hide Change.Replaces, Stored;
    if SomeCleared(c.s, c.protocol, c.existing, c.entries, c.key) {
      var i, m :| 0 <= i < |c.existing| && 0 <= m < |c.entries| && KeptBy(c.s, c.existing, c.entries, c.key, i, m)
                  && ClearsRow(c.protocol, c.s.rows[c.existing[i]], c.entries[m]);
      ClearsRowIff(c.protocol, c.s.rows[c.existing[i]], c.entries[m]);
      assert ClearAt(c, i, m);
    }
    if i: nat, m: nat :| ClearAt(c, i, m) {
      ClearsRowIff(c.protocol, c.s.rows[c.existing[i]], c.entries[m]);
      assert SomeCleared(c.s, c.protocol, c.existing, c.entries, c.key);
    }
  }

  /** For distinct identities, in terms of the stored rows alone; a clear with an effect is always reported. */
  lemma DistinctShrink<K(!new)>(c: Change<K>)
    requires c.Replaces() && UniqueKeys(c.entries, c.key)
    ensures var missed := exists i: nat, m: nat :: MissedAt(c, i, m);
      var effect := exists i: nat, m: nat :: EffectAt(c, i, m);
      var cleared := exists i: nat, m: nat :: ClearAt(c, i, m);
      && (c.Reported() <==> c.AnyGone() || c.AnyDuplicated() || cleared)
      && (effect ==> cleared)
      && (!c.AnyDuplicated() ==>
            && (c.Residue() <==> c.AnyGone() || missed || effect)
            && ((c.Reported() <==> c.Residue()) <==> c.AnyGone() || effect || (missed <==> cleared)))
  {
    assert Stored(c.s, c.existing);
    RedistributionShrink(c);
    DistinctClears(c);
    RemovedIff(c.s, c.existing, Incoming(c.entries, c.key), c.key);
    assert c.Reported() <==> c.AnyGone() || c.AnyDuplicated() || exists i: nat, m: nat :: ClearAt(c, i, m);
    hide Change.Replaces, Change.AnyGone, Change.AnyDuplicated, Change.Residue, Change.Reported, MissedAt, EffectAt, ClearAt, Stored,
      ClearFound;
    if i: nat, m: nat :| EffectAt(c, i, m) {
      EffectClears(c, i, m);
    }
  }

  // ---- what goes unreported, for any entries ----

  /** The row found for a stored identity is the stored row, when it is the only one. */
  lemma FoundIsStored<K(!new)>(c: Change<K>, i: nat)
    requires c.Replaces() && !c.AnyDuplicated() && i < |c.existing|
    requires KeyAt(c.s, c.existing, c.key, i) in Incoming(c.entries, c.key)
    ensures var k := KeyAt(c.s, c.existing, c.key, i);
      && k in c.Work().matched && c.Work().matched[k] == c.existing[i] && c.existing[i] in c.Start().rows
      && c.Start().rows[c.existing[i]] == c.s.rows[c.existing[i]]
  {
    var k := KeyAt(c.s, c.existing, c.key, i);
    MatchedFirst(c.s, c.existing, Incoming(c.entries, c.key), c.key, |c.existing|, k);
    var j: nat :| j < |c.existing| && KeyAt(c.s, c.existing, c.key, j) == k && c.Work().matched[k] == c.existing[j];
    SameIdentity(c, i, j);
    Works(c);
    PrunedRow(c.s, c.Start(), c.Work(), c.existing, c.existing[i]);
  }

  /** A value the loop takes for set; it is cleared exactly when it stops being one. */
  predicate Carries(p: Protocol, v: Values, f: Field) {
    if p.Bgp? then f in {RouteMap, Metric} && Column(v, f) != Null && Column(v, f) != Text("")
    else f in {RouteMap, Metric, MetricType} && Column(v, f) != Null
  }

  lemma ClearedIff(p: Protocol, before: Values, after: Values, f: Field)
    ensures FieldCleared(p, before, after, f) <==> Carries(p, before, f) && !Carries(p, after, f)
  {
  }

  /** What a row may have: a leaf that is written, or a value that is set. */
  datatype Mark = Shown(f: Field) | Set(f: Field)

  predicate Has(p: Protocol, v: Values, mark: Mark) {
    match mark
    case Shown(f) => Emits(p, v, f)
    case Set(f) => Carries(p, v, f)
  }

  /** Entry m finds the row of identity k with the mark, and takes it away. */
  ghost predicate DropsAt<K(!new)>(s: Store, plan: Plan<K>, k: K, mark: Mark, m: nat) {
    && m < |plan.entries| && Ready(s, plan, m) && plan.Key(m) == k && k in plan.matched
    && Has(plan.protocol, Applied(s, plan, m).rows[plan.matched[k]].values, mark)
    && !Has(plan.protocol, plan.entries[m].values, mark)
  }

  lemma WrittenHas(p: Protocol, r: Row, e: Entry, at: int, mark: Mark)
    ensures Has(p, Written(p, Some(r), e, at).values, mark) <==> Has(p, e.values, mark)
  {
  }

  lemma DropStep<K(!new)>(s: Store, plan: Plan<K>, k: K, mark: Mark, n: nat)
    requires Valid(s) && Injective(plan.matched) && n < |plan.entries| && Ready(s, plan, n) && Ready(s, plan, n + 1)
    requires k in plan.matched && Has(plan.protocol, Applied(s, plan, n).rows[plan.matched[k]].values, mark)
    requires !Has(plan.protocol, Applied(s, plan, n + 1).rows[plan.matched[k]].values, mark)
    ensures DropsAt(s, plan, k, mark, n)
  {
    FoundStep(s, plan, n, k);
    WrittenHas(plan.protocol, Applied(s, plan, n).rows[plan.matched[k]], plan.entries[n], plan.At(n), mark);
    hide Applied, Has, Written, Valid, Injective;
  }

  /** Along the updates of one row, a mark that goes is taken away by one of the entries. */
  lemma {:induction false} DropChain<K(!new)>(s: Store, plan: Plan<K>, k: K, mark: Mark, n: nat)
    requires Valid(s) && Injective(plan.matched) && n <= |plan.entries| && Ready(s, plan, n) && k in plan.matched
    requires Has(plan.protocol, s.rows[plan.matched[k]].values, mark)
    requires !Has(plan.protocol, Applied(s, plan, n).rows[plan.matched[k]].values, mark)
    ensures exists m: nat :: DropsAt(s, plan, k, mark, m)
    decreases n
  {
    if n > 0 {
      assert Ready(s, plan, n - 1);
      hide Applied, Has, Valid, Injective, DropsAt;
      if Has(plan.protocol, Applied(s, plan, n - 1).rows[plan.matched[k]].values, mark) {
        DropStep(s, plan, k, mark, n - 1);
      } else {
        DropChain(s, plan, k, mark, n - 1);
      }
    }
  }

  /** A stored row whose last entry lacks a mark it had: some entry took it away. */
  lemma LastDrops<K(!new)>(c: Change<K>, i: nat, m: nat, mark: Mark)
    requires c.Replaces() && !c.AnyDuplicated() && KeptRow(c, i, m)
    requires Has(c.protocol, c.s.rows[c.existing[i]].values, mark) && !Has(c.protocol, c.entries[m].values, mark)
    ensures exists n: nat :: DropsAt(c.Start(), c.Work(), c.key(c.entries[m].spelling), mark, n)
  {
    var k := c.key(c.entries[m].spelling);
    FoundIsStored(c, i);
    Works(c);
    var pruned, plan := c.Start(), c.Work();
    assert plan.Key(m) == k && LastOf(plan, m, |c.entries|);
    LastWrites(pruned, plan, |c.entries|, m);
    var v, w := Applied(pruned, plan, |c.entries|).rows[plan.matched[k]].values, c.entries[m].values;
    SameMarks(c.protocol, v, w, mark);
    hide Change.Replaces, Change.Start, Change.Work, Applied, Has, DropsAt;
    DropChain(pruned, plan, k, mark, |c.entries|);
  }

  lemma SameMarks(p: Protocol, v: Values, w: Values, mark: Mark)
    requires v.routeMap == w.routeMap && v.metric == w.metric && (!p.Bgp? ==> v == w)
    ensures Has(p, v, mark) <==> Has(p, w, mark)
  {
  }

  lemma DropFound<K(!new)>(c: Change<K>, k: K, mark: Mark, m: nat)
    requires c.Replaces() && DropsAt(c.Start(), c.Work(), k, mark, m)
    ensures Meets(c, m) && Has(c.protocol, FoundRow(c, m).values, mark) && !Has(c.protocol, c.entries[m].values, mark)
  {
    assert c.Work().Key(m) == c.key(c.entries[m].spelling);
  }

  lemma DropIsMiss<K(!new)>(c: Change<K>, k: K, f: Field, m: nat)
    requires c.Replaces() && DropsAt(c.Start(), c.Work(), k, Shown(f), m)
    ensures MissFound(c, m) || ClearFound(c, m)
  {
    hide Change.Replaces, Emits, FieldCleared, BlankMissed, BlankCleared, FoundRow, Meets, DropsAt;
    DropFound(c, k, Shown(f), m);
    FieldDropped(c.protocol, FoundRow(c, m).values, c.entries[m].values, f);
  }

  lemma DropIsClear<K(!new)>(c: Change<K>, k: K, f: Field, m: nat)
    requires c.Replaces() && DropsAt(c.Start(), c.Work(), k, Set(f), m)
    ensures ClearFound(c, m)
  {
    hide Change.Replaces, Carries, FieldCleared, FoundRow, Meets, DropsAt;
    DropFound(c, k, Set(f), m);
    ClearedIff(c.protocol, FoundRow(c, m).values, c.entries[m].values, f);
  }

  /** A clear with an effect is reported with repeated identities too: some entry cleared the row it found. */
  lemma EffectReported<K(!new)>(c: Change<K>, i: nat, m: nat)
    requires c.Replaces() && !c.AnyDuplicated() && EffectAt(c, i, m)
    ensures exists n: nat :: ClearFound(c, n)
  {
    var before, after, k := c.s.rows[c.existing[i]].values, c.entries[m].values, c.key(c.entries[m].spelling);
    var f :| FieldCleared(c.protocol, before, after, f) && !BlankCleared(c.protocol, before, after, f);
    ClearedIff(c.protocol, before, after, f);
    hide Change.Replaces, Change.AnyDuplicated, Carries, FieldCleared, ClearFound, DropsAt, KeptRow;
    LastDrops(c, i, m, Set(f));
    var n: nat :| DropsAt(c.Start(), c.Work(), k, Set(f), n);
    DropIsClear(c, k, f, n);
  }

  lemma MissReported<K(!new)>(c: Change<K>, i: nat, m: nat)
    requires c.Replaces() && !c.AnyDuplicated() && MissedAt(c, i, m)
    ensures exists n: nat :: MissFound(c, n) || ClearFound(c, n)
  {
    var before, after, k := c.s.rows[c.existing[i]].values, c.entries[m].values, c.key(c.entries[m].spelling);
    var f :| BlankMissed(c.protocol, before, after, f);
    FieldDropped(c.protocol, before, after, f);
    hide Change.Replaces, Change.AnyDuplicated, Emits, BlankMissed, MissFound, ClearFound, DropsAt, KeptRow;
    LastDrops(c, i, m, Shown(f));
    var n: nat :| DropsAt(c.Start(), c.Work(), k, Shown(f), n);
    DropIsMiss(c, k, f, n);
  }

  /** Whatever the entries, what goes unreported is exactly a stored text whose last word is blank. */
  lemma UnreportedIff<K(!new)>(c: Change<K>)
    requires c.Replaces() && !c.Reported()
    ensures c.Residue() <==> exists i: nat, m: nat :: MissedAt(c, i, m)
  {
    assert Stored(c.s, c.existing);
    RedistributionShrink(c);
    hide Change.Replaces, Change.AnyGone, Change.AnyDuplicated, Change.Residue, Change.Reported, MissedAt, EffectAt, ClearFound,
      Stored;
    if i: nat, m: nat :| EffectAt(c, i, m) {
      EffectReported(c, i, m);
    }
  }

  /** Residue goes unreported only through an entry that makes a text of the row it finds blank, whatever the entries. */
  lemma UnreportedIsBlank<K(!new)>(c: Change<K>)
    requires c.Replaces() && c.Residue() && !c.Reported()
    ensures exists m: nat :: MissFound(c, m)
  {
    assert Stored(c.s, c.existing);
    ReportedIff(c);
    UnreportedIff(c);
    hide Change.Replaces, Change.AnyGone, Change.AnyDuplicated, Change.Residue, Change.Reported, MissFound, ClearFound, MissedAt,
      Stored;
    var i: nat, m: nat :| MissedAt(c, i, m);
    MissReported(c, i, m);
  }

  /** BGP misses nothing, and with distinct identities and no stored duplicates reports nothing else. */
  lemma BgpShrink<K(!new)>(c: Change<K>)
    requires c.Replaces() && c.protocol.Bgp?
    ensures c.Residue() ==> c.Reported()
    ensures UniqueKeys(c.entries, c.key) && !c.AnyDuplicated() ==> (c.Reported() <==> c.Residue())
  {
    assert Stored(c.s, c.existing);
    if c.Residue() && !c.Reported() {
      hide Change.Replaces, Change.Residue, Change.Reported;
      UnreportedIsBlank(c);
    } else if UniqueKeys(c.entries, c.key) && !c.AnyDuplicated() {
      DistinctShrink(c);
      forall i: nat, m: nat ensures ClearAt(c, i, m) ==> EffectAt(c, i, m) {
      }
      hide Change.Replaces, Change.AnyGone, Change.AnyDuplicated, Change.Residue, Change.Reported, MissedAt, EffectAt, ClearAt;
      if i: nat, m: nat :| ClearAt(c, i, m) {
        assert EffectAt(c, i, m);
      }
    }
  }

  // ---- two inputs that IS-IS and OSPF get wrong ----

  lemma OneRowReplaced<K(!new)>(p: Protocol, spelling: Spelling, before: Values, after: Values, at: int, key: Spelling -> K)
    returns (c: Change<K>)
    requires Exact(p, key)
    ensures c.Replaces() && c.protocol == p && c.s == Store(map[0 := Row(p, spelling, before, at)], 1)
    ensures c.entries == [Entry(spelling, after)] && UniqueKeys(c.entries, c.key) && !c.AnyGone() && !c.AnyDuplicated()
    ensures forall i: nat, m: nat :: KeptRow(c, i, m) <==> i == 0 && m == 0
    ensures c.existing == [0]
  {
    var s := Store(map[0 := Row(p, spelling, before, at)], 1);
    var existing: seq<nat>, entries, accepted := [0], [Entry(spelling, after)], map[spelling.destRef := at];
    assert Selects(s, p, existing);
    assert Stored(s, existing);
    var k := key(spelling);
    assert k == key(entries[0].spelling) && k in Incoming(entries, key);
    var r := Synced(s, p, existing, entries, accepted, key);
    SyncedReplaces(s, p, existing, entries, accepted, key);
    var prior, next := map[k := Emit(p, before)], map[k := Emit(p, after)];
    c := Change(s, r, p, existing, entries, accepted, key, prior, next);
    assert RowOf(s, p, key, k, 0);
    OneRowRenders(r, p, entries[0], accepted, key, next);
    ShownIsKept(c, 0, 0);
  }

  lemma OneRowRenders<K(!new)>(r: Store, p: Protocol, e: Entry, accepted: map<string, int>, key: Spelling -> K,
                               doc: Document<K, Field, Scalar>)
    requires Represented(r, p, key, e, accepted) && NoneElse(r, p, Incoming([e], key), key)
    requires doc == map[key(e.spelling) := Emit(p, e.values)]
    ensures Renders(doc, r, p, key)
  {
    var k := key(e.spelling);
    var id: nat :| Represents(r, p, key, e, accepted[e.spelling.destRef], id);
    SameLeaves(p, r.rows[id].values, e.values);
    assert RowOf(r, p, key, k, id) && doc[k] == Emit(p, r.rows[id].values);
    forall other: nat | other in r.rows && r.rows[other].protocol == p ensures key(r.rows[other].spelling) == k {
      assert key(r.rows[other].spelling) in Incoming([e], key);
    }
  }

  /** For one kept row, residue and report are those of its values. */
  lemma OneRowShrink<K(!new)>(c: Change<K>, before: Values, after: Values)
    requires c.Replaces() && UniqueKeys(c.entries, c.key) && !c.AnyGone() && !c.AnyDuplicated()
    requires forall i: nat, m: nat :: KeptRow(c, i, m) <==> i == 0 && m == 0
    requires c.existing == [0] && c.s.rows[0].values == before && |c.entries| == 1 && c.entries[0].values == after
    ensures c.Residue() <==> RowMissed(c.protocol, before, after) || RowEffect(c.protocol, before, after)
    ensures c.Reported() <==> exists f :: FieldCleared(c.protocol, before, after, f)
  {
    DistinctShrink(c);
    assert Stored(c.s, c.existing);
    hide Change.Replaces, Change.AnyGone, Change.AnyDuplicated, Change.Residue, Change.Reported, KeptRow, RowMissed, RowEffect,
      FieldCleared, Stored;
    assert KeptRow(c, 0, 0);
    forall i: nat, m: nat
      ensures MissedAt(c, i, m) <==> i == 0 && m == 0 && RowMissed(c.protocol, before, after)
      ensures EffectAt(c, i, m) <==> i == 0 && m == 0 && RowEffect(c.protocol, before, after)
      ensures ClearAt(c, i, m) <==> i == 0 && m == 0 && exists f :: FieldCleared(c.protocol, before, after, f)
    {
    }
    hide MissedAt, EffectAt, ClearAt;
    assert (exists i: nat, m: nat :: MissedAt(c, i, m)) <==> MissedAt(c, 0, 0);
    assert (exists i: nat, m: nat :: EffectAt(c, i, m)) <==> EffectAt(c, 0, 0);
    assert (exists i: nat, m: nat :: ClearAt(c, i, m)) <==> ClearAt(c, 0, 0);
  }

  const NO_VALUES := Values(None, None, None)
  const MAPPED := Values(Some("RM"), None, None)
  const BLANK := Values(Some(""), None, None)

  lemma BlankValues(p: Protocol)
    requires !p.Bgp?
    ensures RowMissed(p, MAPPED, BLANK) && !exists f :: FieldCleared(p, MAPPED, BLANK, f)
    ensures !RowMissed(p, BLANK, NO_VALUES) && !RowEffect(p, BLANK, NO_VALUES) && exists f :: FieldCleared(p, BLANK, NO_VALUES, f)
  {
    assert BlankMissed(p, MAPPED, BLANK, RouteMap);
    assert FieldCleared(p, BLANK, NO_VALUES, RouteMap);
  }

  /** A route map that becomes blank is dropped from the document and not reported. */
  lemma BlankRouteMapMissed<K(!new)>(p: Protocol, spelling: Spelling, at: int, key: Spelling -> K) returns (c: Change<K>)
    requires !p.Bgp? && Exact(p, key)
    ensures c.Replaces() && c.s == Store(map[0 := Row(p, spelling, MAPPED, at)], 1)
    ensures c.entries == [Entry(spelling, BLANK)] && c.Residue() && !c.Reported()
  {
    hide Change.Replaces, Change.AnyGone, Change.AnyDuplicated, Change.Residue, Change.Reported, KeptRow, RowMissed, RowEffect,
      FieldCleared, Exact;
    c := OneRowReplaced(p, spelling, MAPPED, BLANK, at, key);
    OneRowShrink(c, MAPPED, BLANK);
    BlankValues(p);
  }

  /** A blank route map that becomes null is reported, and nothing is left behind. */
  lemma BlankRouteMapInVain<K(!new)>(p: Protocol, spelling: Spelling, at: int, key: Spelling -> K) returns (c: Change<K>)
    requires !p.Bgp? && Exact(p, key)
    ensures c.Replaces() && c.s == Store(map[0 := Row(p, spelling, BLANK, at)], 1)
    ensures c.entries == [Entry(spelling, NO_VALUES)] && c.Reported() && !c.Residue()
  {
    hide Change.Replaces, Change.AnyGone, Change.AnyDuplicated, Change.Residue, Change.Reported, KeptRow, RowMissed, RowEffect,
      FieldCleared, Exact;
    c := OneRowReplaced(p, spelling, BLANK, NO_VALUES, at, key);
    OneRowShrink(c, BLANK, NO_VALUES);
    BlankValues(p);
  }
}
