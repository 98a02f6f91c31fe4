/** What the OSPF and IS-IS PUTs share: the request, its outcome, and the replacement of the redistribution rows. */
module RoutingPut {
  import opened Options
  import R = Redistribution
  import S = RedistributionShrink
  import opened Sources = RoutingSources

  /** What a PUT is given: its payload, the clock, the stored rows as read, and the device's rule for BGP sources. */
  datatype Put<!P, !K> = Put(payload: P, now: int, existing: seq<nat>, key: R.Spelling -> K, admits: string -> bool)

  datatype Refusal = BadSources(fault: Fault) | RepeatedRow

  /** What an accepted PUT found to take off the device: rows dropped, values cleared, and the keys for the guard. */
  datatype Shrink<I(==)> = Shrink(deleted: bool, cleared: bool, interfaces: set<I>, processes: set<string>)
  {
    predicate Asked() {
      deleted || cleared
    }
  }

  datatype Outcome<I(==)> = Refused(reason: Refusal) | Accepted(shrink: Shrink<I>)

  /** The redistribution part of a PUT: the stored rows, the statements, and the acceptance of their processes. */
  datatype Part<!K(!new)> = Part(s: R.Store, protocol: R.Protocol, existing: seq<nat>, destinations: seq<Destination>,
                           accepted: map<string, int>, key: R.Spelling -> K)
  {
    function Entries(): seq<R.Entry> {
      Statements(destinations)
    }

    ghost predicate Ready() {
      R.Selects(s, protocol, existing) && R.Stored(s, existing) && R.AllDated(Entries(), accepted)
    }

    ghost function Result(): R.Store
      requires Ready()
    {
      R.Synced(s, protocol, existing, Entries(), accepted, key)
    }

    ghost predicate Dropped()
      requires Ready()
    {
      R.Removed(s, existing, R.Incoming(Entries(), key), key, |existing|) != []
    }

    ghost predicate Cleared()
      requires Ready()
    {
      R.SyncClears(s, protocol, existing, Entries(), accepted, key)
    }

    /** The change, with the documents a writer renders before and after. */
    ghost predicate Rendered(c: S.Change<K>)
      requires Ready()
    {
      && c.s == s && c.r == Result() && c.protocol == protocol && c.existing == existing && c.entries == Entries()
      && c.accepted == accepted && c.key == key
      && S.Renders(c.prior, s, protocol, key) && S.Renders(c.after, Result(), protocol, key)
    }
  }

  lemma PartReplaces<K(!new)>(part: Part<K>, c: S.Change<K>)
    requires part.Ready() && R.Valid(part.s) && R.Exact(part.protocol, part.key) && part.Rendered(c)
    ensures c.Replaces() && (c.Reported() <==> part.Dropped() || part.Cleared())
  {
    hide R.Valid, R.Exact, R.Selects, R.Synced, R.Removed, R.SyncClears, R.Incoming, S.Renders, Statements;
  }

  /** Distinct processes without repeated sources leave exactly their statements: one row each, and no other of the protocol. */
  lemma PartStored<K(!new)>(part: Part<K>)
    requires part.Ready() && R.Valid(part.s) && !part.protocol.Bgp? && R.Exact(part.protocol, part.key)
    requires DistinctNames(part.destinations) && !RepeatsSource(part.destinations, part.key)
    ensures R.Replaced(part.s, part.Result(), part.protocol, part.existing, part.Entries(), part.accepted, part.key)
  {
    hide R.Valid, R.Exact, R.Selects, R.Synced, R.Replaced, R.UniqueKeys, Statements, DistinctNames, RepeatsSource;
    StatementsUnique(part.protocol, part.destinations, part.key);
    R.SyncedReplaces(part.s, part.protocol, part.existing, part.Entries(), part.accepted, part.key);
  }

  // ---- rows and their parents ----

  /** Every row of the protocol has a live parent, accepted at the same time. */
  ghost predicate Parented(p: R.Protocol, parents: map<string, int>, s: R.Store) {
    forall id :: id in s.rows && s.rows[id].protocol == p ==>
      s.rows[id].spelling.destRef in parents && s.rows[id].acceptedAt == parents[s.rows[id].spelling.destRef]
  }

  /** Replacing the rows of one protocol leaves the others and their parents alone. */
  lemma SyncParented<K(!new)>(s: R.Store, p: R.Protocol, existing: seq<nat>, entries: seq<R.Entry>, accepted: map<string, int>,
                              key: R.Spelling -> K, parents: map<string, int>, other: R.Protocol, others: map<string, int>)
    requires R.Valid(s) && R.Selects(s, p, existing) && R.Exact(p, key) && R.AllDated(entries, accepted)
    requires forall d :: d in accepted ==> d in parents && parents[d] == accepted[d]
    ensures var r := R.Synced(s, p, existing, entries, accepted, key);
      && R.Valid(r) && Parented(p, parents, r)
      && (other != p && Parented(other, others, s) ==> Parented(other, others, r))
  {
    var r := R.Synced(s, p, existing, entries, accepted, key);
    forall id: nat | id in r.rows
      ensures id < r.next
      ensures r.rows[id].protocol == p ==>
        r.rows[id].spelling.destRef in accepted && r.rows[id].acceptedAt == accepted[r.rows[id].spelling.destRef]
      ensures r.rows[id].protocol != p ==> id in s.rows && r.rows[id] == s.rows[id]
    {
      R.SyncedStamped(s, p, existing, entries, accepted, key, id);
    }
    hide R.Synced, R.Selects, R.Exact, R.AllDated;
  }
}
