/** The redistribution statements nested in the processes of an intent payload, and what a PUT refuses about them. */
module RoutingSources {
  import opened Options
  import R = Redistribution

  datatype Source = Source(protocol: string, reference: string, values: R.Values)

  /** A process that sources are redistributed into. */
  datatype Destination = Destination(name: string, sources: seq<Source>)

  function SourceEntries(d: Destination): seq<R.Entry> {
    seq(|d.sources|, i requires 0 <= i < |d.sources| =>
      R.Entry(R.Spelling(d.name, d.sources[i].protocol, d.sources[i].reference), d.sources[i].values))
  }

  /** Every source of every process, under the name of the process. */
  function Statements(destinations: seq<Destination>): seq<R.Entry> {
    if destinations == [] then []
    else Statements(destinations[..|destinations| - 1]) + SourceEntries(destinations[|destinations| - 1])
  }

  function Names(destinations: seq<Destination>): set<string> {
    set i | 0 <= i < |destinations| :: destinations[i].name
  }

  ghost predicate DistinctNames(destinations: seq<Destination>) {
    forall i, j :: 0 <= i < j < |destinations| ==> destinations[i].name != destinations[j].name
  }

  /** Sources repeat an identity within one process, which is refused before anything is stored. */
  ghost predicate RepeatsSource<K>(destinations: seq<Destination>, key: R.Spelling -> K) {
    exists i :: 0 <= i < |destinations| && !R.UniqueKeys(SourceEntries(destinations[i]), key)
  }

  /** A BGP source whose reference the device's NED does not admit. */
  ghost predicate BadSource(destinations: seq<Destination>, admits: string -> bool) {
    exists e :: e in Statements(destinations) && Inadmissible(e, admits)
  }

  predicate Inadmissible(e: R.Entry, admits: string -> bool) {
    e.spelling.sourceProtocol == "bgp" && !admits(e.spelling.sourceRef)
  }

  // ---- the checks ----

  /** `validate_unique_redistribution_sources` for one process. */
  method SourcesUnique<K(==)>(entries: seq<R.Entry>, key: R.Spelling -> K) returns (unique: bool)
    ensures unique <==> R.UniqueKeys(entries, key)
  {
    var seen: set<K> := {};
    for i := 0 to |entries|
      invariant forall j :: 0 <= j < i ==> key(entries[j].spelling) in seen
      invariant forall k :: k in seen ==> exists j :: 0 <= j < i && key(entries[j].spelling) == k
      invariant forall j, l :: 0 <= j < l < i ==> key(entries[j].spelling) != key(entries[l].spelling)
    {
      if key(entries[i].spelling) in seen {
        return false;
      }
      seen := seen + {key(entries[i].spelling)};
    }
    unique := true;
  }

  datatype Fault = RepeatedSource | SourceRule

  /** The two refusals in the order of the request handler. */
  method SourcesChecked<K(==,!new)>(destinations: seq<Destination>, key: R.Spelling -> K, admits: string -> bool)
    returns (fault: Option<Fault>)
    ensures fault == Some(RepeatedSource) <==> RepeatsSource(destinations, key)
    ensures fault == Some(SourceRule) <==> !RepeatsSource(destinations, key) && BadSource(destinations, admits)
  {
    hide R.UniqueKeys;
    for i := 0 to |destinations|
      invariant forall j :: 0 <= j < i ==> R.UniqueKeys(SourceEntries(destinations[j]), key)
    {
      var unique := SourcesUnique(SourceEntries(destinations[i]), key);
      if !unique {
        return Some(RepeatedSource);
      }
    }
    var statements := Statements(destinations);
    for i := 0 to |statements|
      invariant forall j :: 0 <= j < i ==> !Inadmissible(statements[j], admits)
    {
      if Inadmissible(statements[i], admits) {
        assert statements[i] in Statements(destinations);
        return Some(SourceRule);
      }
    }
    return None;
  }

  // ---- the statements ----

  lemma {:induction false} StatementsNamed(destinations: seq<Destination>)
    ensures forall e :: e in Statements(destinations) ==> e.spelling.destRef in Names(destinations)
  {
    if destinations != [] {
      var n := |destinations| - 1;
      var short := destinations[..n];
      StatementsNamed(short);
      forall name | name in Names(short) ensures name in Names(destinations) {
        var i :| 0 <= i < |short| && short[i].name == name;
        assert destinations[i].name == name;
      }
      assert destinations[n].name in Names(destinations);
    }
  }

  lemma UniqueJoined<K>(left: seq<R.Entry>, right: seq<R.Entry>, key: R.Spelling -> K)
    requires R.UniqueKeys(left, key) && R.UniqueKeys(right, key)
    requires forall e, f :: e in left && f in right ==> key(e.spelling) != key(f.spelling)
    ensures R.UniqueKeys(left + right, key)
  {
    var all := left + right;
    forall i, j | 0 <= i < j < |all| ensures key(all[i].spelling) != key(all[j].spelling) {
      if i < |left| && j >= |left| {
        assert all[i] in left && all[j] in right;
      }
    }
  }

  /** Distinct processes without repeated sources state distinct identities. */
  lemma {:induction false} StatementsUnique<K>(p: R.Protocol, destinations: seq<Destination>, key: R.Spelling -> K)
    requires DistinctNames(destinations) && !RepeatsSource(destinations, key) && !p.Bgp? && R.Exact(p, key)
    ensures R.UniqueKeys(Statements(destinations), key)
  {
    if destinations != [] {
      var n := |destinations| - 1;
      var short, last := destinations[..n], destinations[n];
      assert DistinctNames(short) && !RepeatsSource(short, key);
      StatementsUnique(p, short, key);
      var left, right := Statements(short), SourceEntries(last);
      assert R.UniqueKeys(right, key);
      StatementsNamed(short);
      assert last.name !in Names(short);
      assert forall e :: e in right ==> e.spelling.destRef == last.name;
      hide Names, DistinctNames, R.UniqueKeys, RepeatsSource, Statements, SourceEntries;
      UniqueJoined(left, right, key);
      assert Statements(destinations) == left + right;
    }
  }
}
