/** The routing intent of a device over every sequence of PUTs: three protocols share one redistribution table. */
module RoutingRuns {
  import opened Options
  import Keyed = KeyedIntent
  import opened IntentTables
  import R = Redistribution
  import Ospf = OspfIntent
  import Isis = IsisIntent
  import opened RoutingPut

  datatype Device = Device(
    instances: map<string, Keyed.Row<OspfInstance>>, ospfInterfaces: map<string, Keyed.Row<OspfInterface>>,
    isisInterfaces: map<(string, string), Keyed.Row<IsisInterface>>, processes: map<string, Keyed.Row<IsisProcess>>,
    levels: map<(string, string), Keyed.Row<IsisLevel>>, redistribution: R.Store)
  {
    function AsOspf(): Ospf.Store {
      Ospf.Store(instances, ospfInterfaces, redistribution)
    }

    function AsIsis(): Isis.Store {
      Isis.Store(isisInterfaces, processes, levels, redistribution)
    }

    function WithOspf(s: Ospf.Store): Device {
      this.(instances := s.instances, ospfInterfaces := s.interfaces, redistribution := s.redistribution)
    }

    function WithIsis(s: Isis.Store): Device {
      this.(isisInterfaces := s.interfaces, processes := s.processes, levels := s.levels, redistribution := s.redistribution)
    }
  }

  const EMPTY := Device(map[], map[], map[], map[], map[], R.Store(map[], 0))

  /** A PUT of the OSPF or the IS-IS stream, or the BGP rows replaced as their PUT does. */
  datatype Event<!K> =
    | PutOspf(ospf: Put<Ospf.Payload, K>)
    | PutIsis(isis: Put<Isis.Payload, K>)
    | PutBgp(existing: seq<nat>, entries: seq<R.Entry>, accepted: map<string, int>, key: R.Spelling -> K)

  ghost predicate Enabled<K(!new)>(d: Device, e: Event<K>) {
    match e
    case PutOspf(p) => R.Selects(d.redistribution, R.Ospf, p.existing) && R.Exact(R.Ospf, p.key)
    case PutIsis(p) => R.Selects(d.redistribution, R.Isis, p.existing) && R.Exact(R.Isis, p.key)
    case PutBgp(existing, entries, accepted, key) =>
      R.Selects(d.redistribution, R.Bgp, existing) && R.Exact(R.Bgp, key) && R.AllDated(entries, accepted)
  }

  ghost function Next<K(!new)>(d: Device, e: Event<K>): Device
    requires Enabled(d, e)
  {
    match e
    case PutOspf(p) => d.WithOspf(Ospf.Stored(d.AsOspf(), p))
    case PutIsis(p) => d.WithIsis(Isis.Stored(d.AsIsis(), p))
    case PutBgp(existing, entries, accepted, key) =>
      d.(redistribution := R.Synced(d.redistribution, R.Bgp, existing, entries, accepted, key))
  }

  ghost predicate IsRun<K(!new)>(d: Device, events: seq<Event<K>>, d': Device)
    decreases |events|
  {
    if events == [] then d == d' else Enabled(d, events[0]) && IsRun(Next(d, events[0]), events[1..], d')
  }

  ghost predicate Inv(d: Device) {
    && R.Valid(d.redistribution)
    && Parented(R.Ospf, Ospf.Parents(d.instances), d.redistribution)
    && Parented(R.Isis, Isis.Parents(d.processes), d.redistribution)
  }

  lemma StepKeepsParents<K(!new)>(d: Device, e: Event<K>)
    requires Inv(d) && Enabled(d, e)
    ensures Inv(Next(d, e))
  {
    hide Parented, R.Valid, R.Selects, R.Exact, R.AllDated, R.Synced, Ospf.Stored, Isis.Stored, Ospf.Parents, Isis.Parents;
    match e
    case PutOspf(p) => Ospf.PutKeepsParents(d.AsOspf(), p, R.Isis, Isis.Parents(d.processes));
    case PutIsis(p) => Isis.PutKeepsParents(d.AsIsis(), p, R.Ospf, Ospf.Parents(d.instances));
    case PutBgp(existing, entries, accepted, key) =>
      SyncParented(d.redistribution, R.Bgp, existing, entries, accepted, key, accepted, R.Ospf, Ospf.Parents(d.instances));
      SyncParented(d.redistribution, R.Bgp, existing, entries, accepted, key, accepted, R.Isis, Isis.Parents(d.processes));
  }

  /** Along every sequence of PUTs no OSPF or IS-IS statement is orphaned and none drifts from its parent's acceptance. */
  lemma {:induction false} RunKeepsParents<K(!new)>(d: Device, events: seq<Event<K>>, d': Device)
    requires Inv(d) && IsRun(d, events, d')
    ensures Inv(d')
    decreases |events|
  {
    hide Inv, Next;
    if events != [] {
      StepKeepsParents(d, events[0]);
      RunKeepsParents(Next(d, events[0]), events[1..], d');
    }
  }

  /** In every device that PUTs can reach, each OSPF and IS-IS statement has a live parent accepted at the same time. */
  lemma ReachableParents<K(!new)>(events: seq<Event<K>>, d: Device)
    requires IsRun(EMPTY, events, d)
    ensures Parented(R.Ospf, Ospf.Parents(d.instances), d.redistribution)
    ensures Parented(R.Isis, Isis.Parents(d.processes), d.redistribution)
  {
    assert Inv(EMPTY);
    RunKeepsParents(EMPTY, events, d);
  }
}
