/** OSPF intent PUTs: instances, interfaces, and the redistribution rows that hang off instances without a foreign key. */
module OspfIntent {
  import opened Options
  import Keyed = KeyedIntent
  import opened IntentTables
  import MergePatch
  import Removal
  import ShrinkReport
  import R = Redistribution
  import S = RedistributionShrink
  import opened Sources = RoutingSources
  import opened RoutingPut

  datatype Instance = Instance(processId: string, fields: OspfInstance, acceptedAt: Option<int>, redistribution: seq<Source>)

  datatype Interface = Interface(name: string, fields: OspfInterface, acceptedAt: Option<int>)

  datatype Payload = Payload(instances: seq<Instance>, interfaces: seq<Interface>)

  datatype Store = Store(instances: map<string, Keyed.Row<OspfInstance>>, interfaces: map<string, Keyed.Row<OspfInterface>>,
                         redistribution: R.Store)

  function Entries(instances: seq<Instance>): seq<Keyed.Entry<string, OspfInstance>> {
    seq(|instances|, i requires 0 <= i < |instances| =>
      Keyed.Entry(instances[i].processId, instances[i].fields, instances[i].acceptedAt))
  }

  function InterfaceEntries(interfaces: seq<Interface>): seq<Keyed.Entry<string, OspfInterface>> {
    seq(|interfaces|, i requires 0 <= i < |interfaces| =>
      Keyed.Entry(interfaces[i].name, interfaces[i].fields, interfaces[i].acceptedAt))
  }

  /** `_iter_ospf_redistribution`: the sources of every instance, under the process id. */
  function Processes(instances: seq<Instance>): seq<Destination> {
    seq(|instances|, i requires 0 <= i < |instances| => Destination(instances[i].processId, instances[i].redistribution))
  }

  /** The lookup of acceptance by parent, read from the instance rows just written. */
  function Parents(instances: map<string, Keyed.Row<OspfInstance>>): map<string, int> {
    map k | k in instances :: instances[k].acceptedAt
  }

  function SyncedInstances(s: Store, instances: seq<Instance>, now: int): map<string, Keyed.Row<OspfInstance>> {
    ShrinkReport.Synced(s.instances, Entries(instances), Keyed.Keep, now)
  }

  function SyncedInterfaces(s: Store, interfaces: seq<Interface>, now: int): map<string, Keyed.Row<OspfInterface>> {
    ShrinkReport.Synced(s.interfaces, InterfaceEntries(interfaces), Keyed.Keep, now)
  }

  /** The parent lookup never misses: every statement names an instance of the same payload. */
  lemma ParentsFound(s: Store, instances: seq<Instance>, now: int)
    ensures R.AllDated(Statements(Processes(instances)), Parents(SyncedInstances(s, instances, now)))
  {
    var entries, statements := Entries(instances), Statements(Processes(instances));
    StatementsNamed(Processes(instances));
    Keyed.UpsertedKeys(Keyed.Kept(s.instances, entries), entries, Keyed.Keep, now);
    forall name | name in Names(Processes(instances)) ensures name in Keyed.Keys(entries) {
      var i :| 0 <= i < |instances| && Processes(instances)[i].name == name;
      assert entries[i].key == name;
    }
    forall i | 0 <= i < |statements| ensures statements[i].spelling.destRef in Parents(SyncedInstances(s, instances, now)) {
      assert statements[i] in statements;
    }
  }

  /** Two entries insert the same new process or interface. */
  ghost predicate RepeatsRow(s: Store, payload: Payload) {
    || Keyed.Violates(s.instances, Entries(payload.instances))
    || Keyed.Violates(s.interfaces, InterfaceEntries(payload.interfaces))
  }

  ghost predicate Refuses<K(!new)>(s: Store, p: Put<Payload, K>) {
    var processes := Processes(p.payload.instances);
    RepeatsSource(processes, p.key) || BadSource(processes, p.admits) || RepeatsRow(s, p.payload)
  }

  /** The redistribution part, dated by the instance rows just written. */
  function Rows<K(!new)>(s: Store, p: Put<Payload, K>): Part<K> {
    Part(s.redistribution, R.Ospf, p.existing, Processes(p.payload.instances),
         Parents(SyncedInstances(s, p.payload.instances, p.now)), p.key)
  }

  lemma RowsReady<K(!new)>(s: Store, p: Put<Payload, K>)
    requires R.Selects(s.redistribution, R.Ospf, p.existing)
    ensures Rows(s, p).Ready()
  {
    R.SelectsStored(s.redistribution, R.Ospf, p.existing);
    ParentsFound(s, p.payload.instances, p.now);
  }

  /** One PUT: refused, or instances and interfaces and then the redistribution rows replaced. */
  ghost function Stored<K(!new)>(s: Store, p: Put<Payload, K>): Store
    requires R.Selects(s.redistribution, R.Ospf, p.existing)
  {
    if Refuses(s, p) then s
    else
      RowsReady(s, p);
      Store(SyncedInstances(s, p.payload.instances, p.now), SyncedInterfaces(s, p.payload.interfaces, p.now), Rows(s, p).Result())
  }

  const INSTANCE_CLEARS: (OspfInstance, OspfInstance) -> bool := (b: OspfInstance, a: OspfInstance) => b.Clears(a)
  const INTERFACE_CLEARS: (OspfInterface, OspfInterface) -> bool := (b: OspfInterface, a: OspfInterface) => b.Clears(a)

  /** The shrink of an accepted PUT, collection by collection. */
  ghost predicate Tells<K(!new)>(s: Store, p: Put<Payload, K>, shrink: Shrink<string>)
    requires R.Selects(s.redistribution, R.Ospf, p.existing)
  {
    RowsReady(s, p);
    var instances, interfaces := Entries(p.payload.instances), InterfaceEntries(p.payload.interfaces);
    && shrink.processes == s.instances.Keys - Keyed.Keys(instances)
    && shrink.interfaces == s.interfaces.Keys - Keyed.Keys(interfaces)
    && (shrink.deleted <==>
          Keyed.Deleted(s.instances, instances) || Keyed.Deleted(s.interfaces, interfaces) || Rows(s, p).Dropped())
    && (shrink.cleared <==>
          || Keyed.Cleared(s.instances, instances, Keyed.Keep, p.now, INSTANCE_CLEARS)
          || Keyed.Cleared(s.interfaces, interfaces, Keyed.Keep, p.now, INTERFACE_CLEARS)
          || Rows(s, p).Cleared())
  }

  /** `put_ospf_intent`, up to the rows it stores and the removal it asks for. */
  method PutOspfIntent<K(==,!new)>(s: Store, p: Put<Payload, K>) returns (s': Store, outcome: Outcome<string>)
    requires R.Valid(s.redistribution) && R.Selects(s.redistribution, R.Ospf, p.existing)
    ensures s' == Stored(s, p)
    ensures outcome.Refused? <==> Refuses(s, p)
    ensures outcome == Refused(BadSources(RepeatedSource)) <==> RepeatsSource(Processes(p.payload.instances), p.key)
    ensures outcome == Refused(BadSources(SourceRule)) <==>
      !RepeatsSource(Processes(p.payload.instances), p.key) && BadSource(Processes(p.payload.instances), p.admits)
    ensures outcome.Accepted? ==> Tells(s, p, outcome.shrink)
  {
    hide R.Selects, R.Valid, R.Exact, R.Replaced, R.Synced, R.SyncClears, R.Removed, R.Incoming, Keyed.Violates,
      Keyed.Upserted, Keyed.Keys, Keyed.Cleared, Keyed.Deleted, Keyed.Kept, BadSource, RepeatsSource, Parents, Statements;
    var fault := SourcesChecked(Processes(p.payload.instances), p.key, p.admits);
    if fault.Some? {
      assert fault.value.RepeatedSource? || fault.value.SourceRule?;
      return s, Refused(BadSources(fault.value));
    }
    var refused, instances, removedInstances, instancesCleared :=
      Keyed.Replace(s.instances, Entries(p.payload.instances), Keyed.Keep, p.now, INSTANCE_CLEARS);
    var refusedToo, interfaces, removedInterfaces, interfacesCleared :=
      Keyed.Replace(s.interfaces, InterfaceEntries(p.payload.interfaces), Keyed.Keep, p.now, INTERFACE_CLEARS);
    if refused || refusedToo {
      return s, Refused(RepeatedRow);
    }
    RowsReady(s, p);
    var table := new R.Table();
    table.rows, table.next := s.redistribution.rows, s.redistribution.next;
    assert table.View() == s.redistribution;
    var missing, removed, redistributionCleared :=
      table.Sync(R.Ospf, p.existing, Statements(Processes(p.payload.instances)), Parents(instances), p.key);
    s' := Store(instances, interfaces, R.Store(table.rows, table.next));
    outcome := Accepted(Shrink(removedInstances != {} || removedInterfaces != {} || removed != [],
                               instancesCleared || interfacesCleared || redistributionCleared,
                               removedInterfaces, removedInstances));
  }

  // ---- the removal a PUT asks for, against what a merge-PATCH leaves behind ----

  const INSTANCE_EMIT: OspfInstance -> map<Removal.Field, Removal.Scalar> := (r: OspfInstance) => r.Emit()
  const INTERFACE_EMIT: OspfInterface -> map<Removal.Field, Removal.Scalar> := (r: OspfInterface) => r.Emit()

  lemma InstanceResidueTold<K(!new)>(s: Store, p: Put<Payload, K>, shrink: Shrink<string>)
    requires R.Selects(s.redistribution, R.Ospf, p.existing) && Tells(s, p, shrink)
    requires Residue(s.instances, Entries(p.payload.instances), Keyed.Keep, p.now, INSTANCE_EMIT)
    ensures shrink.Asked()
  {
    forall b, a ensures MergePatch.LeafDropped(INSTANCE_EMIT(b), INSTANCE_EMIT(a)) ==> INSTANCE_CLEARS(b, a) {
      OspfInstanceDropsIff(b, a);
    }
    ShrinkReport.NothingMissed(s.instances, Entries(p.payload.instances), Keyed.Keep, p.now, INSTANCE_EMIT, INSTANCE_CLEARS);
    hide Part.Dropped, Part.Cleared, Keyed.Deleted, Keyed.Cleared, Keyed.Keys;
  }

  lemma InterfaceResidueTold<K(!new)>(s: Store, p: Put<Payload, K>, shrink: Shrink<string>)
    requires R.Selects(s.redistribution, R.Ospf, p.existing) && Tells(s, p, shrink)
    requires Residue(s.interfaces, InterfaceEntries(p.payload.interfaces), Keyed.Keep, p.now, INTERFACE_EMIT)
    ensures shrink.Asked()
  {
    forall b, a ensures MergePatch.LeafDropped(INTERFACE_EMIT(b), INTERFACE_EMIT(a)) ==> INTERFACE_CLEARS(b, a) {
      OspfInterfaceDropsIff(b, a);
    }
    ShrinkReport.NothingMissed(s.interfaces, InterfaceEntries(p.payload.interfaces), Keyed.Keep, p.now, INTERFACE_EMIT,
                               INTERFACE_CLEARS);
    hide Part.Dropped, Part.Cleared, Keyed.Deleted, Keyed.Cleared, Keyed.Keys;
  }

  /** Something of the old intent that a merge-PATCH of the new one leaves on the device. */
  ghost predicate LeavesBehind<K(!new)>(s: Store, p: Put<Payload, K>, c: S.Change<K>) {
    || Residue(s.instances, Entries(p.payload.instances), Keyed.Keep, p.now, INSTANCE_EMIT)
    || Residue(s.interfaces, InterfaceEntries(p.payload.interfaces), Keyed.Keep, p.now, INTERFACE_EMIT)
    || c.Residue()
  }

  lemma PartTold<K(!new)>(s: Store, p: Put<Payload, K>, shrink: Shrink<string>)
    requires R.Selects(s.redistribution, R.Ospf, p.existing) && Tells(s, p, shrink)
    ensures Rows(s, p).Ready() && (Rows(s, p).Dropped() || Rows(s, p).Cleared() ==> shrink.Asked())
  {
    RowsReady(s, p);
    hide Part.Dropped, Part.Cleared, Part.Ready, Keyed.Deleted, Keyed.Cleared, Keyed.Keys, Rows;
  }

  /**
   For every accepted PUT, exactly: when no removal is asked for, something is left on the device if and only if a stored
   redistribution text has a blank one as its last word.
   */
  lemma UntoldIff<K(!new)>(s: Store, p: Put<Payload, K>, shrink: Shrink<string>, c: S.Change<K>)
    requires R.Valid(s.redistribution) && R.Selects(s.redistribution, R.Ospf, p.existing) && R.Exact(R.Ospf, p.key)
    requires Rows(s, p).Ready() && Rows(s, p).Rendered(c) && Tells(s, p, shrink)
    ensures c.Replaces()
    ensures !shrink.Asked() ==> (LeavesBehind(s, p, c) <==> exists i: nat, m: nat :: S.MissedAt(c, i, m))
  {
    PartReplaces(Rows(s, p), c);
    PartTold(s, p, shrink);
    hide Tells, Residue, R.Selects, R.Valid, R.Exact, Part.Ready, Part.Rendered, Part.Dropped, Part.Cleared, Rows,
      S.Change.Replaces, S.Change.Residue, S.Change.Reported, S.MissedAt;
    if Residue(s.instances, Entries(p.payload.instances), Keyed.Keep, p.now, INSTANCE_EMIT) {
      InstanceResidueTold(s, p, shrink);
    }
    if Residue(s.interfaces, InterfaceEntries(p.payload.interfaces), Keyed.Keep, p.now, INTERFACE_EMIT) {
      InterfaceResidueTold(s, p, shrink);
    }
    if !shrink.Asked() {
      S.UnreportedIff(c);
    }
  }

  lemma DistinctProcesses(instances: seq<Instance>)
    requires Keyed.Unique(Entries(instances))
    ensures DistinctNames(Processes(instances))
  {
    assert forall i :: 0 <= i < |instances| ==> Entries(instances)[i].key == Processes(instances)[i].name;
  }

  /** An accepted PUT with distinct processes leaves exactly its statements: one row each, and no other OSPF row. */
  lemma StatementsStored<K(!new)>(s: Store, p: Put<Payload, K>)
    requires R.Valid(s.redistribution) && R.Selects(s.redistribution, R.Ospf, p.existing) && !Refuses(s, p)
    requires R.Stored(s.redistribution, p.existing) && R.Exact(R.Ospf, p.key) && Keyed.Unique(Entries(p.payload.instances))
    ensures R.Replaced(s.redistribution, Stored(s, p).redistribution, R.Ospf, p.existing,
                       Statements(Processes(p.payload.instances)), Rows(s, p).accepted, p.key)
  {
    hide R.Exact, R.Valid, R.Replaced, R.Selects, R.Stored, Keyed.Unique, Statements, BadSource, RepeatsRow, DistinctNames,
      RepeatsSource, R.Synced;
    RowsReady(s, p);
    DistinctProcesses(p.payload.instances);
    PartStored(Rows(s, p));
  }

  // ---- rows and their parents ----

  /** A PUT keeps OSPF rows with their instances, and the rows of every other protocol as they are. */
  lemma PutKeepsParents<K(!new)>(s: Store, p: Put<Payload, K>, other: R.Protocol, others: map<string, int>)
    requires R.Valid(s.redistribution) && R.Selects(s.redistribution, R.Ospf, p.existing) && R.Exact(R.Ospf, p.key)
    requires Parented(R.Ospf, Parents(s.instances), s.redistribution)
    ensures var s' := Stored(s, p);
      && R.Valid(s'.redistribution) && Parented(R.Ospf, Parents(s'.instances), s'.redistribution)
      && (!other.Ospf? && Parented(other, others, s.redistribution) ==> Parented(other, others, s'.redistribution))
  {
    hide Refuses, R.Synced, Parented, Parents, R.Valid, R.Exact, R.Selects;
    if !Refuses(s, p) {
      RowsReady(s, p);
      var accepted := Parents(SyncedInstances(s, p.payload.instances, p.now));
      SyncParented(s.redistribution, R.Ospf, p.existing, Statements(Processes(p.payload.instances)), accepted, p.key, accepted,
                   other, others);
    }
  }
}
