/** IS-IS intent PUTs: interfaces, processes with their levels, and the redistribution rows that hang off processes. */
module IsisIntent {
  import opened Options
  import Keyed = KeyedIntent
  import opened IntentTables
  import MergePatch
  import Removal
  import ShrinkReport
  import R = Redistribution
  import S = RedistributionShrink
  import opened Sources = RoutingSources
  import opened RoutingPut

  datatype Interface = Interface(name: string, af: string, fields: IsisInterface, acceptedAt: Option<int>)

  datatype Level = Level(level: string, fields: IsisLevel)

  datatype Process = Process(tag: string, fields: IsisProcess, acceptedAt: Option<int>, levels: seq<Level>,
                             redistribution: seq<Source>)

  datatype Payload = Payload(interfaces: seq<Interface>, processes: seq<Process>)

  datatype Store = Store(
    interfaces: map<(string, string), Keyed.Row<IsisInterface>>, processes: map<string, Keyed.Row<IsisProcess>>,
    levels: map<(string, string), Keyed.Row<IsisLevel>>, redistribution: R.Store)

  function InterfaceEntries(interfaces: seq<Interface>): seq<Keyed.Entry<(string, string), IsisInterface>> {
    seq(|interfaces|, i requires 0 <= i < |interfaces| =>
      Keyed.Entry((interfaces[i].name, interfaces[i].af), interfaces[i].fields, interfaces[i].acceptedAt))
  }

  function ProcessEntries(processes: seq<Process>): seq<Keyed.Entry<string, IsisProcess>> {
    seq(|processes|, i requires 0 <= i < |processes| =>
      Keyed.Entry(processes[i].tag, processes[i].fields, processes[i].acceptedAt))
  }

  /** A level is accepted with its process. */
  function LevelsOf(p: Process): seq<Keyed.Entry<(string, string), IsisLevel>> {
    seq(|p.levels|, i requires 0 <= i < |p.levels| =>
      Keyed.Entry((p.tag, p.levels[i].level), p.levels[i].fields, p.acceptedAt))
  }

  /** The levels of all processes, flattened. */
  function LevelEntries(processes: seq<Process>): seq<Keyed.Entry<(string, string), IsisLevel>> {
    if processes == [] then []
    else LevelEntries(processes[..|processes| - 1]) + LevelsOf(processes[|processes| - 1])
  }

  /** `_iter_isis_redistribution`: the sources of every process, under its tag. */
  function Processes(processes: seq<Process>): seq<Destination> {
    seq(|processes|, i requires 0 <= i < |processes| => Destination(processes[i].tag, processes[i].redistribution))
  }

  /** The acceptance of each process as the payload gives it; the last entry of a tag wins. */
  function Dates(processes: seq<Process>, now: int): map<string, int> {
    if processes == [] then map[]
    else
      var p := processes[|processes| - 1];
      Dates(processes[..|processes| - 1], now)[p.tag := if p.acceptedAt.Some? then p.acceptedAt.value else now]
  }

  function SyncedProcesses(s: Store, processes: seq<Process>, now: int): map<string, Keyed.Row<IsisProcess>> {
    ShrinkReport.Synced(s.processes, ProcessEntries(processes), Keyed.Restamp, now)
  }

  lemma {:induction false} AcceptedNamed(processes: seq<Process>, now: int)
    ensures Dates(processes, now).Keys == Names(Processes(processes))
  {
    if processes != [] {
      var n := |processes| - 1;
      var short := processes[..n];
      AcceptedNamed(short, now);
      assert Processes(processes)[..n] == Processes(short);
      forall name ensures name in Names(Processes(processes)) <==> name in Names(Processes(short)) || name == processes[n].tag {
        if name in Names(Processes(short)) {
          var i :| 0 <= i < n && Processes(short)[i].name == name;
          assert Processes(processes)[i].name == name;
        }
        assert Processes(processes)[n].name == processes[n].tag;
      }
    }
  }

  /** The lookup of acceptance never misses: every statement names a process of the same payload. */
  lemma AcceptedFound(processes: seq<Process>, now: int)
    ensures R.AllDated(Statements(Processes(processes)), Dates(processes, now))
  {
    var statements := Statements(Processes(processes));
    StatementsNamed(Processes(processes));
    AcceptedNamed(processes, now);
    forall i | 0 <= i < |statements| ensures statements[i].spelling.destRef in Dates(processes, now) {
      assert statements[i] in statements;
    }
  }

  /** It is also what the process rows are stamped with. */
  lemma {:induction false} AcceptedIsRow(rows: map<string, Keyed.Row<IsisProcess>>, processes: seq<Process>, now: int, tag: string)
    requires tag in Dates(processes, now)
    ensures var synced := Keyed.Upserted(rows, ProcessEntries(processes), Keyed.Restamp, now);
      tag in synced && synced[tag].acceptedAt == Dates(processes, now)[tag]
  {
    var n := |processes| - 1;
    assert ProcessEntries(processes)[..n] == ProcessEntries(processes[..n]);
    if tag != processes[n].tag {
      AcceptedIsRow(rows, processes[..n], now, tag);
    }
  }

  // ---- one PUT ----

  /** Two entries insert the same new interface, process or level. */
  ghost predicate RepeatsRow(s: Store, payload: Payload) {
    || Keyed.Violates(s.interfaces, InterfaceEntries(payload.interfaces))
    || Keyed.Violates(s.processes, ProcessEntries(payload.processes))
    || Keyed.Violates(s.levels, LevelEntries(payload.processes))
  }

  ghost predicate Refuses<K(!new)>(s: Store, p: Put<Payload, K>) {
    var processes := Processes(p.payload.processes);
    RepeatsSource(processes, p.key) || BadSource(processes, p.admits) || RepeatsRow(s, p.payload)
  }

  /** The redistribution part, dated by the payload. */
  function Rows<K(!new)>(s: Store, p: Put<Payload, K>): Part<K> {
    Part(s.redistribution, R.Isis, p.existing, Processes(p.payload.processes), Dates(p.payload.processes, p.now), p.key)
  }

  lemma RowsReady<K(!new)>(s: Store, p: Put<Payload, K>)
    requires R.Selects(s.redistribution, R.Isis, p.existing)
    ensures Rows(s, p).Ready()
  {
    R.SelectsStored(s.redistribution, R.Isis, p.existing);
    AcceptedFound(p.payload.processes, p.now);
  }

  /** One PUT: refused, or the four collections replaced. */
  ghost function Stored<K(!new)>(s: Store, p: Put<Payload, K>): Store
    requires R.Selects(s.redistribution, R.Isis, p.existing)
  {
    if Refuses(s, p) then s
    else
      RowsReady(s, p);
      Store(ShrinkReport.Synced(s.interfaces, InterfaceEntries(p.payload.interfaces), Keyed.Restamp, p.now),
            SyncedProcesses(s, p.payload.processes, p.now),
            ShrinkReport.Synced(s.levels, LevelEntries(p.payload.processes), Keyed.Restamp, p.now),
            Rows(s, p).Result())
  }

  const INTERFACE_CLEARS: (IsisInterface, IsisInterface) -> bool := (b: IsisInterface, a: IsisInterface) => b.Clears(a)
  const PROCESS_CLEARS: (IsisProcess, IsisProcess) -> bool := (b: IsisProcess, a: IsisProcess) => b.Clears(a)
  const LEVEL_CLEARS: (IsisLevel, IsisLevel) -> bool := (b: IsisLevel, a: IsisLevel) => b.Clears(a)

  /** The shrink of an accepted PUT, collection by collection. */
  ghost predicate Tells<K(!new)>(s: Store, p: Put<Payload, K>, shrink: Shrink<(string, string)>)
    requires R.Selects(s.redistribution, R.Isis, p.existing)
  {
    RowsReady(s, p);
    var interfaces, processes := InterfaceEntries(p.payload.interfaces), ProcessEntries(p.payload.processes);
    var levels := LevelEntries(p.payload.processes);
    && shrink.interfaces == s.interfaces.Keys - Keyed.Keys(interfaces)
    && shrink.processes == s.processes.Keys - Keyed.Keys(processes)
    && (shrink.deleted <==>
          || Keyed.Deleted(s.interfaces, interfaces) || Keyed.Deleted(s.processes, processes) || Keyed.Deleted(s.levels, levels)
          || Rows(s, p).Dropped())
    && (shrink.cleared <==>
          || Keyed.Cleared(s.interfaces, interfaces, Keyed.Restamp, p.now, INTERFACE_CLEARS)
          || Keyed.Cleared(s.processes, processes, Keyed.Restamp, p.now, PROCESS_CLEARS)
          || Keyed.Cleared(s.levels, levels, Keyed.Restamp, p.now, LEVEL_CLEARS)
          || Rows(s, p).Cleared())
  }

  /** `put_isis_interface_intent`, up to the rows it stores and the removal it asks for. */
  method PutIsisIntent<K(==,!new)>(s: Store, p: Put<Payload, K>) returns (s': Store, outcome: Outcome<(string, string)>)
    requires R.Valid(s.redistribution) && R.Selects(s.redistribution, R.Isis, p.existing)
    ensures s' == Stored(s, p)
    ensures outcome.Refused? <==> Refuses(s, p)
    ensures outcome == Refused(BadSources(RepeatedSource)) <==> RepeatsSource(Processes(p.payload.processes), p.key)
    ensures outcome == Refused(BadSources(SourceRule)) <==>
      !RepeatsSource(Processes(p.payload.processes), p.key) && BadSource(Processes(p.payload.processes), p.admits)
    ensures outcome.Accepted? ==> Tells(s, p, outcome.shrink)
  {
    hide R.Selects, R.Valid, R.Exact, R.Replaced, R.Synced, R.SyncClears, R.Removed, R.Incoming, Keyed.Violates,
      Keyed.Upserted, Keyed.Keys, Keyed.Cleared, Keyed.Deleted, Keyed.Kept, BadSource, RepeatsSource, Dates, LevelEntries,
      Statements;
    var interfaceEntries, processEntries := InterfaceEntries(p.payload.interfaces), ProcessEntries(p.payload.processes);
    var levelEntries := LevelEntries(p.payload.processes);
    var fault := SourcesChecked(Processes(p.payload.processes), p.key, p.admits);
    if fault.Some? {
      assert fault.value.RepeatedSource? || fault.value.SourceRule?;
      return s, Refused(BadSources(fault.value));
    }
    var repeated0, interfaces, removed0, cleared0 :=
      Keyed.Replace(s.interfaces, interfaceEntries, Keyed.Restamp, p.now, INTERFACE_CLEARS);
    var repeated1, processes, removed1, cleared1 :=
      Keyed.Replace(s.processes, processEntries, Keyed.Restamp, p.now, PROCESS_CLEARS);
    var repeated2, levels, removed2, cleared2 := Keyed.Replace(s.levels, levelEntries, Keyed.Restamp, p.now, LEVEL_CLEARS);
    if repeated0 || repeated1 || repeated2 {
      return s, Refused(RepeatedRow);
    }
    RowsReady(s, p);
    var table := new R.Table();
    table.rows, table.next := s.redistribution.rows, s.redistribution.next;
    assert table.View() == s.redistribution;
    var missing, removed3, cleared3 :=
      table.Sync(R.Isis, p.existing, Statements(Processes(p.payload.processes)), Dates(p.payload.processes, p.now), p.key);
    s' := Store(interfaces, processes, levels, R.Store(table.rows, table.next));
    outcome := Accepted(Shrink(removed0 != {} || removed1 != {} || removed2 != {} || removed3 != [],
                               cleared0 || cleared1 || cleared2 || cleared3, removed0, removed1));
  }

  // ---- the removal a PUT asks for, against what a merge-PATCH leaves behind ----

  const INTERFACE_EMIT: IsisInterface -> map<Removal.Field, Removal.Scalar> := (r: IsisInterface) => r.Emit()
  const PROCESS_EMIT: IsisProcess -> map<Removal.Field, Removal.Scalar> := (r: IsisProcess) => r.Emit()
  const LEVEL_EMIT: IsisLevel -> map<Removal.Field, Removal.Scalar> := (r: IsisLevel) => r.Emit()

  lemma InterfaceResidueTold<K(!new)>(s: Store, p: Put<Payload, K>, shrink: Shrink<(string, string)>)
    requires R.Selects(s.redistribution, R.Isis, p.existing) && Tells(s, p, shrink)
    requires Residue(s.interfaces, InterfaceEntries(p.payload.interfaces), Keyed.Restamp, p.now, INTERFACE_EMIT)
    ensures shrink.Asked()
  {
    forall b, a ensures MergePatch.LeafDropped(INTERFACE_EMIT(b), INTERFACE_EMIT(a)) ==> INTERFACE_CLEARS(b, a) {
      IsisInterfaceExact(b, a);
    }
    ShrinkReport.NothingMissed(s.interfaces, InterfaceEntries(p.payload.interfaces), Keyed.Restamp, p.now, INTERFACE_EMIT,
                               INTERFACE_CLEARS);
    hide Part.Dropped, Part.Cleared, Keyed.Deleted, Keyed.Cleared, Keyed.Keys;
  }

  lemma LevelResidueTold<K(!new)>(s: Store, p: Put<Payload, K>, shrink: Shrink<(string, string)>)
    requires R.Selects(s.redistribution, R.Isis, p.existing) && Tells(s, p, shrink)
    requires Residue(s.levels, LevelEntries(p.payload.processes), Keyed.Restamp, p.now, LEVEL_EMIT)
    ensures shrink.Asked()
  {
    forall b, a ensures MergePatch.LeafDropped(LEVEL_EMIT(b), LEVEL_EMIT(a)) ==> LEVEL_CLEARS(b, a) {
      IsisLevelExact(b, a);
    }
    ShrinkReport.NothingMissed(s.levels, LevelEntries(p.payload.processes), Keyed.Restamp, p.now, LEVEL_EMIT, LEVEL_CLEARS);
    hide Part.Dropped, Part.Cleared, Keyed.Deleted, Keyed.Cleared, Keyed.Keys;
  }

  /** A process row that is left behind untold had a blank text that an entry dropped. */
  lemma ProcessResidueTold<K(!new)>(s: Store, p: Put<Payload, K>, shrink: Shrink<(string, string)>)
    requires R.Selects(s.redistribution, R.Isis, p.existing) && Tells(s, p, shrink)
    requires Residue(s.processes, ProcessEntries(p.payload.processes), Keyed.Restamp, p.now, PROCESS_EMIT)
    ensures shrink.Asked() || ProcessBlank(s, p)
  {
    var entries := ProcessEntries(p.payload.processes);
    ShrinkReport.ResidueHasCause(s.processes, entries, Keyed.Restamp, p.now, PROCESS_EMIT);
    hide Part.Dropped, Part.Cleared, Keyed.Keys;
    if !Keyed.Deleted(s.processes, entries) && !Keyed.Cleared(s.processes, entries, Keyed.Restamp, p.now, PROCESS_CLEARS) {
      var i: nat :| i < |entries| && ShrinkReport.DropsFound(s.processes, entries, Keyed.Restamp, p.now, PROCESS_EMIT, i);
      var found := Keyed.Upserted(Keyed.Kept(s.processes, entries), entries[..i], Keyed.Restamp, p.now)[entries[i].key].fields;
      assert !Keyed.ClearedAt(s.processes, entries, Keyed.Restamp, p.now, PROCESS_CLEARS, i);
      IsisProcessDropsIff(found, entries[i].fields);
      assert ProcessMissFound(s.processes, entries, p.now, i);
    }
  }

  /** An entry drops a blank text of the process row it finds. */
  ghost predicate ProcessBlank<K(!new)>(s: Store, p: Put<Payload, K>) {
    exists i: nat :: ProcessMissFound(s.processes, ProcessEntries(p.payload.processes), p.now, i)
  }

  /** Something of the old intent that a merge-PATCH of the new one leaves on the device. */
  ghost predicate LeavesBehind<K(!new)>(s: Store, p: Put<Payload, K>, c: S.Change<K>) {
    || Residue(s.interfaces, InterfaceEntries(p.payload.interfaces), Keyed.Restamp, p.now, INTERFACE_EMIT)
    || Residue(s.processes, ProcessEntries(p.payload.processes), Keyed.Restamp, p.now, PROCESS_EMIT)
    || Residue(s.levels, LevelEntries(p.payload.processes), Keyed.Restamp, p.now, LEVEL_EMIT)
    || c.Residue()
  }

  lemma PartTold<K(!new)>(s: Store, p: Put<Payload, K>, shrink: Shrink<(string, string)>)
    requires R.Selects(s.redistribution, R.Isis, p.existing) && Tells(s, p, shrink)
    ensures Rows(s, p).Ready() && (Rows(s, p).Dropped() || Rows(s, p).Cleared() ==> shrink.Asked())
  {
    RowsReady(s, p);
    hide Part.Dropped, Part.Cleared, Part.Ready, Keyed.Deleted, Keyed.Cleared, Keyed.Keys, Rows;
  }

  /** What the interfaces and levels leave behind is always told. */
  lemma OthersTold<K(!new)>(s: Store, p: Put<Payload, K>, shrink: Shrink<(string, string)>)
    requires R.Selects(s.redistribution, R.Isis, p.existing) && Tells(s, p, shrink)
    requires
      || Residue(s.interfaces, InterfaceEntries(p.payload.interfaces), Keyed.Restamp, p.now, INTERFACE_EMIT)
      || Residue(s.levels, LevelEntries(p.payload.processes), Keyed.Restamp, p.now, LEVEL_EMIT)
    ensures shrink.Asked()
  {
    hide Tells, Residue, R.Selects, LevelEntries;
    if Residue(s.interfaces, InterfaceEntries(p.payload.interfaces), Keyed.Restamp, p.now, INTERFACE_EMIT) {
      InterfaceResidueTold(s, p, shrink);
    } else {
      LevelResidueTold(s, p, shrink);
    }
  }

  /**
   For every accepted PUT: whatever of interfaces, processes, levels or redistribution a merge-PATCH of the new intent would leave on
   the device, the PUT asks for a removal, or else an entry dropped a blank text of the process row it found, or a stored
   redistribution text has a blank one as its last word.
   */
  lemma UntoldIsBlank<K(!new)>(s: Store, p: Put<Payload, K>, shrink: Shrink<(string, string)>, c: S.Change<K>)
    requires R.Valid(s.redistribution) && R.Selects(s.redistribution, R.Isis, p.existing) && R.Exact(R.Isis, p.key)
    requires Rows(s, p).Ready() && Rows(s, p).Rendered(c) && Tells(s, p, shrink) && LeavesBehind(s, p, c)
    ensures c.Replaces()
    ensures shrink.Asked() || ProcessBlank(s, p) || exists i: nat, m: nat :: S.MissedAt(c, i, m)
  {
    PartReplaces(Rows(s, p), c);
    PartTold(s, p, shrink);
    hide Tells, Residue, R.Selects, R.Valid, R.Exact, Part.Ready, Part.Rendered, Part.Dropped, Part.Cleared, Rows, LevelEntries,
      S.Change.Replaces, S.Change.Residue, S.Change.Reported, S.MissedAt, ProcessBlank;
    if c.Residue() && !shrink.Asked() {
      S.UnreportedIff(c);
    } else if Residue(s.processes, ProcessEntries(p.payload.processes), Keyed.Restamp, p.now, PROCESS_EMIT) {
      ProcessResidueTold(s, p, shrink);
    } else if !c.Residue() {
      OthersTold(s, p, shrink);
    }
  }

  /** An entry drops a blank text of the stored process row. */
  ghost predicate StoredBlank<K(!new)>(s: Store, p: Put<Payload, K>) {
    exists i: nat :: ProcessMissAt(s.processes, ProcessEntries(p.payload.processes), i)
  }

  /** With distinct tags, the processes leave something behind untold exactly through a blank text. */
  lemma ProcessUntoldIff<K(!new)>(s: Store, p: Put<Payload, K>, shrink: Shrink<(string, string)>)
    requires R.Selects(s.redistribution, R.Isis, p.existing) && Tells(s, p, shrink) && !shrink.Asked()
    requires Keyed.Unique(ProcessEntries(p.payload.processes))
    ensures Residue(s.processes, ProcessEntries(p.payload.processes), Keyed.Restamp, p.now, PROCESS_EMIT) <==> StoredBlank(s, p)
  {
    var rows, entries := s.processes, ProcessEntries(p.payload.processes);
    UniqueShrink(rows, entries, Keyed.Restamp, p.now, PROCESS_EMIT, PROCESS_CLEARS);
    assert !Reported(rows, entries, Keyed.Restamp, p.now, PROCESS_CLEARS);
    hide Tells, Keyed.Deleted, Keyed.Cleared, Residue, Keyed.Unique;
    forall i: nat | i < |entries|
      ensures ShrinkReport.EntryDrops(rows, entries, PROCESS_EMIT, i) <==> ProcessMissAt(rows, entries, i)
    {
      ProcessDropsIff(rows, entries, i);
    }
    assert forall i: nat :: ProcessMissAt(rows, entries, i) ==> i < |entries|;
    hide ShrinkReport.EntryDrops, ProcessMissAt;
  }

  lemma ProcessDropsIff(rows: map<string, Keyed.Row<IsisProcess>>, entries: seq<Keyed.Entry<string, IsisProcess>>, i: nat)
    requires i < |entries|
    requires Meets(rows, entries, i) ==> !PROCESS_CLEARS(rows[entries[i].key].fields, entries[i].fields)
    ensures ShrinkReport.EntryDrops(rows, entries, PROCESS_EMIT, i) <==> ProcessMissAt(rows, entries, i)
  {
    if Meets(rows, entries, i) {
      IsisProcessDropsIff(rows[entries[i].key].fields, entries[i].fields);
      hide IsisProcess.Emit, IsisProcess.Clears, ProcessMisses, ProcessCleared, ProcessIdle;
    }
  }

  /**
   With distinct tags, exactly: when no removal is asked for, something is left on the device if and only if a blank text of
   a stored process row is dropped, or a stored redistribution text has a blank one as its last word.
   */
  lemma UntoldIff<K(!new)>(s: Store, p: Put<Payload, K>, shrink: Shrink<(string, string)>, c: S.Change<K>)
    requires R.Valid(s.redistribution) && R.Selects(s.redistribution, R.Isis, p.existing) && R.Exact(R.Isis, p.key)
    requires Rows(s, p).Ready() && Rows(s, p).Rendered(c) && Tells(s, p, shrink)
    requires Keyed.Unique(ProcessEntries(p.payload.processes))
    ensures c.Replaces()
    ensures !shrink.Asked() ==>
      (LeavesBehind(s, p, c) <==> StoredBlank(s, p) || exists i: nat, m: nat :: S.MissedAt(c, i, m))
  {
    PartReplaces(Rows(s, p), c);
    PartTold(s, p, shrink);
    hide Tells, Residue, R.Selects, R.Valid, R.Exact, Part.Ready, Part.Rendered, Part.Dropped, Part.Cleared, Rows, LevelEntries,
      S.Change.Replaces, S.Change.Residue, S.Change.Reported, S.MissedAt, StoredBlank, Keyed.Unique;
    if !shrink.Asked() {
      S.UnreportedIff(c);
      ProcessUntoldIff(s, p, shrink);
      if Residue(s.interfaces, InterfaceEntries(p.payload.interfaces), Keyed.Restamp, p.now, INTERFACE_EMIT)
         || Residue(s.levels, LevelEntries(p.payload.processes), Keyed.Restamp, p.now, LEVEL_EMIT) {
        OthersTold(s, p, shrink);
      }
    }
  }

  lemma DistinctProcesses(processes: seq<Process>)
    requires Keyed.Unique(ProcessEntries(processes))
    ensures DistinctNames(Processes(processes))
  {
    assert forall i :: 0 <= i < |processes| ==> ProcessEntries(processes)[i].key == Processes(processes)[i].name;
  }

  /** An accepted PUT with distinct processes leaves exactly its statements: one row each, and no other IS-IS row. */
  lemma StatementsStored<K(!new)>(s: Store, p: Put<Payload, K>)
    requires R.Valid(s.redistribution) && R.Selects(s.redistribution, R.Isis, p.existing) && !Refuses(s, p)
    requires R.Stored(s.redistribution, p.existing) && R.Exact(R.Isis, p.key)
    requires Keyed.Unique(ProcessEntries(p.payload.processes))
    ensures R.Replaced(s.redistribution, Stored(s, p).redistribution, R.Isis, p.existing,
                       Statements(Processes(p.payload.processes)), Rows(s, p).accepted, p.key)
  {
    hide R.Exact, R.Valid, R.Replaced, R.Selects, R.Stored, Keyed.Unique, Statements, BadSource, RepeatsRow, DistinctNames,
      RepeatsSource, R.Synced, Dates;
    RowsReady(s, p);
    DistinctProcesses(p.payload.processes);
    PartStored(Rows(s, p));
  }

  // ---- rows and their parents ----

  function Parents(processes: map<string, Keyed.Row<IsisProcess>>): map<string, int> {
    map k | k in processes :: processes[k].acceptedAt
  }

  /** A PUT keeps IS-IS rows with their processes, and the rows of every other protocol as they are. */
  lemma PutKeepsParents<K(!new)>(s: Store, p: Put<Payload, K>, other: R.Protocol, others: map<string, int>)
    requires R.Valid(s.redistribution) && R.Selects(s.redistribution, R.Isis, p.existing) && R.Exact(R.Isis, p.key)
    requires Parented(R.Isis, Parents(s.processes), s.redistribution)
    ensures var s' := Stored(s, p);
      && R.Valid(s'.redistribution) && Parented(R.Isis, Parents(s'.processes), s'.redistribution)
      && (!other.Isis? && Parented(other, others, s.redistribution) ==> Parented(other, others, s'.redistribution))
  {
    hide Refuses, R.Synced, Parented, R.Valid, R.Exact, R.Selects, Dates;
    if !Refuses(s, p) {
      RowsReady(s, p);
      var synced, accepted := SyncedProcesses(s, p.payload.processes, p.now), Dates(p.payload.processes, p.now);
      forall d | d in accepted ensures d in Parents(synced) && Parents(synced)[d] == accepted[d] {
        AcceptedIsRow(Keyed.Kept(s.processes, ProcessEntries(p.payload.processes)), p.payload.processes, p.now, d);
      }
      SyncParented(s.redistribution, R.Isis, p.existing, Statements(Processes(p.payload.processes)), accepted, p.key,
                   Parents(synced), other, others);
    }
  }
}
