/** The keyed intent tables: their columns, what the writer emits of them, and which clears are reported. */
module IntentTables {
  import opened Options
  import opened Removal
  import opened KeyedIntent
  import opened MergePatch
  import opened ShrinkReport

  /** The guard of a leaf that is written whenever its column is not null. */
  predicate IsSet(v: Scalar) {
    v != Null
  }

  /** `is_cleared` for one state field; only IS-IS names the emission field. */
  predicate FieldCleared(isis: Option<Table>, before: Scalar, after: Scalar, f: Field) {
    IsCleared(before, after, match isis case None => None case Some(t) => Some((t, f)))
  }

  // ---- VLAN ----

  const VLAN_STATE := {Name}

  datatype Vlan = Vlan(name: Option<string>) {
    function Column(f: Field): Scalar {
      match f case Name => OfText(name) case _ => Null
    }

    predicate Emits(f: Field) {
      f.Name? && Truthy(Column(f))
    }

    function Emit(): map<Field, Scalar> {
      map f: Field | Emits(f) :: Column(f)
    }

    predicate Clears(after: Vlan) {
      exists f :: f in VLAN_STATE && FieldCleared(None, Column(f), after.Column(f), f)
    }
  }

  // ---- IS-IS interfaces ----

  const ISIS_INTERFACE_STATE := {CircuitType, NetworkType, Metric, BfdEnabled, FrrEnabled, FrrProtection}

  datatype IsisInterface = IsisInterface(
    processTag: string, circuitType: Option<string>, networkType: Option<string>, metric: Option<int>,
    passive: bool, bfdEnabled: Option<bool>, frrEnabled: Option<bool>, frrProtection: Option<string>)
  {
    function Column(f: Field): Scalar {
      match f
      case ProcessTag => Text(processTag)
      case Passive => Flag(passive)
      case CircuitType => OfText(circuitType)
      case NetworkType => OfText(networkType)
      case Metric => OfNumber(metric)
      case BfdEnabled => OfFlag(bfdEnabled)
      case FrrEnabled => OfFlag(frrEnabled)
      case FrrProtection => OfText(frrProtection)
      case _ => Null
    }

    predicate Emits(f: Field) {
      match f
      case ProcessTag => true
      case Passive => true
      case CircuitType => Truthy(Column(f))
      case NetworkType => Truthy(Column(f))
      case Metric => IsSet(Column(f))
      case BfdEnabled => IsSet(Column(f))
      case FrrEnabled => IsSet(Column(f))
      case FrrProtection => Truthy(Column(f))
      case _ => false
    }

    function Emit(): map<Field, Scalar> {
      map f: Field | Emits(f) :: if f.CircuitType? then LevelName(Column(f)) else Column(f)
    }

    predicate Clears(after: IsisInterface) {
      exists f :: f in ISIS_INTERFACE_STATE && FieldCleared(Some(IsisInterfaceIntent), Column(f), after.Column(f), f)
    }
  }

  /** The level alias `level-2` is written in its YANG form. */
  function LevelName(v: Scalar): Scalar {
    if v == Text("level-2") then Text("level-2-only") else v
  }

  // ---- IS-IS levels ----

  const ISIS_LEVEL_STATE := {WideMetricsOnly, LabeledPreference, Disabled}

  datatype IsisLevel = IsisLevel(wideMetricsOnly: Option<bool>, labeledPreference: Option<int>, disabled: Option<bool>) {
    function Column(f: Field): Scalar {
      match f
      case WideMetricsOnly => OfFlag(wideMetricsOnly)
      case LabeledPreference => OfNumber(labeledPreference)
      case Disabled => OfFlag(disabled)
      case _ => Null
    }

    predicate Emits(f: Field) {
      (f.WideMetricsOnly? || f.LabeledPreference? || f.Disabled?) && IsSet(Column(f))
    }

    function Emit(): map<Field, Scalar> {
      map f: Field | Emits(f) :: Column(f)
    }

    predicate Clears(after: IsisLevel) {
      exists f :: f in ISIS_LEVEL_STATE && FieldCleared(Some(IsisLevelIntent), Column(f), after.Column(f), f)
    }
  }

  // ---- IS-IS processes ----

  const ISIS_PROCESS_STATE := {Net, IsType, MetricStyle, OverloadBit, AreaAuthType, AreaAuthKey, DomainAuthType, DomainAuthKey, FastReroute, MicroloopAvoidance}

  datatype IsisProcess = IsisProcess(
    net: Option<string>, isType: Option<string>, metricStyle: Option<string>, overloadBit: Option<bool>,
    areaAuthType: Option<string>, areaAuthKey: Option<string>,
    domainAuthType: Option<string>, domainAuthKey: Option<string>,
    fastReroute: Option<string>, microloopAvoidance: Option<bool>)
  {
    function Column(f: Field): Scalar {
      match f
      case Net => OfText(net)
      case IsType => OfText(isType)
      case MetricStyle => OfText(metricStyle)
      case OverloadBit => OfFlag(overloadBit)
      case AreaAuthType => OfText(areaAuthType)
      case AreaAuthKey => OfText(areaAuthKey)
      case DomainAuthType => OfText(domainAuthType)
      case DomainAuthKey => OfText(domainAuthKey)
      case FastReroute => OfText(fastReroute)
      case MicroloopAvoidance => OfFlag(microloopAvoidance)
      case _ => Null
    }

    predicate Emits(f: Field) {
      match f
      case Net => IsSet(Column(f))
      case IsType => Truthy(Column(f))
      case MetricStyle => Truthy(Column(f))
      case OverloadBit => IsSet(Column(f))
      case AreaAuthType => Truthy(Column(f))
      case AreaAuthKey => Truthy(Column(AreaAuthType)) && IsSet(Column(f))
      case DomainAuthType => Truthy(Column(f))
      case DomainAuthKey => Truthy(Column(DomainAuthType)) && IsSet(Column(f))
      case FastReroute => Truthy(Column(f))
      case MicroloopAvoidance => IsSet(Column(f))
      case _ => false
    }

    function Emit(): map<Field, Scalar> {
      map f: Field | Emits(f) :: if f.IsType? then LevelName(Column(f)) else Column(f)
    }

    predicate Clears(after: IsisProcess) {
      exists f :: f in ISIS_PROCESS_STATE && FieldCleared(Some(IsisProcessIntent), Column(f), after.Column(f), f)
    }
  }

  // ---- OSPF instances ----

  const OSPF_INSTANCE_STATE := {RouterId, Areas, Enabled, Vrf}

  /** `areas` is stored and compared, and never written. */
  datatype OspfInstance = OspfInstance(routerId: Option<string>, vrf: Option<string>, areas: bool, enabled: Option<bool>) {
    function Column(f: Field): Scalar {
      match f
      case RouterId => OfText(routerId)
      case Vrf => OfText(vrf)
      case Areas => if areas then Listing else Null
      case Enabled => OfFlag(enabled)
      case _ => Null
    }

    predicate Emits(f: Field) {
      match f
      case RouterId => Truthy(Column(f))
      case Vrf => Truthy(Column(f))
      case Enabled => true
      case _ => false
    }

    function Emit(): map<Field, Scalar> {
      map f: Field | Emits(f) :: if f.Enabled? && enabled.None? then Flag(true) else Column(f)
    }

    predicate Clears(after: OspfInstance) {
      exists f :: f in OSPF_INSTANCE_STATE && FieldCleared(None, Column(f), after.Column(f), f)
    }
  }

  // ---- OSPF interfaces ----

  const OSPF_INTERFACE_STATE := {Priority, Cost, NetworkType, AuthType, AuthKey}

  datatype OspfInterface = OspfInterface(
    processId: Option<string>, areaId: Option<string>, passive: bool, priority: Option<int>, cost: Option<int>,
    networkType: Option<string>, authType: Option<string>, authKey: Option<string>)
  {
    function Column(f: Field): Scalar {
      match f
      case ProcessId => OfText(processId)
      case AreaId => OfText(areaId)
      case Passive => Flag(passive)
      case Priority => OfNumber(priority)
      case Cost => OfNumber(cost)
      case NetworkType => OfText(networkType)
      case AuthType => OfText(authType)
      case AuthKey => OfText(authKey)
      case _ => Null
    }

    predicate Emits(f: Field) {
      match f
      case ProcessId => true
      case AreaId => true
      case Passive => true
      case Priority => IsSet(Column(f))
      case Cost => IsSet(Column(f))
      case NetworkType => Truthy(Column(f))
      case AuthType => Truthy(Column(f))
      case AuthKey => Truthy(Column(AuthType)) && Truthy(Column(f))
      case _ => false
    }

    function Emit(): map<Field, Scalar> {
      map f: Field | Emits(f) :: Column(f)
    }

    predicate Clears(after: OspfInterface) {
      exists f :: f in OSPF_INTERFACE_STATE && FieldCleared(None, Column(f), after.Column(f), f)
    }
  }

  // ---- rows whose report is exact ----

  lemma VlanField(before: Vlan, after: Vlan, f: Field)
    ensures before.Emits(f) && !after.Emits(f) <==>
      f in VLAN_STATE && FieldCleared(None, before.Column(f), after.Column(f), f)
  {
  }

  lemma VlanExact(before: Vlan, after: Vlan)
    ensures before.Clears(after) <==> LeafDropped(before.Emit(), after.Emit())
  {
    hide Vlan.Emits, Vlan.Column, FieldCleared;
    if before.Clears(after) {
      var f :| f in VLAN_STATE && FieldCleared(None, before.Column(f), after.Column(f), f);
      VlanField(before, after, f);
      assert f in before.Emit() && f !in after.Emit();
    }
    if f :| f in before.Emit() && f !in after.Emit() {
      VlanField(before, after, f);
    }
  }

  lemma IsisInterfaceField(before: IsisInterface, after: IsisInterface, f: Field)
    ensures before.Emits(f) && !after.Emits(f) <==>
      f in ISIS_INTERFACE_STATE && FieldCleared(Some(IsisInterfaceIntent), before.Column(f), after.Column(f), f)
  {
  }

  lemma IsisInterfaceExact(before: IsisInterface, after: IsisInterface)
    ensures before.Clears(after) <==> LeafDropped(before.Emit(), after.Emit())
  {
    hide IsisInterface.Emits, IsisInterface.Column, FieldCleared;
    if before.Clears(after) {
      var f :| f in ISIS_INTERFACE_STATE && FieldCleared(Some(IsisInterfaceIntent), before.Column(f), after.Column(f), f);
      IsisInterfaceField(before, after, f);
      assert f in before.Emit() && f !in after.Emit();
    }
    if f :| f in before.Emit() && f !in after.Emit() {
      IsisInterfaceField(before, after, f);
    }
  }

  lemma IsisLevelField(before: IsisLevel, after: IsisLevel, f: Field)
    ensures before.Emits(f) && !after.Emits(f) <==>
      f in ISIS_LEVEL_STATE && FieldCleared(Some(IsisLevelIntent), before.Column(f), after.Column(f), f)
  {
  }

  lemma IsisLevelExact(before: IsisLevel, after: IsisLevel)
    ensures before.Clears(after) <==> LeafDropped(before.Emit(), after.Emit())
  {
    hide IsisLevel.Emits, IsisLevel.Column, FieldCleared;
    if before.Clears(after) {
      var f :| f in ISIS_LEVEL_STATE && FieldCleared(Some(IsisLevelIntent), before.Column(f), after.Column(f), f);
      IsisLevelField(before, after, f);
      assert f in before.Emit() && f !in after.Emit();
    }
    if f :| f in before.Emit() && f !in after.Emit() {
      IsisLevelField(before, after, f);
    }
  }

  // ---- IS-IS processes: blank texts, and keys without their type ----

  /** The text leaves written whenever they are not null, and the type that must be set as well. */
  predicate NullGuarded(f: Field) {
    f.Net? || f.AreaAuthKey? || f.DomainAuthKey?
  }

  predicate TypeSet(r: IsisProcess, f: Field) {
    (f.AreaAuthKey? ==> Truthy(r.Column(AreaAuthType))) && (f.DomainAuthKey? ==> Truthy(r.Column(DomainAuthType)))
  }

  /** A dropped leaf `is_cleared` misses: it was written as the empty string, which counts as unset. */
  predicate ProcessMisses(before: IsisProcess, after: IsisProcess, f: Field) {
    NullGuarded(f) && TypeSet(before, f) && before.Column(f) == Text("") && after.Column(f) == Null
  }

  /** A cleared column that drops no leaf: it was not written before, or is still written as the empty string. */
  predicate ProcessIdle(before: IsisProcess, after: IsisProcess, f: Field) {
    NullGuarded(f) && (!TypeSet(before, f) || (TypeSet(after, f) && after.Column(f) == Text("")))
  }

  predicate ProcessCleared(before: IsisProcess, after: IsisProcess, f: Field) {
    f in ISIS_PROCESS_STATE && FieldCleared(Some(IsisProcessIntent), before.Column(f), after.Column(f), f)
  }

  lemma IsisProcessDrops(before: IsisProcess, after: IsisProcess, f: Field)
    ensures (ProcessCleared(before, after, f) && !ProcessIdle(before, after, f)) || ProcessMisses(before, after, f) ==>
      before.Emits(f) && !after.Emits(f)
  {
  }

  lemma IsisProcessPlainField(before: IsisProcess, after: IsisProcess, f: Field)
    requires !NullGuarded(f)
    ensures before.Emits(f) && !after.Emits(f) <==> ProcessCleared(before, after, f)
  {
  }

  lemma IsisProcessGuardedField(before: IsisProcess, after: IsisProcess, f: Field)
    requires NullGuarded(f) && before.Emits(f) && !after.Emits(f)
    ensures ProcessMisses(before, after, f) || (ProcessCleared(before, after, f) && !ProcessIdle(before, after, f))
      || (TypeSet(before, f) && !TypeSet(after, f))
  {
  }

  lemma IsisProcessType(before: IsisProcess, after: IsisProcess, f: Field)
    requires TypeSet(before, f) && !TypeSet(after, f)
    ensures ProcessCleared(before, after, AreaAuthType) || ProcessCleared(before, after, DomainAuthType)
  {
  }

  /** Exactly what the process report gets right: the dropped leaves are the missed ones and the effective clears. */
  lemma IsisProcessDropsIff(before: IsisProcess, after: IsisProcess)
    ensures LeafDropped(before.Emit(), after.Emit()) <==>
      exists f :: ProcessMisses(before, after, f)
                  || (ProcessCleared(before, after, f) && !ProcessIdle(before, after, f))
    ensures before.Clears(after) <==> exists f :: ProcessCleared(before, after, f)
  {
    hide IsisProcess.Emits, IsisProcess.Column, FieldCleared, ProcessMisses, TypeSet;
    if f :| ProcessMisses(before, after, f) || (ProcessCleared(before, after, f) && !ProcessIdle(before, after, f)) {
      IsisProcessDrops(before, after, f);
      assert f in before.Emit() && f !in after.Emit();
    }
    if f :| f in before.Emit() && f !in after.Emit() {
      if NullGuarded(f) {
        IsisProcessGuardedField(before, after, f);
        if TypeSet(before, f) && !TypeSet(after, f) {
          IsisProcessType(before, after, f);
        }
      } else {
        IsisProcessPlainField(before, after, f);
      }
    }
    if before.Clears(after) {
      var f :| f in ISIS_PROCESS_STATE && FieldCleared(Some(IsisProcessIntent), before.Column(f), after.Column(f), f);
      assert ProcessCleared(before, after, f);
    }
  }

  // ---- OSPF: never missed, sometimes reported for nothing ----

  predicate InstanceCleared(before: OspfInstance, after: OspfInstance, f: Field) {
    f in OSPF_INSTANCE_STATE && FieldCleared(None, before.Column(f), after.Column(f), f)
  }

  lemma OspfInstanceField(before: OspfInstance, after: OspfInstance, f: Field)
    ensures before.Emits(f) && !after.Emits(f) <==> InstanceCleared(before, after, f) && !f.Enabled? && !f.Areas?
  {
  }

  /** The admin state is always written and the areas never are, so clearing them drops no leaf. */
  lemma OspfInstanceDropsIff(before: OspfInstance, after: OspfInstance)
    ensures LeafDropped(before.Emit(), after.Emit()) <==>
      exists f :: InstanceCleared(before, after, f) && !f.Enabled? && !f.Areas?
    ensures before.Clears(after) <==> exists f :: InstanceCleared(before, after, f)
  {
    hide OspfInstance.Emits, OspfInstance.Column, FieldCleared;
    if f :| InstanceCleared(before, after, f) && !f.Enabled? && !f.Areas? {
      OspfInstanceField(before, after, f);
      assert f in before.Emit() && f !in after.Emit();
    }
    if f :| f in before.Emit() && f !in after.Emit() {
      OspfInstanceField(before, after, f);
    }
    if before.Clears(after) {
      var f :| f in OSPF_INSTANCE_STATE && FieldCleared(None, before.Column(f), after.Column(f), f);
      assert InstanceCleared(before, after, f);
    }
  }

  predicate InterfaceCleared(before: OspfInterface, after: OspfInterface, f: Field) {
    f in OSPF_INTERFACE_STATE && FieldCleared(None, before.Column(f), after.Column(f), f)
  }

  /** A key that was stored without a type was never written. */
  predicate InterfaceIdle(before: OspfInterface, f: Field) {
    f.AuthKey? && !Truthy(before.Column(AuthType))
  }

  lemma OspfInterfaceField(before: OspfInterface, after: OspfInterface, f: Field)
    ensures InterfaceCleared(before, after, f) && !InterfaceIdle(before, f) ==> before.Emits(f) && !after.Emits(f)
    ensures before.Emits(f) && !after.Emits(f) ==>
      InterfaceCleared(before, after, f) || InterfaceCleared(before, after, AuthType)
    ensures before.Emits(f) ==> !InterfaceIdle(before, f)
  {
  }

  lemma OspfInterfaceDropsIff(before: OspfInterface, after: OspfInterface)
    ensures LeafDropped(before.Emit(), after.Emit()) <==>
      exists f :: InterfaceCleared(before, after, f) && !InterfaceIdle(before, f)
    ensures before.Clears(after) <==> exists f :: InterfaceCleared(before, after, f)
  {
    hide OspfInterface.Emits, OspfInterface.Column, FieldCleared;
    if f :| InterfaceCleared(before, after, f) && !InterfaceIdle(before, f) {
      OspfInterfaceField(before, after, f);
      assert f in before.Emit() && f !in after.Emit();
    }
    if f :| f in before.Emit() && f !in after.Emit() {
      OspfInterfaceField(before, after, f);
      assert !InterfaceIdle(before, AuthType);
    }
    if before.Clears(after) {
      var f :| f in OSPF_INTERFACE_STATE && FieldCleared(None, before.Column(f), after.Column(f), f);
      assert InterfaceCleared(before, after, f);
    }
  }

  // ---- whole collections ----

  /** What a replacement reports to its caller as a shrink. */
  ghost predicate Reported<K(!new), F>(rows: map<K, Row<F>>, entries: seq<Entry<K, F>>, rule: Acceptance, now: int,
                                       clears: (F, F) -> bool)
  {
    Deleted(rows, entries) || Cleared(rows, entries, rule, now, clears)
  }

  /** A merge-PATCH of the new snapshot leaves something of the old one behind. */
  ghost predicate Residue<K(!new), F>(rows: map<K, Row<F>>, entries: seq<Entry<K, F>>, rule: Acceptance, now: int,
                                      emit: F -> map<Field, Scalar>)
  {
    var after := Snapshot(Synced(rows, entries, rule, now), emit);
    Merge(Snapshot(rows, emit), after) != after
  }

  /** VLANs: every residue is reported; with distinct ids nothing else is. */
  lemma VlanShrink<K(!new)>(rows: map<K, Row<Vlan>>, entries: seq<Entry<K, Vlan>>, now: int)
    ensures var clears, emit := (b: Vlan, a: Vlan) => b.Clears(a), (r: Vlan) => r.Emit();
      && (Residue(rows, entries, Restamp, now, emit) ==> Reported(rows, entries, Restamp, now, clears))
      && (Unique(entries) ==>
            (Reported(rows, entries, Restamp, now, clears) <==> Residue(rows, entries, Restamp, now, emit)))
  {
    var clears, emit := (b: Vlan, a: Vlan) => b.Clears(a), (r: Vlan) => r.Emit();
    forall b, a ensures clears(b, a) <==> LeafDropped(emit(b), emit(a)) {
      VlanExact(b, a);
    }
    NothingMissed(rows, entries, Restamp, now, emit, clears);
    if Unique(entries) {
      ShrinkIff(rows, entries, Restamp, now, emit, clears);
    }
  }

  /** IS-IS interfaces: every residue is reported; with distinct keys nothing else is. */
  lemma IsisInterfaceShrink<K(!new)>(rows: map<K, Row<IsisInterface>>, entries: seq<Entry<K, IsisInterface>>, now: int)
    ensures var clears, emit := (b: IsisInterface, a: IsisInterface) => b.Clears(a), (r: IsisInterface) => r.Emit();
      && (Residue(rows, entries, Restamp, now, emit) ==> Reported(rows, entries, Restamp, now, clears))
      && (Unique(entries) ==>
            (Reported(rows, entries, Restamp, now, clears) <==> Residue(rows, entries, Restamp, now, emit)))
  {
    var clears, emit := (b: IsisInterface, a: IsisInterface) => b.Clears(a), (r: IsisInterface) => r.Emit();
    forall b, a ensures clears(b, a) <==> LeafDropped(emit(b), emit(a)) {
      IsisInterfaceExact(b, a);
    }
    NothingMissed(rows, entries, Restamp, now, emit, clears);
    if Unique(entries) {
      ShrinkIff(rows, entries, Restamp, now, emit, clears);
    }
  }

  /** IS-IS levels: every residue is reported; with distinct keys nothing else is. */
  lemma IsisLevelShrink<K(!new)>(rows: map<K, Row<IsisLevel>>, entries: seq<Entry<K, IsisLevel>>, now: int)
    ensures var clears, emit := (b: IsisLevel, a: IsisLevel) => b.Clears(a), (r: IsisLevel) => r.Emit();
      && (Residue(rows, entries, Restamp, now, emit) ==> Reported(rows, entries, Restamp, now, clears))
      && (Unique(entries) ==>
            (Reported(rows, entries, Restamp, now, clears) <==> Residue(rows, entries, Restamp, now, emit)))
  {
    var clears, emit := (b: IsisLevel, a: IsisLevel) => b.Clears(a), (r: IsisLevel) => r.Emit();
    forall b, a ensures clears(b, a) <==> LeafDropped(emit(b), emit(a)) {
      IsisLevelExact(b, a);
    }
    NothingMissed(rows, entries, Restamp, now, emit, clears);
    if Unique(entries) {
      ShrinkIff(rows, entries, Restamp, now, emit, clears);
    }
  }

  /** Entry i finds a stored row, whose fields are these. */
  predicate Meets<K(==), F>(rows: map<K, Row<F>>, entries: seq<Entry<K, F>>, i: nat)
    requires i < |entries|
  {
    entries[i].key in rows
  }

  /** With distinct keys, residue and report both come down to the rows that the entries meet. */
  lemma UniqueShrink<K(!new), F>(rows: map<K, Row<F>>, entries: seq<Entry<K, F>>, rule: Acceptance, now: int,
                                 emit: F -> map<Field, Scalar>, clears: (F, F) -> bool)
    requires Unique(entries)
    ensures Residue(rows, entries, rule, now, emit) <==>
      Deleted(rows, entries) || exists i: nat :: i < |entries| && EntryDrops(rows, entries, emit, i)
    ensures Reported(rows, entries, rule, now, clears) <==>
      Deleted(rows, entries) || exists i :: 0 <= i < |entries| && Meets(rows, entries, i)
                                            && clears(rows[entries[i].key].fields, entries[i].fields)
  {
    MergeDiffersIff(Snapshot(rows, emit), Snapshot(Synced(rows, entries, rule, now), emit));
    DropsIff(rows, entries, rule, now, emit);
    ClearedUnique(rows, entries, rule, now, clears);
    hide Snapshot, Synced, Merge, Cleared, Deleted, Drops, EntryDrops;
    assert forall i :: 0 <= i < |entries| ==> (Meets(rows, entries, i) <==> entries[i].key in rows);
  }

  ghost predicate ProcessMissAt<K(!new)>(rows: map<K, Row<IsisProcess>>, entries: seq<Entry<K, IsisProcess>>, i: nat) {
    i < |entries| && Meets(rows, entries, i) && exists f :: ProcessMisses(rows[entries[i].key].fields, entries[i].fields, f)
  }

  ghost predicate ProcessClearAt<K(!new)>(rows: map<K, Row<IsisProcess>>, entries: seq<Entry<K, IsisProcess>>, i: nat) {
    i < |entries| && Meets(rows, entries, i) && exists f :: ProcessCleared(rows[entries[i].key].fields, entries[i].fields, f)
  }

  /** A clear that drops the leaf it is about. */
  ghost predicate ProcessEffectAt<K(!new)>(rows: map<K, Row<IsisProcess>>, entries: seq<Entry<K, IsisProcess>>, i: nat) {
    i < |entries| && Meets(rows, entries, i)
    && var before, after := rows[entries[i].key].fields, entries[i].fields;
       exists f :: ProcessCleared(before, after, f) && !ProcessIdle(before, after, f)
  }

  lemma ProcessEntry<K(!new)>(rows: map<K, Row<IsisProcess>>, entries: seq<Entry<K, IsisProcess>>, i: nat)
    requires i < |entries|
    ensures EntryDrops(rows, entries, (r: IsisProcess) => r.Emit(), i) <==>
      ProcessMissAt(rows, entries, i) || ProcessEffectAt(rows, entries, i)
    ensures Meets(rows, entries, i) && rows[entries[i].key].fields.Clears(entries[i].fields) <==> ProcessClearAt(rows, entries, i)
  {
    if entries[i].key in rows {
      IsisProcessDropsIff(rows[entries[i].key].fields, entries[i].fields);
      hide IsisProcess.Emit, IsisProcess.Clears, ProcessMisses, ProcessCleared, ProcessIdle, LeafDropped;
    }
  }

  /**
   IS-IS processes with distinct tags, exactly: residue is a deleted row, a missed blank or an effective clear; the
   report is a deleted row or any clear. The two agree exactly when a row was deleted, some clear had an effect, or
   there is a missed blank just when there is a clear.
   */
  lemma IsisProcessShrink<K(!new)>(rows: map<K, Row<IsisProcess>>, entries: seq<Entry<K, IsisProcess>>, now: int)
    requires Unique(entries)
    ensures var clears, emit := (b: IsisProcess, a: IsisProcess) => b.Clears(a), (r: IsisProcess) => r.Emit();
      var missed := exists i: nat :: ProcessMissAt(rows, entries, i);
      var cleared := exists i: nat :: ProcessClearAt(rows, entries, i);
      var effect := exists i: nat :: ProcessEffectAt(rows, entries, i);
      && (Residue(rows, entries, Restamp, now, emit) <==> Deleted(rows, entries) || missed || effect)
      && (Reported(rows, entries, Restamp, now, clears) <==> Deleted(rows, entries) || cleared)
      && ((Reported(rows, entries, Restamp, now, clears) <==> Residue(rows, entries, Restamp, now, emit)) <==>
            Deleted(rows, entries) || effect || (missed <==> cleared))
  {
    var clears, emit := (b: IsisProcess, a: IsisProcess) => b.Clears(a), (r: IsisProcess) => r.Emit();
    UniqueShrink(rows, entries, Restamp, now, emit, clears);
    forall i: nat | i < |entries|
      ensures EntryDrops(rows, entries, emit, i) <==> ProcessMissAt(rows, entries, i) || ProcessEffectAt(rows, entries, i)
      ensures Meets(rows, entries, i) && clears(rows[entries[i].key].fields, entries[i].fields) <==> ProcessClearAt(rows, entries, i)
      ensures ProcessEffectAt(rows, entries, i) ==> ProcessClearAt(rows, entries, i)
    {
      ProcessEntry(rows, entries, i);
    }
    forall i: nat | ProcessMissAt(rows, entries, i) || ProcessEffectAt(rows, entries, i) || ProcessClearAt(rows, entries, i)
      ensures i < |entries|
    {
    }
    hide Residue, Reported, Deleted, EntryDrops, ProcessMissAt, ProcessEffectAt, ProcessClearAt;
  }

  /** What entry i finds, when tags may repeat. */
  ghost predicate ProcessMissFound<K(!new)>(rows: map<K, Row<IsisProcess>>, entries: seq<Entry<K, IsisProcess>>, now: int, i: nat) {
    && i < |entries| && entries[i].key in rows
    && var found := Upserted(Kept(rows, entries), entries[..i], Restamp, now);
       entries[i].key in found && exists f :: ProcessMisses(found[entries[i].key].fields, entries[i].fields, f)
  }

  /** With repeated tags too, residue goes unreported only through a missed blank. */
  lemma IsisProcessUnreported<K(!new)>(rows: map<K, Row<IsisProcess>>, entries: seq<Entry<K, IsisProcess>>, now: int)
    ensures var clears, emit := (b: IsisProcess, a: IsisProcess) => b.Clears(a), (r: IsisProcess) => r.Emit();
      Residue(rows, entries, Restamp, now, emit) && !Reported(rows, entries, Restamp, now, clears) ==>
        exists i: nat :: ProcessMissFound(rows, entries, now, i)
  {
    var clears, emit := (b: IsisProcess, a: IsisProcess) => b.Clears(a), (r: IsisProcess) => r.Emit();
    ResidueHasCause(rows, entries, Restamp, now, emit);
    if Residue(rows, entries, Restamp, now, emit) && !Reported(rows, entries, Restamp, now, clears) {
      var i: nat :| i < |entries| && DropsFound(rows, entries, Restamp, now, emit, i);
      var found := Upserted(Kept(rows, entries), entries[..i], Restamp, now)[entries[i].key].fields;
      assert !ClearedAt(rows, entries, Restamp, now, clears, i);
      IsisProcessDropsIff(found, entries[i].fields);
      assert ProcessMissFound(rows, entries, now, i);
    }
  }

  const NO_PROCESS := IsisProcess(None, None, None, None, None, None, None, None, None, None)

  lemma BlankNetRow()
    ensures var before := NO_PROCESS.(net := Some(""));
      !before.Clears(NO_PROCESS) && LeafDropped(before.Emit(), NO_PROCESS.Emit())
  {
    var before := NO_PROCESS.(net := Some(""));
    hide IsisProcess.Clears, IsisProcess.Emit, LeafDropped;
    IsisProcessDropsIff(before, NO_PROCESS);
    assert ProcessMisses(before, NO_PROCESS, Net);
    forall f ensures !ProcessCleared(before, NO_PROCESS, f) {
    }
  }

  lemma UntypedKeyRow()
    ensures var before := NO_PROCESS.(areaAuthKey := Some("k"));
      before.Clears(NO_PROCESS) && !LeafDropped(before.Emit(), NO_PROCESS.Emit())
  {
    var before := NO_PROCESS.(areaAuthKey := Some("k"));
    hide IsisProcess.Clears, IsisProcess.Emit, LeafDropped;
    IsisProcessDropsIff(before, NO_PROCESS);
    assert ProcessCleared(before, NO_PROCESS, AreaAuthKey);
    forall f ensures !ProcessMisses(before, NO_PROCESS, f) {
    }
    forall f | ProcessCleared(before, NO_PROCESS, f) ensures ProcessIdle(before, NO_PROCESS, f) {
      assert before.Column(f) != Null;
    }
  }

  /** Such a miss: a blank `net` that is dropped goes unreported. */
  lemma BlankNetMissed(now: int)
    ensures var clears, emit := (b: IsisProcess, a: IsisProcess) => b.Clears(a), (r: IsisProcess) => r.Emit();
      var rows, entries := map[0 := Row(NO_PROCESS.(net := Some("")), 0)], [Entry(0, NO_PROCESS, None)];
      Residue(rows, entries, Restamp, now, emit) && !Reported(rows, entries, Restamp, now, clears)
  {
    var clears, emit := (b: IsisProcess, a: IsisProcess) => b.Clears(a), (r: IsisProcess) => r.Emit();
    SingleRow(NO_PROCESS.(net := Some("")), NO_PROCESS, Restamp, now, emit, clears);
    BlankNetRow();
    hide Residue, Reported, IsisProcess.Clears, IsisProcess.Emit, LeafDropped;
  }

  /** And a key that is cleared while it had no type is reported without residue. */
  lemma UntypedKeyInVain(now: int)
    ensures var clears, emit := (b: IsisProcess, a: IsisProcess) => b.Clears(a), (r: IsisProcess) => r.Emit();
      var rows, entries := map[0 := Row(NO_PROCESS.(areaAuthKey := Some("k")), 0)], [Entry(0, NO_PROCESS, None)];
      Reported(rows, entries, Restamp, now, clears) && !Residue(rows, entries, Restamp, now, emit)
  {
    var clears, emit := (b: IsisProcess, a: IsisProcess) => b.Clears(a), (r: IsisProcess) => r.Emit();
    SingleRow(NO_PROCESS.(areaAuthKey := Some("k")), NO_PROCESS, Restamp, now, emit, clears);
    UntypedKeyRow();
    hide Residue, Reported, IsisProcess.Clears, IsisProcess.Emit, LeafDropped;
  }

  /** One row replaced by one entry of the same key. */
  lemma SingleRow<F>(before: F, after: F, rule: Acceptance, now: int, emit: F -> map<Field, Scalar>, clears: (F, F) -> bool)
    ensures var rows, entries := map[0 := Row(before, 0)], [Entry(0, after, None)];
      && (Residue(rows, entries, rule, now, emit) <==> LeafDropped(emit(before), emit(after)))
      && (Reported(rows, entries, rule, now, clears) <==> clears(before, after))
  {
    var rows, entries := map[0 := Row(before, 0)], [Entry(0, after, None)];
    assert Unique(entries);
    ClearedUnique(rows, entries, rule, now, clears);
    UpsertedUnique(Kept(rows, entries), entries, rule, now, 0);
    UpsertedKeys(Kept(rows, entries), entries, rule, now);
    assert Keys(entries) == {0} by {
      assert entries[0].key == 0;
    }
    MergeDiffersIff(Snapshot(rows, emit), Snapshot(Synced(rows, entries, rule, now), emit));
  }

  ghost predicate InstanceClearAt<K(!new)>(rows: map<K, Row<OspfInstance>>, entries: seq<Entry<K, OspfInstance>>, i: nat) {
    i < |entries| && Meets(rows, entries, i) && exists f :: InstanceCleared(rows[entries[i].key].fields, entries[i].fields, f)
  }

  /** The router id or the VRF is cleared. */
  ghost predicate InstanceEffectAt<K(!new)>(rows: map<K, Row<OspfInstance>>, entries: seq<Entry<K, OspfInstance>>, i: nat) {
    i < |entries| && Meets(rows, entries, i)
    && exists f :: InstanceCleared(rows[entries[i].key].fields, entries[i].fields, f) && !f.Enabled? && !f.Areas?
  }

  lemma InstanceEntry<K(!new)>(rows: map<K, Row<OspfInstance>>, entries: seq<Entry<K, OspfInstance>>, i: nat)
    requires i < |entries|
    ensures EntryDrops(rows, entries, (r: OspfInstance) => r.Emit(), i) <==> InstanceEffectAt(rows, entries, i)
    ensures Meets(rows, entries, i) && rows[entries[i].key].fields.Clears(entries[i].fields) <==> InstanceClearAt(rows, entries, i)
  {
    if entries[i].key in rows {
      OspfInstanceDropsIff(rows[entries[i].key].fields, entries[i].fields);
      hide OspfInstance.Emit, OspfInstance.Clears, InstanceCleared, LeafDropped;
    }
  }

  /**
   OSPF instances: no residue goes unreported, with repeated ids too. With distinct ids residue is a deleted row or an
   effective clear, the report is a deleted row or any clear, and they agree exactly when a row was deleted, some clear
   had an effect or there was none.
   */
  lemma OspfInstanceShrink<K(!new)>(rows: map<K, Row<OspfInstance>>, entries: seq<Entry<K, OspfInstance>>, now: int)
    ensures var clears, emit := (b: OspfInstance, a: OspfInstance) => b.Clears(a), (r: OspfInstance) => r.Emit();
      var cleared := exists i: nat :: InstanceClearAt(rows, entries, i);
      var effect := exists i: nat :: InstanceEffectAt(rows, entries, i);
      && (Residue(rows, entries, Keep, now, emit) ==> Reported(rows, entries, Keep, now, clears))
      && (Unique(entries) ==>
            && (Residue(rows, entries, Keep, now, emit) <==> Deleted(rows, entries) || effect)
            && (Reported(rows, entries, Keep, now, clears) <==> Deleted(rows, entries) || cleared)
            && ((Reported(rows, entries, Keep, now, clears) <==> Residue(rows, entries, Keep, now, emit)) <==>
                  Deleted(rows, entries) || effect || !cleared))
  {
    var clears, emit := (b: OspfInstance, a: OspfInstance) => b.Clears(a), (r: OspfInstance) => r.Emit();
    forall b: OspfInstance, a: OspfInstance ensures LeafDropped(emit(b), emit(a)) ==> clears(b, a) {
      OspfInstanceDropsIff(b, a);
    }
    NothingMissed(rows, entries, Keep, now, emit, clears);
    if Unique(entries) {
      UniqueShrink(rows, entries, Keep, now, emit, clears);
      forall i: nat | i < |entries|
        ensures EntryDrops(rows, entries, emit, i) <==> InstanceEffectAt(rows, entries, i)
        ensures Meets(rows, entries, i) && clears(rows[entries[i].key].fields, entries[i].fields) <==> InstanceClearAt(rows, entries, i)
        ensures InstanceEffectAt(rows, entries, i) ==> InstanceClearAt(rows, entries, i)
      {
        InstanceEntry(rows, entries, i);
      }
      forall i: nat | InstanceEffectAt(rows, entries, i) || InstanceClearAt(rows, entries, i) ensures i < |entries| {
      }
      hide Residue, Reported, Deleted, EntryDrops, InstanceEffectAt, InstanceClearAt, Unique;
    }
  }

  /** Such a clear is reported although a merge would leave nothing behind. */
  lemma AdminStateInVain(now: int)
    ensures var clears, emit := (b: OspfInstance, a: OspfInstance) => b.Clears(a), (r: OspfInstance) => r.Emit();
      var before, after := OspfInstance(None, None, false, Some(true)), OspfInstance(None, None, false, None);
      var rows, entries := map[0 := Row(before, 0)], [Entry(0, after, None)];
      Reported(rows, entries, Keep, now, clears) && !Residue(rows, entries, Keep, now, emit)
  {
    hide Residue, Reported, OspfInstance.Clears, OspfInstance.Emit, LeafDropped;
    var clears, emit := (b: OspfInstance, a: OspfInstance) => b.Clears(a), (r: OspfInstance) => r.Emit();
    var before, after := OspfInstance(None, None, false, Some(true)), OspfInstance(None, None, false, None);
    SingleRow(before, after, Keep, now, emit, clears);
    OspfInstanceDropsIff(before, after);
    assert InstanceCleared(before, after, Enabled);
    forall f ensures InstanceCleared(before, after, f) ==> f.Enabled? {
    }
  }

  ghost predicate InterfaceClearAt<K(!new)>(rows: map<K, Row<OspfInterface>>, entries: seq<Entry<K, OspfInterface>>, i: nat) {
    i < |entries| && Meets(rows, entries, i) && exists f :: InterfaceCleared(rows[entries[i].key].fields, entries[i].fields, f)
  }

  /** Something other than a key without its type is cleared. */
  ghost predicate InterfaceEffectAt<K(!new)>(rows: map<K, Row<OspfInterface>>, entries: seq<Entry<K, OspfInterface>>, i: nat) {
    i < |entries| && Meets(rows, entries, i)
    && var before, after := rows[entries[i].key].fields, entries[i].fields;
       exists f :: InterfaceCleared(before, after, f) && !InterfaceIdle(before, f)
  }

  lemma InterfaceEntry<K(!new)>(rows: map<K, Row<OspfInterface>>, entries: seq<Entry<K, OspfInterface>>, i: nat)
    requires i < |entries|
    ensures EntryDrops(rows, entries, (r: OspfInterface) => r.Emit(), i) <==> InterfaceEffectAt(rows, entries, i)
    ensures Meets(rows, entries, i) && rows[entries[i].key].fields.Clears(entries[i].fields) <==> InterfaceClearAt(rows, entries, i)
  {
    if entries[i].key in rows {
      OspfInterfaceDropsIff(rows[entries[i].key].fields, entries[i].fields);
      hide OspfInterface.Emit, OspfInterface.Clears, InterfaceCleared, InterfaceIdle, LeafDropped;
    }
  }

  /** OSPF interfaces: the same, where the only clear without effect is that of a key stored without its type. */
  lemma OspfInterfaceShrink<K(!new)>(rows: map<K, Row<OspfInterface>>, entries: seq<Entry<K, OspfInterface>>, now: int)
    ensures var clears, emit := (b: OspfInterface, a: OspfInterface) => b.Clears(a), (r: OspfInterface) => r.Emit();
      var cleared := exists i: nat :: InterfaceClearAt(rows, entries, i);
      var effect := exists i: nat :: InterfaceEffectAt(rows, entries, i);
      && (Residue(rows, entries, Keep, now, emit) ==> Reported(rows, entries, Keep, now, clears))
      && (Unique(entries) ==>
            && (Residue(rows, entries, Keep, now, emit) <==> Deleted(rows, entries) || effect)
            && (Reported(rows, entries, Keep, now, clears) <==> Deleted(rows, entries) || cleared)
            && ((Reported(rows, entries, Keep, now, clears) <==> Residue(rows, entries, Keep, now, emit)) <==>
                  Deleted(rows, entries) || effect || !cleared))
  {
    var clears, emit := (b: OspfInterface, a: OspfInterface) => b.Clears(a), (r: OspfInterface) => r.Emit();
    forall b: OspfInterface, a: OspfInterface ensures LeafDropped(emit(b), emit(a)) ==> clears(b, a) {
      OspfInterfaceDropsIff(b, a);
    }
    NothingMissed(rows, entries, Keep, now, emit, clears);
    if Unique(entries) {
      UniqueShrink(rows, entries, Keep, now, emit, clears);
      forall i: nat | i < |entries|
        ensures EntryDrops(rows, entries, emit, i) <==> InterfaceEffectAt(rows, entries, i)
        ensures Meets(rows, entries, i) && clears(rows[entries[i].key].fields, entries[i].fields) <==> InterfaceClearAt(rows, entries, i)
        ensures InterfaceEffectAt(rows, entries, i) ==> InterfaceClearAt(rows, entries, i)
      {
        InterfaceEntry(rows, entries, i);
      }
      forall i: nat | InterfaceEffectAt(rows, entries, i) || InterfaceClearAt(rows, entries, i) ensures i < |entries| {
      }
      hide Residue, Reported, Deleted, EntryDrops, InterfaceEffectAt, InterfaceClearAt, Unique;
    }
  }
}
