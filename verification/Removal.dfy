/** When a scalar of stored intent has gone from set to unset (`is_cleared`). */
module Removal {
  import opened Options

  datatype Scalar = Null | Flag(on: bool) | Number(n: int) | Text(text: string) | Listing

  datatype Table = VlanIntent | IsisInterfaceIntent | IsisProcessIntent | IsisLevelIntent
    | OspfInstanceIntent | OspfInterfaceIntent

  /** Columns of the intent tables, which double as the names of the leaves written to the device. */
  datatype Field =
    | Name
    | ProcessTag | Passive | CircuitType | NetworkType | Metric | BfdEnabled | FrrEnabled | FrrProtection
    | Net | IsType | MetricStyle | OverloadBit | AreaAuthType | AreaAuthKey | DomainAuthType | DomainAuthKey
    | FastReroute | MicroloopAvoidance
    | WideMetricsOnly | LabeledPreference | Disabled
    | RouterId | Vrf | Areas | Enabled
    | ProcessId | AreaId | Priority | Cost | AuthType | AuthKey
    | RouteMap | MetricType

  const EXPLICIT_FALSE_EMISSION_FIELDS: set<(Table, Field)> := {
    (IsisInterfaceIntent, BfdEnabled), (IsisInterfaceIntent, FrrEnabled),
    (IsisProcessIntent, OverloadBit), (IsisProcessIntent, MicroloopAvoidance),
    (IsisLevelIntent, WideMetricsOnly), (IsisLevelIntent, Disabled)
  }

  predicate IsCleared(before: Scalar, after: Scalar, emission: Option<(Table, Field)>) {
    if before == Null || before == Text("") then false
    else if before == Flag(false) then
      after == Null && emission.Some? && emission.value in EXPLICIT_FALSE_EMISSION_FIELDS
    else if after == Null then true
    else if before.Text? && after.Text? then after == Text("")
    else false
  }

  predicate Truthy(v: Scalar) {
    v.Listing? || (v.Text? && v.text != "") || (v.Number? && v.n != 0) || (v.Flag? && v.on)
  }

  function OfText(v: Option<string>): Scalar {
    match v case None => Null case Some(s) => Text(s)
  }

  function OfNumber(v: Option<int>): Scalar {
    match v case None => Null case Some(n) => Number(n)
  }

  function OfFlag(v: Option<bool>): Scalar {
    match v case None => Null case Some(b) => Flag(b)
  }
}
