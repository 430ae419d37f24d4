/**
 The runtime accessors of the GridBOSS (MID device): per-phase readings,
 None-aware aggregates over the two phases, the AC-couple power selection
 for the smart ports, and the defaults when no runtime has been fetched.

 The `midboxData` record is a map from field name to raw integer; a field
 that is missing or `None` is absent from the map. Scaling of voltages,
 currents and frequencies (`scale_mid_*`) is a parameter, since its
 definition is not part of this model; energies divide by ten exactly.
 */
module MidRuntime {
  import opened Wrappers
  import Decimal

  /** The `midboxData` part of a runtime response. */
  datatype MidboxData = MidboxData(values: map<string, int>, serverTime: string, deviceTime: string)

  /** A fetched runtime; `isOffGrid` is `None` when the attribute is missing or `None`. */
  datatype MidboxRuntime = MidboxRuntime(midbox: MidboxData, fwCode: string, isOffGrid: Option<bool>)

  /** A phase of the split-phase system, written `L1`/`L2` in field names. */
  datatype Phase = L1 | L2 {
    function Name(): string {
      match this
      case L1 => "L1"
      case L2 => "L2"
    }
  }

  // ---- None-aware sums ----

  /** Every reading is missing. */
  predicate AllNone(vs: seq<Option<int>>) {
    forall i :: 0 <= i < |vs| ==> vs[i].None?
  }

  /** The readings that are present, in order. */
  function Present(vs: seq<Option<int>>): (ps: seq<int>)
    ensures |ps| <= |vs|
    ensures |ps| == 0 <==> AllNone(vs)
  {
    if vs == [] then []
    else (match vs[0] case Some(v) => [v] case None => []) + Present(vs[1..])
  }

  function Sum(xs: seq<int>): int {
    if xs == [] then 0 else xs[0] + Sum(xs[1..])
  }

  /** The readings with a missing one counted as 0. */
  function ZeroFilled(vs: seq<Option<int>>): (zs: seq<int>)
    ensures |zs| == |vs|
    ensures forall i :: 0 <= i < |vs| ==> zs[i] == vs[i].GetOr(0)
  {
    seq(|vs|, i requires 0 <= i < |vs| => vs[i].GetOr(0))
  }

  /** `_safe_sum(*values)`: `None` when every value is `None`, else the sum of the present ones. */
  function SafeSum(vs: seq<Option<int>>): (r: Option<int>)
    ensures r.None? <==> AllNone(vs)
  {
    if AllNone(vs) then None else Some(Sum(Present(vs)))
  }

  /** Summing the present readings is summing with missing ones read as 0. */
  lemma {:induction false} SumPresentIsZeroFilled(vs: seq<Option<int>>)
    ensures Sum(Present(vs)) == Sum(ZeroFilled(vs))
    decreases |vs|
  {
    if vs != [] {
      SumPresentIsZeroFilled(vs[1..]);
      assert ZeroFilled(vs)[1..] == ZeroFilled(vs[1..]);
      var rest := Present(vs[1..]);
      match vs[0]
      case Some(v) =>
        assert ([v] + rest)[1..] == rest;
      case None =>
        assert [] + rest == rest;
    }
  }

  /** `_safe_sum` is `None` exactly when all values are, and otherwise the sum
      that treats each `None` as 0. */
  lemma SafeSumValue(vs: seq<Option<int>>)
    ensures SafeSum(vs).None? <==> AllNone(vs)
    ensures SafeSum(vs).Some? ==> SafeSum(vs).value == Sum(ZeroFilled(vs))
  {
    SumPresentIsZeroFilled(vs);
  }

  /** The two-phase case every aggregate uses. */
  lemma SafeSumPair(a: Option<int>, b: Option<int>)
    ensures SafeSum([a, b]).None? <==> a.None? && b.None?
    ensures SafeSum([a, b]).Some? ==> SafeSum([a, b]).value == a.GetOr(0) + b.GetOr(0)
  {
    var vs := [a, b];
    SafeSumValue(vs);
    assert vs[0] == a && vs[1] == b;
    assert AllNone(vs) <==> a.None? && b.None?;
    var zs := ZeroFilled(vs);
    assert zs == [a.GetOr(0), b.GetOr(0)];
    assert zs[1..] == [b.GetOr(0)] && zs[1..][1..] == [];
    assert Sum([b.GetOr(0)]) == b.GetOr(0) + Sum([]);
    assert Sum(zs) == zs[0] + Sum(zs[1..]);
  }

  // ---- Field access ----

  /** A raw field of `midboxData`, `None` without a runtime. */
  function Field(rt: Option<MidboxRuntime>, name: string): (r: Option<int>)
    ensures rt.None? ==> r.None?
    ensures rt.Some? && name in rt.value.midbox.values ==> r == Some(rt.value.midbox.values[name])
    ensures rt.Some? && name !in rt.value.midbox.values ==> r.None?
  {
    match rt
    case None => None
    case Some(runtime) => if name in runtime.midbox.values then Some(runtime.midbox.values[name]) else None
  }

  /** A voltage, current or frequency: the raw field passed through the
      scaling function when present. */
  function ScaledField(rt: Option<MidboxRuntime>, name: string, scale: int -> real): (r: Option<real>)
    ensures r.Some? <==> Field(rt, name).Some?
    ensures r.Some? ==> r.value == scale(Field(rt, name).value)
  {
    match Field(rt, name)
    case None => None
    case Some(v) => Some(scale(v))
  }

  /** One phase of a power reading, e.g. `gridL1ActivePower` for stem `grid`. */
  function LegPower(rt: Option<MidboxRuntime>, stem: string, phase: Phase): Option<int> {
    Field(rt, stem + phase.Name() + "ActivePower")
  }

  /** `grid_power`, `load_power`, `generator_power`, `ups_power`,
      `smart_loadN_power`: both phases through `_safe_sum`. */
  function TotalPower(rt: Option<MidboxRuntime>, stem: string): (r: Option<int>)
    ensures rt.None? ==> r.None?
    ensures r.None? <==> LegPower(rt, stem, L1).None? && LegPower(rt, stem, L2).None?
    ensures r.Some? ==> r.value == LegPower(rt, stem, L1).GetOr(0) + LegPower(rt, stem, L2).GetOr(0)
  {
    if rt.None? then None
    else
      SafeSumPair(LegPower(rt, stem, L1), LegPower(rt, stem, L2));
      SafeSum([LegPower(rt, stem, L1), LegPower(rt, stem, L2)])
  }

  // ---- AC couple on the smart ports ----

  function SmartPortStatus(rt: Option<MidboxRuntime>, port: int): Option<int> {
    Field(rt, "smartPort" + Decimal.IntToString(port) + "Status")
  }

  function SmartLoadPower(rt: Option<MidboxRuntime>, port: int, phase: Phase): Option<int> {
    Field(rt, "smartLoad" + Decimal.IntToString(port) + phase.Name() + "ActivePower")
  }

  function AcCoupleField(rt: Option<MidboxRuntime>, port: int, phase: Phase): Option<int> {
    Field(rt, "acCouple" + Decimal.IntToString(port) + phase.Name() + "ActivePower")
  }

  /**
   `_get_ac_couple_power(port, phase)`: a port in AC-couple mode (status 2)
   reports its smart-load reading; a port without status (or status 0) with
   a non-zero smart-load reading reports that too; every other port reports
   its own AC-couple field.
   */
  function AcCouplePower(rt: Option<MidboxRuntime>, port: int, phase: Phase): (r: Option<int>)
    ensures rt.None? ==> r.None?
    ensures r == SmartLoadPower(rt, port, phase) || r == AcCoupleField(rt, port, phase)
    ensures SmartPortStatus(rt, port) == Some(2) ==> r == SmartLoadPower(rt, port, phase)
  {
    if rt.None? then None
    else
      var status := SmartPortStatus(rt, port);
      var smartLoad := SmartLoadPower(rt, port, phase);
      if status == Some(2) then smartLoad
      else if (status.None? || status == Some(0)) && smartLoad.Some? && smartLoad.value != 0 then smartLoad
      else AcCoupleField(rt, port, phase)
  }

  /** Without a port status, a live smart-load reading is what the AC couple reports. */
  lemma AcCoupleLocalMode(rt: Option<MidboxRuntime>, port: int, phase: Phase)
    requires SmartPortStatus(rt, port).None? || SmartPortStatus(rt, port) == Some(0)
    requires SmartLoadPower(rt, port, phase).Some? && SmartLoadPower(rt, port, phase).value != 0
    ensures AcCouplePower(rt, port, phase) == SmartLoadPower(rt, port, phase)
  {
  }

  /** A port in any mode other than AC couple, or an idle one, reports its
      own AC-couple field. */
  lemma AcCoupleOtherwise(rt: Option<MidboxRuntime>, port: int, phase: Phase)
    requires rt.Some?
    requires SmartPortStatus(rt, port) != Some(2)
    requires (SmartPortStatus(rt, port).Some? && SmartPortStatus(rt, port) != Some(0)) ||
             SmartLoadPower(rt, port, phase).None? || SmartLoadPower(rt, port, phase) == Some(0)
    ensures AcCouplePower(rt, port, phase) == AcCoupleField(rt, port, phase)
  {
  }

  /** `ac_coupleN_power`: both phases of the selection through `_safe_sum`. */
  function AcCoupleTotal(rt: Option<MidboxRuntime>, port: int): (r: Option<int>)
    ensures r.None? <==> AcCouplePower(rt, port, L1).None? && AcCouplePower(rt, port, L2).None?
    ensures r.Some? ==> r.value == AcCouplePower(rt, port, L1).GetOr(0) + AcCouplePower(rt, port, L2).GetOr(0)
  {
    SafeSumPair(AcCouplePower(rt, port, L1), AcCouplePower(rt, port, L2));
    SafeSum([AcCouplePower(rt, port, L1), AcCouplePower(rt, port, L2)])
  }

  /** A port in AC-couple mode totals exactly what its smart-load total reports. */
  lemma AcCoupleTotalInAcCoupleMode(rt: Option<MidboxRuntime>, port: int)
    requires SmartPortStatus(rt, port) == Some(2)
    ensures AcCoupleTotal(rt, port) == TotalPower(rt, "smartLoad" + Decimal.IntToString(port))
  {
    var stem := "smartLoad" + Decimal.IntToString(port);
    assert stem + L1.Name() + "ActivePower" == "smartLoad" + Decimal.IntToString(port) + L1.Name() + "ActivePower";
    assert stem + L2.Name() + "ActivePower" == "smartLoad" + Decimal.IntToString(port) + L2.Name() + "ActivePower";
  }

  // ---- Energies ----

  /** One phase of an energy counter in kWh, e.g. `eUpsTodayL1 / 10` for stem `eUpsToday`. */
  function EnergyLeg(rt: Option<MidboxRuntime>, stem: string, phase: Phase): (r: Option<real>)
    ensures r.Some? <==> Field(rt, stem + phase.Name()).Some?
    ensures r.Some? ==> r.value * 10.0 == Field(rt, stem + phase.Name()).value as real
  {
    match Field(rt, stem + phase.Name())
    case None => None
    case Some(v) => Some(v as real / 10.0)
  }

  /** `_sum_energy(l1, l2)`: `None` when both are, else the sum with a missing leg as 0. */
  function SumEnergy(l1: Option<real>, l2: Option<real>): (r: Option<real>)
    ensures r.None? <==> l1.None? && l2.None?
    ensures r.Some? ==> r.value == l1.GetOr(0.0) + l2.GetOr(0.0)
  {
    if l1.None? && l2.None? then None else Some(l1.GetOr(0.0) + l2.GetOr(0.0))
  }

  /** `e_ups_today`, `e_to_grid_total`, ...: the two legs through `_sum_energy`. */
  function EnergyTotal(rt: Option<MidboxRuntime>, stem: string): Option<real> {
    SumEnergy(EnergyLeg(rt, stem, L1), EnergyLeg(rt, stem, L2))
  }

  /** An energy total is the safe sum of the raw legs, divided by ten. */
  lemma EnergyTotalIsScaledSafeSum(rt: Option<MidboxRuntime>, stem: string)
    ensures var raw := SafeSum([Field(rt, stem + L1.Name()), Field(rt, stem + L2.Name())]);
      && (EnergyTotal(rt, stem).None? <==> raw.None?)
      && (raw.Some? ==> EnergyTotal(rt, stem).value * 10.0 == raw.value as real)
  {
    SafeSumPair(Field(rt, stem + L1.Name()), Field(rt, stem + L2.Name()));
  }

  // ---- Status and info ----

  function ServerTime(rt: Option<MidboxRuntime>): string {
    match rt
    case None => ""
    case Some(runtime) => runtime.midbox.serverTime
  }

  function DeviceTime(rt: Option<MidboxRuntime>): string {
    match rt
    case None => ""
    case Some(runtime) => runtime.midbox.deviceTime
  }

  function FirmwareVersion(rt: Option<MidboxRuntime>): string {
    match rt
    case None => ""
    case Some(runtime) => runtime.fwCode
  }

  function HasData(rt: Option<MidboxRuntime>): bool {
    rt.Some?
  }

  /** `bool(getattr(runtime, "isOffGrid", False))`. */
  function IsOffGrid(rt: Option<MidboxRuntime>): bool {
    match rt
    case None => false
    case Some(runtime) => runtime.isOffGrid == Some(true)
  }

  /** Without a runtime every numeric accessor is `None`, the strings are
      empty and the flags are false. */
  lemma NoRuntimeDefaults(name: string, stem: string, port: int, phase: Phase, scale: int -> real)
    ensures Field(None, name).None? && ScaledField(None, name, scale).None?
    ensures TotalPower(None, stem).None? && AcCouplePower(None, port, phase).None?
    ensures AcCoupleTotal(None, port).None? && EnergyLeg(None, stem, phase).None? && EnergyTotal(None, stem).None?
    ensures ServerTime(None) == "" && DeviceTime(None) == "" && FirmwareVersion(None) == ""
    ensures !HasData(None) && !IsOffGrid(None)
  {
  }
}
