/**
 The runtime accessors of an inverter: every reading prefers the local
 transport data (Modbus or dongle) and falls back to the cloud (HTTP)
 runtime, with a few derived readings computed on the transport path.

 Transport data is a map from attribute name to its value, already scaled;
 a missing or `None` attribute is absent. The HTTP runtime keeps its raw
 optional integer fields in a map and the always-present fields the
 accessors read directly as fields. Python floats are modelled as exact
 reals; `scale_runtime_value` is a parameter, since its definition is not
 part of this model.
 */
module InverterRuntime {
  import opened Wrappers

  datatype TransportRuntime = TransportRuntime(values: map<string, real>)

  datatype HttpRuntime = HttpRuntime(
    values: map<string, int>,
    lost: bool,
    usingGenerator: bool,   // `_12KUsingGenerator`
    acCouplePower: int,
    pEpsL1N: int,
    pEpsL2N: int)

  /** The two sources an inverter may hold. */
  datatype Sources = Sources(transport: Option<TransportRuntime>, http: Option<HttpRuntime>)

  /** Python's `int(x)` on a float: truncation toward zero. */
  function Trunc(x: real): (n: int)
    ensures x >= 0.0 ==> n >= 0 && n as real <= x < n as real + 1.0
    ensures x < 0.0 ==> n <= 0 && n as real - 1.0 < x <= n as real
  {
    if x >= 0.0 then x.Floor else -((-x).Floor)
  }

  /** `getattr(tr, attr, None)`. */
  function TransportValue(tr: TransportRuntime, attr: string): Option<real> {
    if attr in tr.values then Some(tr.values[attr]) else None
  }

  function HttpValue(h: HttpRuntime, field: string): Option<int> {
    if field in h.values then Some(h.values[field]) else None
  }

  /** Python truthiness of an optional number: present and non-zero. */
  predicate Truthy(v: Option<real>) {
    v.Some? && v.value != 0.0
  }

  // ---- Source precedence ----

  /** `_raw_float(transport_attr, http_field)`. */
  function RawFloat(src: Sources, attr: string, field: string): (r: Option<real>)
    ensures src.transport.Some? ==> r == TransportValue(src.transport.value, attr)
    ensures src.transport.None? && src.http.Some? && HttpValue(src.http.value, field).Some? ==>
      r == Some(HttpValue(src.http.value, field).value as real)
    ensures src.transport.None? && (src.http.None? || HttpValue(src.http.value, field).None?) ==> r.None?
  {
    match src.transport
    case Some(tr) => TransportValue(tr, attr)
    case None =>
      match src.http
      case None => None
      case Some(h) => match HttpValue(h, field) case None => None case Some(v) => Some(v as real)
  }

  /** `_raw_int(transport_attr, http_field)`: the transport value truncated by `int()`. */
  function RawInt(src: Sources, attr: string, field: string): (r: Option<int>)
    ensures r.Some? <==> RawFloat(src, attr, field).Some?
    ensures r.Some? ==> r.value == Trunc(RawFloat(src, attr, field).value)
  {
    match src.transport
    case Some(tr) => (match TransportValue(tr, attr) case None => None case Some(v) => Some(Trunc(v)))
    case None =>
      match src.http
      case None => None
      case Some(h) => HttpValue(h, field)
  }

  /** `_scaled_float(transport_attr, http_field)`: scaling applies on the HTTP path only. */
  function ScaledFloat(src: Sources, attr: string, field: string, scale: (string, int) -> real): (r: Option<real>)
    ensures src.transport.Some? ==> r == TransportValue(src.transport.value, attr)
    ensures src.transport.None? ==> (r.Some? <==> src.http.Some? && HttpValue(src.http.value, field).Some?)
    ensures src.transport.None? && r.Some? ==> r.value == scale(field, HttpValue(src.http.value, field).value)
  {
    match src.transport
    case Some(tr) => TransportValue(tr, attr)
    case None =>
      match src.http
      case None => None
      case Some(h) => match HttpValue(h, field) case None => None case Some(v) => Some(scale(field, v))
  }

  /** With transport data present the HTTP runtime is never consulted, and
      without it the transport attribute name is irrelevant. */
  lemma SourcePrecedence(tr: TransportRuntime, h1: Option<HttpRuntime>, h2: Option<HttpRuntime>,
                         attr: string, field: string, scale: (string, int) -> real)
    ensures RawInt(Sources(Some(tr), h1), attr, field) == RawInt(Sources(Some(tr), h2), attr, field)
    ensures RawFloat(Sources(Some(tr), h1), attr, field) == RawFloat(Sources(Some(tr), h2), attr, field)
    ensures ScaledFloat(Sources(Some(tr), h1), attr, field, scale) == ScaledFloat(Sources(Some(tr), h2), attr, field, scale)
    ensures RawInt(Sources(None, h1), attr, field) == RawInt(Sources(None, h1), "", field)
    ensures RawInt(Sources(None, None), attr, field).None? && ScaledFloat(Sources(None, None), attr, field, scale).None?
  {
  }

  // ---- Battery and consumption ----

  /** `battery_power`: charge minus discharge on the transport path, `None`
      if either is missing; the cloud's `batPower` otherwise. */
  function BatteryPower(src: Sources): (r: Option<int>)
    ensures src.transport.Some? ==>
      var tr := src.transport.value;
      var c, d := TransportValue(tr, "battery_charge_power"), TransportValue(tr, "battery_discharge_power");
      && (r.Some? <==> c.Some? && d.Some?)
      && (r.Some? ==> r.value == Trunc(c.value) - Trunc(d.value))
    ensures src.transport.None? ==> r == RawInt(src, "", "batPower")
  {
    match src.transport
    case Some(tr) =>
      var c, d := TransportValue(tr, "battery_charge_power"), TransportValue(tr, "battery_discharge_power");
      if c.None? || d.None? then None else Some(Trunc(c.value) - Trunc(d.value))
    case None =>
      match src.http
      case None => None
      case Some(h) => HttpValue(h, "batPower")
  }

  /** `int(v or 0)`. */
  function IntOrZero(v: Option<real>): int {
    match v
    case None => 0
    case Some(x) => Trunc(x)
  }

  /** The five transport readings the energy balance uses. */
  function BalanceInputs(tr: TransportRuntime): seq<Option<real>> {
    [TransportValue(tr, "pv_total_power"), TransportValue(tr, "power_from_grid"), TransportValue(tr, "power_to_grid"),
     TransportValue(tr, "battery_discharge_power"), TransportValue(tr, "battery_charge_power")]
  }

  /** pv + (discharge - charge) + import - export, each truncated, a missing one as 0. */
  function Balance(tr: TransportRuntime): int {
    IntOrZero(TransportValue(tr, "pv_total_power"))
    + (IntOrZero(TransportValue(tr, "battery_discharge_power")) - IntOrZero(TransportValue(tr, "battery_charge_power")))
    + IntOrZero(TransportValue(tr, "power_from_grid"))
    - IntOrZero(TransportValue(tr, "power_to_grid"))
  }

  /** `consumption_power`: on the transport path the energy balance clamped at
      0, or `None` when all five inputs are missing; the cloud's figure otherwise. */
  function ConsumptionPower(src: Sources): (r: Option<int>)
    ensures src.transport.Some? ==>
      && (r.None? <==> forall i :: 0 <= i < 5 ==> BalanceInputs(src.transport.value)[i].None?)
      && (r.Some? ==> r.value >= 0 && r.value >= Balance(src.transport.value))
      && (r.Some? ==> r.value == 0 || r.value == Balance(src.transport.value))
    ensures src.transport.None? ==> r == RawInt(src, "", "consumptionPower")
  {
    match src.transport
    case Some(tr) =>
      var ins := BalanceInputs(tr);
      if ins[0].None? && ins[1].None? && ins[2].None? && ins[3].None? && ins[4].None? then None
      else
        var b := Balance(tr);
        Some(if b > 0 then b else 0)
    case None =>
      match src.http
      case None => None
      case Some(h) => HttpValue(h, "consumptionPower")
  }

  /** When both battery readings are present, consumption is the clamped
      pv + import - export - battery_power: the balance counts battery power
      with the opposite sign to `battery_power`. */
  lemma ConsumptionUsesBatteryPower(src: Sources)
    requires src.transport.Some?
    requires BatteryPower(src).Some?
    ensures var tr := src.transport.value;
      var net := IntOrZero(TransportValue(tr, "pv_total_power")) + IntOrZero(TransportValue(tr, "power_from_grid"))
        - IntOrZero(TransportValue(tr, "power_to_grid")) - BatteryPower(src).value;
      ConsumptionPower(src) == Some(if net > 0 then net else 0)
  {
  }

  // ---- Generator and AC couple ----

  /** `is_using_generator`. */
  function IsUsingGenerator(src: Sources): (b: bool)
    ensures src.transport.Some? ==>
      (b <==> TransportValue(src.transport.value, "generator_power").Some? &&
              TransportValue(src.transport.value, "generator_power").value >= 1.0)
    ensures src.transport.None? && src.http.None? ==> !b
    ensures src.transport.None? && src.http.Some? ==> b == src.http.value.usingGenerator
  {
    match src.transport
    case Some(tr) =>
      var v := TransportValue(tr, "generator_power");
      v.Some? && Trunc(v.value) > 0
    case None =>
      match src.http
      case None => false
      case Some(h) => h.usingGenerator
  }

  /** `ac_couple_power`: the generator power on the transport path, 0 when missing. */
  function AcCouplePower(src: Sources): (p: int)
    ensures src.transport.Some? && TransportValue(src.transport.value, "generator_power").None? ==> p == 0
    ensures src.transport.Some? ==> p == RawInt(src, "generator_power", "").GetOr(0)
    ensures src.transport.None? && src.http.None? ==> p == 0
    ensures src.transport.None? && src.http.Some? ==> p == src.http.value.acCouplePower
  {
    match src.transport
    case Some(tr) => IntOrZero(TransportValue(tr, "generator_power"))
    case None =>
      match src.http
      case None => 0
      case Some(h) => h.acCouplePower
  }

  /** On the transport path the generator counts as in use exactly when the
      AC-couple power it reports is positive. */
  lemma GeneratorInUseIffAcCouplePositive(src: Sources)
    requires src.transport.Some?
    ensures IsUsingGenerator(src) <==> AcCouplePower(src) > 0
  {
  }

  /** `is_lost`. */
  function IsLost(src: Sources): (b: bool)
    ensures src.transport.Some? ==> !b
    ensures src.transport.None? && src.http.None? ==> b
    ensures src.transport.None? && src.http.Some? ==> b == src.http.value.lost
  {
    match src.transport
    case Some(_) => false
    case None =>
      match src.http
      case None => true
      case Some(h) => h.lost
  }

  // ---- EPS per-leg power ----

  datatype Leg = LegOne | LegTwo

  /** `total * (own / sum)`, the leg's voltage share of the total. */
  function Share(total: real, own: real, sum: real): real
    requires sum != 0.0
  {
    total * own / sum
  }

  /**
   `_compute_eps_leg_power(leg)` as written: with both leg voltages truthy and
   a positive sum, the leg's voltage share of the total, truncated; otherwise
   half the total if the other leg's voltage is truthy, and the whole total
   if it is not.
   */
  function ComputeEpsLegPower(tr: Option<TransportRuntime>, leg: Leg): (p: int)
    ensures tr.None? || TransportValue(tr.value, "eps_power").None? ==> p == 0
  {
    match tr
    case None => 0
    case Some(t) =>
      match TransportValue(t, "eps_power")
      case None => 0
      case Some(total) =>
        var v1, v2 := TransportValue(t, "eps_l1_voltage"), TransportValue(t, "eps_l2_voltage");
        if Truthy(v1) && Truthy(v2) && v1.value + v2.value > 0.0 then
          var share := if leg == LegOne then v1.value else v2.value;
          Trunc(Share(total, share, v1.value + v2.value))
        else
          var other := if leg == LegOne then v2 else v1;
          if Truthy(other) then Trunc(total / 2.0) else Trunc(total)
  }

  /** `eps_power_l1` / `eps_power_l2`: computed on the transport path, the
      cloud's `pEpsL1N` / `pEpsL2N` otherwise, 0 with no data. */
  function EpsLegPower(src: Sources, leg: Leg): (p: int)
    ensures src.transport.Some? ==> p == ComputeEpsLegPower(src.transport, leg)
    ensures src.transport.None? && src.http.None? ==> p == 0
    ensures src.transport.None? && src.http.Some? ==>
      p == (if leg == LegOne then src.http.value.pEpsL1N else src.http.value.pEpsL2N)
  {
    match src.transport
    case Some(_) => ComputeEpsLegPower(src.transport, leg)
    case None =>
      match src.http
      case None => 0
      case Some(h) => if leg == LegOne then h.pEpsL1N else h.pEpsL2N
  }

  /** The transport runtime with a given EPS power and leg voltages. */
  function EpsSample(total: real, v1: Option<real>, v2: Option<real>): TransportRuntime {
    var base := map["eps_power" := total];
    var withV1 := match v1 case Some(x) => base["eps_l1_voltage" := x] case None => base;
    TransportRuntime(match v2 case Some(x) => withV1["eps_l2_voltage" := x] case None => withV1)
  }

  lemma EpsSampleValues(total: real, v1: Option<real>, v2: Option<real>)
    ensures TransportValue(EpsSample(total, v1, v2), "eps_power") == Some(total)
    ensures TransportValue(EpsSample(total, v1, v2), "eps_l1_voltage") == v1
    ensures TransportValue(EpsSample(total, v1, v2), "eps_l2_voltage") == v2
  {
  }

  /** `a` and `b` split a non-negative whole: truncating both loses at most
      one, and nothing at all when one part is negative. */
  lemma TruncSplit(a: real, b: real, total: int)
    requires total >= 0 && a + b == total as real
    ensures total - 1 <= Trunc(a) + Trunc(b) <= total
    ensures a < 0.0 || b < 0.0 ==> Trunc(a) + Trunc(b) == total
  {
  }

  /** Shares of a whole by weights with a non-zero sum add up to the whole;
      with non-negative weights and total, each share is non-negative. */
  lemma SharesAddUp(total: real, v1: real, v2: real)
    requires v1 + v2 != 0.0
    ensures Share(total, v1, v1 + v2) + Share(total, v2, v1 + v2) == total
    ensures total >= 0.0 && v1 >= 0.0 && v2 >= 0.0 ==>
      Share(total, v1, v1 + v2) >= 0.0 && Share(total, v2, v1 + v2) >= 0.0
  {
    var s := v1 + v2;
    assert total * v1 / s + total * v2 / s == total * (v1 + v2) / s;
    if total >= 0.0 && v1 >= 0.0 && v2 >= 0.0 {
      assert s > 0.0 && total * v1 >= 0.0 && total * v2 >= 0.0;
    }
  }

  /**
   With both leg voltages truthy and a positive sum (the proportional
   branch) and a non-negative integer total, the two legs add up to the
   total, up to one watt lost to truncation; exactly when one voltage is
   negative, since truncation toward zero then rounds the two shares in
   opposite directions.
   */
  lemma EpsLegsAddUp(total: int, v1: real, v2: real)
    requires total >= 0 && v1 != 0.0 && v2 != 0.0 && v1 + v2 > 0.0
    ensures var tr := Some(EpsSample(total as real, Some(v1), Some(v2)));
      && ComputeEpsLegPower(tr, LegOne) == Trunc(Share(total as real, v1, v1 + v2))
      && ComputeEpsLegPower(tr, LegTwo) == Trunc(Share(total as real, v2, v1 + v2))
    ensures var tr := Some(EpsSample(total as real, Some(v1), Some(v2)));
      total - 1 <= ComputeEpsLegPower(tr, LegOne) + ComputeEpsLegPower(tr, LegTwo) <= total
    ensures var tr := Some(EpsSample(total as real, Some(v1), Some(v2)));
      total > 0 && (v1 < 0.0 || v2 < 0.0) ==>
        ComputeEpsLegPower(tr, LegOne) + ComputeEpsLegPower(tr, LegTwo) == total
  {
    var tr := Some(EpsSample(total as real, Some(v1), Some(v2)));
    var a, b := Share(total as real, v1, v1 + v2), Share(total as real, v2, v1 + v2);
    EpsSampleValues(total as real, Some(v1), Some(v2));
    SharesAddUp(total as real, v1, v2);
    assert ComputeEpsLegPower(tr, LegOne) == Trunc(a);
    assert ComputeEpsLegPower(tr, LegTwo) == Trunc(b);
    if total > 0 && v1 < 0.0 {
      NegativeShare(total as real, v1, v1 + v2);
    } else if total > 0 && v2 < 0.0 {
      NegativeShare(total as real, v2, v1 + v2);
    }
    TruncSplit(a, b, total);
  }

  /** A negative weight's share of a positive total over a positive sum is negative. */
  lemma NegativeShare(total: real, own: real, sum: real)
    requires total > 0.0 && own < 0.0 && sum > 0.0
    ensures Share(total, own, sum) < 0.0
  {
  }

  /**
   As written, the fallback over-counts: with an integer total of at least
   2 and exactly one truthy leg voltage, the leg that has the voltage gets
   all of the total and the other leg half of it, so the two add up to more
   than the total: 1000 W with only L2 at 240 V gives 500 W and 1000 W.
   With neither voltage present both legs get the total.
   */
  lemma EpsFallbackOvercounts(total: int, v: real, lone: Leg)
    requires total >= 2 && v != 0.0
    ensures var tr := Some(if lone == LegOne then EpsSample(total as real, Some(v), None)
                           else EpsSample(total as real, None, Some(v)));
      && ComputeEpsLegPower(tr, lone) == total
      && ComputeEpsLegPower(tr, if lone == LegOne then LegTwo else LegOne) == Trunc(total as real / 2.0)
      && ComputeEpsLegPower(tr, LegOne) + ComputeEpsLegPower(tr, LegTwo) > total
    ensures var tr := Some(EpsSample(total as real, None, None));
      ComputeEpsLegPower(tr, LegOne) == total && ComputeEpsLegPower(tr, LegTwo) == total
  {
    var t := total as real;
    assert Trunc(t) == total;
    assert Trunc(t / 2.0) >= 1;
    if lone == LegOne {
      var tr := EpsSample(t, Some(v), None);
      EpsSampleValues(t, Some(v), None);
      assert !Truthy(TransportValue(tr, "eps_l2_voltage"));
      assert ComputeEpsLegPower(Some(tr), LegOne) == Trunc(t);
      assert ComputeEpsLegPower(Some(tr), LegTwo) == Trunc(t / 2.0);
    } else {
      var tr := EpsSample(t, None, Some(v));
      EpsSampleValues(t, None, Some(v));
      assert !Truthy(TransportValue(tr, "eps_l1_voltage"));
      assert ComputeEpsLegPower(Some(tr), LegTwo) == Trunc(t);
      assert ComputeEpsLegPower(Some(tr), LegOne) == Trunc(t / 2.0);
    }
    EpsSampleValues(t, None, None);
  }

  /**
   The split the method's documentation describes: proportional when both
   voltages are present, all of the power on the only leg with a voltage,
   and an equal split when neither has one.
   */
  function IntendedEpsLegPower(tr: Option<TransportRuntime>, leg: Leg): int {
    match tr
    case None => 0
    case Some(t) =>
      match TransportValue(t, "eps_power")
      case None => 0
      case Some(total) =>
        var v1, v2 := TransportValue(t, "eps_l1_voltage"), TransportValue(t, "eps_l2_voltage");
        var own, other := if leg == LegOne then v1 else v2, if leg == LegOne then v2 else v1;
        if Truthy(v1) && Truthy(v2) && v1.value + v2.value > 0.0 then
          Trunc(Share(total, own.value, v1.value + v2.value))
        else if Truthy(own) && !Truthy(other) then Trunc(total)
        else if Truthy(other) && !Truthy(own) then 0
        else Trunc(total / 2.0)
  }

  /** The intended split never hands out more than the total, and loses at
      most one watt, whenever the total is a non-negative integer and the
      voltages present are non-negative. */
  lemma IntendedEpsLegsAddUp(total: int, v1: Option<real>, v2: Option<real>)
    requires total >= 0
    requires v1.Some? ==> v1.value >= 0.0
    requires v2.Some? ==> v2.value >= 0.0
    ensures var tr := Some(EpsSample(total as real, v1, v2));
      total - 1 <= IntendedEpsLegPower(tr, LegOne) + IntendedEpsLegPower(tr, LegTwo) <= total
  {
    EpsSampleValues(total as real, v1, v2);
    var t := total as real;
    var tr := Some(EpsSample(t, v1, v2));
    if Truthy(v1) && Truthy(v2) {
      SharesAddUp(t, v1.value, v2.value);
      assert IntendedEpsLegPower(tr, LegOne) == Trunc(Share(t, v1.value, v1.value + v2.value));
      assert IntendedEpsLegPower(tr, LegTwo) == Trunc(Share(t, v2.value, v1.value + v2.value));
      TruncSplit(Share(t, v1.value, v1.value + v2.value), Share(t, v2.value, v1.value + v2.value), total);
    } else if !Truthy(v1) && !Truthy(v2) {
      TruncSplit(t / 2.0, t / 2.0, total);
    }
  }

  /** `eps_power_l1` / `eps_power_l2` with the intended split. */
  function IntendedEpsLegPowerOf(src: Sources, leg: Leg): (p: int)
    ensures src.transport.Some? ==> p == IntendedEpsLegPower(src.transport, leg)
    ensures src.transport.None? ==> p == EpsLegPower(src, leg)
  {
    match src.transport
    case Some(_) => IntendedEpsLegPower(src.transport, leg)
    case None => EpsLegPower(src, leg)
  }
}
