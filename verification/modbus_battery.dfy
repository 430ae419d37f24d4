/**
 The register reads of `read_battery`: the runtime registers the battery bank
 is decoded from, and the optional read of the individual-battery registers.
 Decoding the registers into battery data (`BatteryBankData`) is not part of
 this model.
 */
module ModbusBattery {
  import opened Wrappers
  import ModbusRead
  import opened ModbusChunks

  /** Register holding the number of batteries. */
  const BatteryCountRegister := 96

  /** First runtime register past the range `read_battery` means to cover (0-127). */
  const RuntimeEnd := 128

  /** The individual-battery constants of the register map, which are not
      part of this model and so are parameters. */
  datatype BatteryLayout = BatteryLayout(baseAddress: int, maxCount: int, registerCount: int)

  /** The register maps `read_battery` hands to the decoder. */
  datatype BatteryRegisters = BatteryRegisters(runtime: map<int, int>, individual: Option<map<int, int>>)

  /**
   The runtime read as written: two calls asking for 64 registers each, at 0
   and at 64. Each call is clamped to 40 registers on the wire. A failure
   skips the rest and keeps what was read.
   */
  function RuntimeAsWritten(dev: Device): (r: map<int, int>)
    ensures dev(0, 40).None? ==> r == map[]
    ensures dev(0, 40).Some? && dev(64, 40).None? ==> r == RegistersFromValues(0, dev(0, 40).value)
    ensures dev(0, 40).Some? && dev(64, 40).Some? ==>
      r == RegistersFromValues(0, dev(0, 40).value) + RegistersFromValues(64, dev(64, 40).value)
  {
    match dev(0, ModbusRead.WireCount(64))
    case None => map[]
    case Some(first) =>
      var m := RegistersFromValues(0, first);
      match dev(64, ModbusRead.WireCount(64))
      case None => m
      case Some(second) => m + RegistersFromValues(64, second)
  }

  /** Even a device that answers every request in full leaves registers
      40-63 and 104-127 out of the runtime map. */
  lemma RuntimeAsWrittenGap(dev: Device)
    requires AnswersInFull(dev)
    ensures forall a :: a in RuntimeAsWritten(dev) <==> 0 <= a < 40 || 64 <= a < 104
    ensures 104 !in RuntimeAsWritten(dev) && 40 !in RuntimeAsWritten(dev)
  {
    assert ModbusRead.WireCount(64) == 40;
    assert dev(0, 40).Some? && |dev(0, 40).value| == 40;
    assert dev(64, 40).Some? && |dev(64, 40).value| == 40;
  }

  /**
   The runtime read as intended: every register of 0-127, fetched in
   requests the transport does not clamp; a failure keeps the registers of
   the requests that answered before it.
   */
  function RuntimeRegisters(dev: Device): map<int, int> {
    ChunkedRead(dev, 0, RuntimeEnd).registers
  }

  /** With a device that answers in full, the intended runtime read covers
      exactly 0-127. */
  lemma RuntimeRegistersKeys(dev: Device)
    requires AnswersInFull(dev)
    ensures forall a :: a in RuntimeRegisters(dev) <==> 0 <= a < RuntimeEnd
  {
    ChunkedReadKeys(dev, 0, RuntimeEnd);
  }

  /** `all_registers.get(96, 0)`. */
  function BatteryCount(runtime: map<int, int>): (n: int)
    ensures BatteryCountRegister in runtime ==> n == runtime[BatteryCountRegister]
    ensures BatteryCountRegister !in runtime ==> n == 0
  {
    if BatteryCountRegister in runtime then runtime[BatteryCountRegister] else 0
  }

  /** Registers the individual-battery read asks for: `min(count, MAX) * REG_COUNT`. */
  function IndividualTotal(layout: BatteryLayout, count: int): (r: int)
    ensures count <= layout.maxCount ==> r == count * layout.registerCount
    ensures layout.registerCount >= 0 ==> r <= layout.maxCount * layout.registerCount
  {
    Min(count, layout.maxCount) * layout.registerCount
  }

  /**
   `read_battery(include_individual)`: the runtime registers, then, only
   when asked and the battery count is positive, the individual-battery
   registers in requests of at most 40; a failing request there gives `None`
   for the individual map but keeps the runtime map.
   */
  function ReadBattery(dev: Device, includeIndividual: bool, layout: BatteryLayout): (r: BatteryRegisters)
    ensures r.runtime == RuntimeRegisters(dev)
    ensures r.individual.Some? ==> includeIndividual && BatteryCount(r.runtime) > 0
    ensures r.individual.Some? ==>
      r.individual.value == ChunkedRead(dev, layout.baseAddress, IndividualTotal(layout, BatteryCount(r.runtime))).registers
    ensures var o := ChunkedRead(dev, layout.baseAddress, IndividualTotal(layout, BatteryCount(r.runtime)));
      includeIndividual && BatteryCount(r.runtime) > 0 ==>
        (r.individual.Some? <==> forall i :: 0 <= i < |o.issued| ==> dev(o.issued[i].address, o.issued[i].size).Some?)
  {
    var runtime := RuntimeRegisters(dev);
    var count := BatteryCount(runtime);
    if includeIndividual && count > 0 then
      var o := ChunkedRead(dev, layout.baseAddress, IndividualTotal(layout, count));
      ChunkedReadIssued(dev, layout.baseAddress, IndividualTotal(layout, count));
      BatteryRegisters(runtime, if o.ok then Some(o.registers) else None)
    else
      BatteryRegisters(runtime, None)
  }

  /**
   With a device that answers in full, asking for individual data with a
   positive battery count yields exactly the registers from the base
   address for `min(count, MAX)` batteries.
   */
  lemma ReadBatteryInFull(dev: Device, layout: BatteryLayout)
    requires AnswersInFull(dev)
    requires BatteryCount(RuntimeRegisters(dev)) > 0
    ensures var r := ReadBattery(dev, true, layout);
      var total := Min(BatteryCount(r.runtime), layout.maxCount) * layout.registerCount;
      && (forall a :: a in r.runtime <==> 0 <= a < RuntimeEnd)
      && r.individual.Some?
      && (forall a :: a in r.individual.value <==> layout.baseAddress <= a < layout.baseAddress + total)
  {
    RuntimeRegistersKeys(dev);
    var count := BatteryCount(RuntimeRegisters(dev));
    ChunkedReadKeys(dev, layout.baseAddress, IndividualTotal(layout, count));
  }
}
