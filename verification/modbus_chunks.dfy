/**
 Bulk register reads of the shared Modbus transport: address maps built from
 contiguous reads, reads split into requests of at most 40 registers
 (`read_parameters`, the individual-battery read of `read_battery`), and the
 named input-register groups (`_read_register_groups`).

 The device is an oracle `dev(address, count)`: the registers one
 `_read_input_registers` / `_read_holding_registers` call returns for a wire
 request, or `None` when that call raises after its retries (the retry layer
 itself is `ModbusRead.ReadRegisters`).
 */
module ModbusChunks {
  import opened Wrappers
  import ModbusRead

  type Device = (int, int) -> Option<seq<int>>

  /** `_registers_from_values`: register `start + i` holds `values[i]`. */
  function RegistersFromValues(start: int, values: seq<int>): (m: map<int, int>)
    ensures forall a :: a in m <==> start <= a < start + |values|
    ensures forall i :: 0 <= i < |values| ==> m[start + i] == values[i]
    decreases |values|
  {
    if values == [] then map[]
    else RegistersFromValues(start, values[..|values| - 1])[start + |values| - 1 := values[|values| - 1]]
  }

  /** The registers the device answers when asked for exactly what was requested. */
  ghost predicate AnswersInFull(dev: Device) {
    forall a, n :: 0 < n <= ModbusRead.MaxRegistersPerRead ==>
      dev(a, n).Some? && |dev(a, n).value| == n
  }

  /** One wire request. */
  datatype Chunk = Chunk(address: int, size: int)

  function Min(a: int, b: int): int {
    if a < b then a else b
  }

  /**
   The requests the chunking loop issues for `total` registers from `start`:
   `min(remaining, 40)` registers at the current address, until nothing remains.
   */
  function Chunks(start: int, total: int): (cs: seq<Chunk>)
    ensures total <= 0 ==> cs == []
    decreases total
  {
    if total <= 0 then []
    else
      var c := Min(total, ModbusRead.MaxRegistersPerRead);
      [Chunk(start, c)] + Chunks(start + c, total - c)
  }

  /** `ceil(total / 40)` requests at consecutive addresses from `start`, every
      one of 40 registers except possibly the last, which takes what remains. */
  lemma {:induction false} ChunksShape(start: int, total: int)
    ensures var cs := Chunks(start, total);
      && (total > 0 ==> |cs| == (total + ModbusRead.MaxRegistersPerRead - 1) / ModbusRead.MaxRegistersPerRead)
      && (forall i :: 0 <= i < |cs| ==>
        && cs[i].address == start + ModbusRead.MaxRegistersPerRead * i
        && cs[i].size == Min(ModbusRead.MaxRegistersPerRead, total - ModbusRead.MaxRegistersPerRead * i)
        && 0 < cs[i].size <= ModbusRead.MaxRegistersPerRead)
    decreases total
  {
    if total > 0 {
      var c := Min(total, ModbusRead.MaxRegistersPerRead);
      var cs := Chunks(start, total);
      var rest := Chunks(start + c, total - c);
      ChunksShape(start + c, total - c);
      assert cs == [Chunk(start, c)] + rest;
      forall i | 0 < i < |cs|
        ensures cs[i].address == start + ModbusRead.MaxRegistersPerRead * i
        ensures cs[i].size == Min(ModbusRead.MaxRegistersPerRead, total - ModbusRead.MaxRegistersPerRead * i)
      {
        assert cs[i] == rest[i - 1];
      }
    }
  }

  /** What a chunked read produced: whether every request answered, the merged
      address map, and the requests issued (the last one failed when `!ok`). */
  datatype ChunkedOutcome = ChunkedOutcome(ok: bool, registers: map<int, int>, issued: seq<Chunk>)

  /**
   The loop `while remaining > 0: chunk = min(remaining, 40); ...` of
   `read_parameters` and of the individual-battery read: request after
   request, later answers overriding earlier ones, stopping at the first
   request that raises.
   */
  function ChunkedRead(dev: Device, start: int, total: int): ChunkedOutcome
    decreases total
  {
    if total <= 0 then ChunkedOutcome(true, map[], [])
    else
      var c := Min(total, ModbusRead.MaxRegistersPerRead);
      match dev(start, c)
      case None => ChunkedOutcome(false, map[], [Chunk(start, c)])
      case Some(values) =>
        var rest := ChunkedRead(dev, start + c, total - c);
        ChunkedOutcome(rest.ok, RegistersFromValues(start, values) + rest.registers, [Chunk(start, c)] + rest.issued)
  }

  /** The requests a chunked read issues are a prefix of `Chunks`: all of them
      when every request answers, otherwise up to and including the first one
      that failed. */
  lemma {:induction false} ChunkedReadIssued(dev: Device, start: int, total: int)
    ensures var o, cs := ChunkedRead(dev, start, total), Chunks(start, total);
      && (o.ok ==> o.issued == cs)
      && (!o.ok ==>
        && 0 < |o.issued| <= |cs|
        && o.issued == cs[..|o.issued|]
        && dev(o.issued[|o.issued| - 1].address, o.issued[|o.issued| - 1].size).None?)
      && (forall i :: 0 <= i < |o.issued| - 1 ==> dev(o.issued[i].address, o.issued[i].size).Some?)
      && (o.ok <==> forall i :: 0 <= i < |cs| ==> dev(cs[i].address, cs[i].size).Some?)
    decreases total
  {
    if total > 0 {
      var c := Min(total, ModbusRead.MaxRegistersPerRead);
      var o, cs := ChunkedRead(dev, start, total), Chunks(start, total);
      var rest, rcs := ChunkedRead(dev, start + c, total - c), Chunks(start + c, total - c);
      assert cs == [Chunk(start, c)] + rcs;
      if dev(start, c).Some? {
        ChunkedReadIssued(dev, start + c, total - c);
        assert o.issued == [Chunk(start, c)] + rest.issued;
        forall i | 0 < i < |o.issued| - 1
          ensures dev(o.issued[i].address, o.issued[i].size).Some?
        {
          assert o.issued[i] == rest.issued[i - 1];
        }
        if !o.ok {
          assert o.issued[|o.issued| - 1] == rest.issued[|rest.issued| - 1];
          assert cs[..|o.issued|] == [Chunk(start, c)] + rcs[..|rest.issued|];
          var k :| 0 <= k < |rcs| && dev(rcs[k].address, rcs[k].size).None?;
          assert cs[k + 1] == rcs[k];
        } else {
          forall i | 0 < i < |cs|
            ensures dev(cs[i].address, cs[i].size).Some?
          {
            assert cs[i] == rcs[i - 1];
          }
        }
      } else {
        assert cs[..1] == [Chunk(start, c)];
      }
    }
  }

  /** With a device that answers in full, a chunked read succeeds and covers
      exactly `[start, start + total)`. */
  lemma {:induction false} ChunkedReadKeys(dev: Device, start: int, total: int)
    requires AnswersInFull(dev)
    ensures ChunkedRead(dev, start, total).ok
    ensures forall a :: a in ChunkedRead(dev, start, total).registers <==> start <= a < start + total
    decreases total
  {
    if total > 0 {
      var c := Min(total, ModbusRead.MaxRegistersPerRead);
      assert dev(start, c).Some? && |dev(start, c).value| == c;
      ChunkedReadKeys(dev, start + c, total - c);
    }
  }

  /** With a device that answers in full, a register of request `i` holds the
      value that request's answer gives it. */
  lemma {:induction false} ChunkedReadValues(dev: Device, start: int, total: int, i: int, a: int)
    requires AnswersInFull(dev)
    requires 0 <= i < |Chunks(start, total)|
    requires Chunks(start, total)[i].address <= a < Chunks(start, total)[i].address + Chunks(start, total)[i].size
    ensures var c, o := Chunks(start, total)[i], ChunkedRead(dev, start, total);
      && dev(c.address, c.size).Some? && |dev(c.address, c.size).value| == c.size
      && a in o.registers && o.registers[a] == dev(c.address, c.size).value[a - c.address]
    decreases total
  {
    var c := Min(total, ModbusRead.MaxRegistersPerRead);
    var o, cs := ChunkedRead(dev, start, total), Chunks(start, total);
    var rest, rcs := ChunkedRead(dev, start + c, total - c), Chunks(start + c, total - c);
    assert cs == [Chunk(start, c)] + rcs;
    assert dev(start, c).Some? && |dev(start, c).value| == c;
    var values := dev(start, c).value;
    var head := RegistersFromValues(start, values);
    assert o.registers == head + rest.registers;
    if i == 0 {
      assert cs[0] == Chunk(start, c);
      ChunkedReadKeys(dev, start + c, total - c);
      assert a !in rest.registers;
      assert head[start + (a - start)] == values[a - start];
    } else {
      assert cs[i] == rcs[i - 1];
      ChunkedReadValues(dev, start + c, total - c, i - 1, a);
    }
  }

  /** A partial outcome `(m, issued)` followed by the outcome `o` of the rest of the loop. */
  function Combine(m: map<int, int>, issued: seq<Chunk>, o: ChunkedOutcome): ChunkedOutcome {
    ChunkedOutcome(o.ok, m + o.registers, issued + o.issued)
  }

  lemma MapUnionAssoc(a: map<int, int>, b: map<int, int>, c: map<int, int>)
    ensures (a + b) + c == a + (b + c)
  {
  }

  /** One turn of the loop moves one answered request from the outcome still
      to come into the partial outcome. */
  lemma ChunkedStep(dev: Device, current: int, remaining: int, m: map<int, int>, issued: seq<Chunk>)
    requires remaining > 0
    requires dev(current, Min(remaining, ModbusRead.MaxRegistersPerRead)).Some?
    ensures var c := Min(remaining, ModbusRead.MaxRegistersPerRead);
      Combine(m, issued, ChunkedRead(dev, current, remaining)) ==
      Combine(m + RegistersFromValues(current, dev(current, c).value), issued + [Chunk(current, c)],
        ChunkedRead(dev, current + c, remaining - c))
  {
    var c := Min(remaining, ModbusRead.MaxRegistersPerRead);
    var rest := ChunkedRead(dev, current + c, remaining - c);
    var head := RegistersFromValues(current, dev(current, c).value);
    MapUnionAssoc(m, head, rest.registers);
    assert issued + ([Chunk(current, c)] + rest.issued) == (issued + [Chunk(current, c)]) + rest.issued;
  }

  /** What `read_parameters` promises, stated about the reference loop. */
  lemma ChunkedReadSummary(dev: Device, start: int, total: int)
    ensures var o := ChunkedRead(dev, start, total);
      && (total <= 0 ==> o == ChunkedOutcome(true, map[], []))
      && (forall i :: 0 <= i < |o.issued| ==>
        && o.issued[i].address == start + ModbusRead.MaxRegistersPerRead * i
        && 0 < o.issued[i].size <= ModbusRead.MaxRegistersPerRead)
      && (o.ok && total > 0 ==>
        |o.issued| == (total + ModbusRead.MaxRegistersPerRead - 1) / ModbusRead.MaxRegistersPerRead)
      && (o.ok <==> forall i :: 0 <= i < |Chunks(start, total)| ==>
        dev(Chunks(start, total)[i].address, Chunks(start, total)[i].size).Some?)
      && (!o.ok ==> o.issued != [] && dev(o.issued[|o.issued| - 1].address, o.issued[|o.issued| - 1].size).None?)
      && (AnswersInFull(dev) ==> o.ok && forall a :: a in o.registers <==> start <= a < start + total)
  {
    var o, cs := ChunkedRead(dev, start, total), Chunks(start, total);
    ChunkedReadIssued(dev, start, total);
    ChunksShape(start, total);
    forall i | 0 <= i < |o.issued|
      ensures o.issued[i] == cs[i]
    {
      if !o.ok {
        assert o.issued[i] == cs[..|o.issued|][i];
      }
    }
    if AnswersInFull(dev) {
      ChunkedReadKeys(dev, start, total);
    }
  }

  /**
   `read_parameters`: the registers `[start_address, start_address + count)`
   read in requests of at most 40 at consecutive addresses, merged into one
   map; a failing request raises (`None`). `issued` lists the requests in order.
   */
  method ReadParameters(dev: Device, startAddress: int, count: int)
    returns (r: Option<map<int, int>>, issued: seq<Chunk>)
    ensures count <= 0 ==> r == Some(map[]) && issued == []
    ensures forall i :: 0 <= i < |issued| ==>
      && issued[i].address == startAddress + ModbusRead.MaxRegistersPerRead * i
      && 0 < issued[i].size <= ModbusRead.MaxRegistersPerRead
    ensures r.Some? && count > 0 ==>
      |issued| == (count + ModbusRead.MaxRegistersPerRead - 1) / ModbusRead.MaxRegistersPerRead
    ensures r.Some? <==> forall i :: 0 <= i < |Chunks(startAddress, count)| ==>
      dev(Chunks(startAddress, count)[i].address, Chunks(startAddress, count)[i].size).Some?
    ensures r.None? ==> issued != [] && dev(issued[|issued| - 1].address, issued[|issued| - 1].size).None?
    ensures r.Some? ==> r.value == ChunkedRead(dev, startAddress, count).registers
    ensures AnswersInFull(dev) ==> r.Some? && forall a :: a in r.value <==> startAddress <= a < startAddress + count
  {
    var result: map<int, int> := map[];
    var remaining := count;
    var currentAddress := startAddress;
    issued := [];
    ghost var whole := ChunkedRead(dev, startAddress, count);
    assert Combine(result, issued, whole) == whole;
    while remaining > 0
      invariant Combine(result, issued, ChunkedRead(dev, currentAddress, remaining)) == whole
      decreases remaining
    {
      var chunkSize := Min(remaining, ModbusRead.MaxRegistersPerRead);
      var answer := dev(currentAddress, chunkSize);
      if answer.None? {
        issued := issued + [Chunk(currentAddress, chunkSize)];
        assert whole.issued == issued && !whole.ok;
        ChunkedReadSummary(dev, startAddress, count);
        return None, issued;
      }
      ChunkedStep(dev, currentAddress, remaining, result, issued);
      result := result + RegistersFromValues(currentAddress, answer.value);
      issued := issued + [Chunk(currentAddress, chunkSize)];
      currentAddress := currentAddress + chunkSize;
      remaining := remaining - chunkSize;
    }
    assert result + map[] == result;
    assert issued + [] == issued;
    assert whole == ChunkedOutcome(true, result, issued);
    ChunkedReadSummary(dev, startAddress, count);
    r := Some(result);
  }

  /** One named input-register group: `count` registers from `start`. */
  datatype RegisterGroup = RegisterGroup(name: string, start: int, count: int)

  /** `INPUT_REGISTER_GROUPS`, in dictionary order. */
  const InputRegisterGroups: seq<RegisterGroup> := [
    RegisterGroup("power_energy", 0, 32),
    RegisterGroup("status_energy", 32, 32),
    RegisterGroup("temperatures", 64, 16),
    RegisterGroup("bms_data", 80, 33),
    RegisterGroup("extended_data", 113, 18),
    RegisterGroup("output_power", 170, 2)
  ]

  /** The table entry for `name`, if the table has one. */
  function LookupGroup(name: string): (g: Option<RegisterGroup>)
    ensures g.Some? ==> g.value in InputRegisterGroups && g.value.name == name
    ensures g.None? ==> forall i :: 0 <= i < |InputRegisterGroups| ==> InputRegisterGroups[i].name != name
  {
    if name == "power_energy" then Some(InputRegisterGroups[0])
    else if name == "status_energy" then Some(InputRegisterGroups[1])
    else if name == "temperatures" then Some(InputRegisterGroups[2])
    else if name == "bms_data" then Some(InputRegisterGroups[3])
    else if name == "extended_data" then Some(InputRegisterGroups[4])
    else if name == "output_power" then Some(InputRegisterGroups[5])
    else None
  }

  /** The groups named by the caller that the table knows, in caller order. */
  function SelectNamed(names: seq<string>): (gs: seq<RegisterGroup>)
    ensures |gs| <= |names|
    ensures forall i :: 0 <= i < |gs| ==> gs[i] in InputRegisterGroups && gs[i].name in names
    ensures forall n :: n in names && LookupGroup(n).Some? ==> LookupGroup(n).value in gs
  {
    if names == [] then []
    else
      var first := match LookupGroup(names[0]) case Some(g) => [g] case None => [];
      first + SelectNamed(names[1..])
  }

  /** Group selection of `_read_register_groups`: `None` means every group. */
  function SelectGroups(names: Option<seq<string>>): (gs: seq<RegisterGroup>)
    ensures names.None? ==> gs == InputRegisterGroups
    ensures names.Some? ==> forall i :: 0 <= i < |gs| ==> gs[i] in InputRegisterGroups && gs[i].name in names.value
    ensures names.Some? ==> forall n :: n in names.value && LookupGroup(n).Some? ==> LookupGroup(n).value in gs
  {
    match names
    case None => InputRegisterGroups
    case Some(ns) => SelectNamed(ns)
  }

  /** Selection keeps caller order: selecting from two lists in turn is
      selecting from their concatenation. */
  lemma {:induction false} SelectNamedConcat(first: seq<string>, second: seq<string>)
    ensures SelectNamed(first + second) == SelectNamed(first) + SelectNamed(second)
    decreases |first|
  {
    if first != [] {
      assert (first + second)[1..] == first[1..] + second;
      SelectNamedConcat(first[1..], second);
    } else {
      assert first + second == second;
    }
  }

  /**
   The reads of `_read_register_groups` after the selection: one read per
   group, registers merged (later groups override), and the first failing
   group's name raised.
   */
  function ReadGroups(dev: Device, groups: seq<RegisterGroup>): (r: Result<map<int, int>, string>)
    ensures r.Success? <==> forall i :: 0 <= i < |groups| ==>
      dev(groups[i].start, ModbusRead.WireCount(groups[i].count)).Some?
    ensures r.Failure? ==> exists i :: (
      && 0 <= i < |groups| && groups[i].name == r.error
      && dev(groups[i].start, ModbusRead.WireCount(groups[i].count)).None?
      && forall j :: 0 <= j < i ==> dev(groups[j].start, ModbusRead.WireCount(groups[j].count)).Some?)
    decreases |groups|
  {
    if groups == [] then Success(map[])
    else
      var g := groups[0];
      match dev(g.start, ModbusRead.WireCount(g.count))
      case None => Failure(g.name)
      case Some(values) =>
        match ReadGroups(dev, groups[1..])
        case Failure(name) => Failure(name)
        case Success(rest) => Success(RegistersFromValues(g.start, values) + rest)
  }

  /** `_read_register_groups(group_names)`. */
  function ReadRegisterGroups(dev: Device, names: Option<seq<string>>): (r: Result<map<int, int>, string>)
    ensures var gs := SelectGroups(names);
      r.Success? <==> forall i :: 0 <= i < |gs| ==> GroupRead(dev, gs[i]).Some?
    ensures var gs := SelectGroups(names);
      r.Failure? ==> exists i :: 0 <= i < |gs| && gs[i].name == r.error && GroupRead(dev, gs[i]).None?
  {
    ReadGroups(dev, SelectGroups(names))
  }

  /** Register `a` lies in the range of one of `groups`. */
  predicate InSomeGroup(groups: seq<RegisterGroup>, a: int)
    decreases |groups|
  {
    groups != [] && (groups[0].start <= a < groups[0].start + groups[0].count || InSomeGroup(groups[1..], a))
  }

  /** With a device answering in full, the merged map covers exactly the
      selected groups' ranges. */
  lemma {:induction false} ReadGroupsKeys(dev: Device, groups: seq<RegisterGroup>)
    requires AnswersInFull(dev)
    requires forall i :: 0 <= i < |groups| ==> 0 < groups[i].count <= ModbusRead.MaxRegistersPerRead
    ensures ReadGroups(dev, groups).Success?
    ensures forall a :: a in ReadGroups(dev, groups).value <==> InSomeGroup(groups, a)
    decreases |groups|
  {
    if groups != [] {
      var g := groups[0];
      assert dev(g.start, ModbusRead.WireCount(g.count)).Some? && |dev(g.start, ModbusRead.WireCount(g.count)).value| == g.count;
      ReadGroupsKeys(dev, groups[1..]);
    }
  }

  /** The answer to one group's read. */
  function GroupRead(dev: Device, g: RegisterGroup): Option<seq<int>> {
    dev(g.start, ModbusRead.WireCount(g.count))
  }

  /** Group `g`'s read answered and its answer reaches register `a`. */
  predicate Covers(dev: Device, g: RegisterGroup, a: int) {
    GroupRead(dev, g).Some? && g.start <= a < g.start + |GroupRead(dev, g).value|
  }

  /** Group `i` is the last of `groups` whose answer reaches register `a`. */
  predicate LastCovering(dev: Device, groups: seq<RegisterGroup>, i: int, a: int) {
    && 0 <= i < |groups| && Covers(dev, groups[i], a)
    && forall j :: i < j < |groups| ==> !Covers(dev, groups[j], a)
  }

  /** A register is in the merged map of successful group reads exactly when
      some group's answer reaches it. */
  lemma {:induction false} ReadGroupsDomain(dev: Device, groups: seq<RegisterGroup>)
    requires ReadGroups(dev, groups).Success?
    ensures forall a :: a in ReadGroups(dev, groups).value <==>
      exists i :: 0 <= i < |groups| && Covers(dev, groups[i], a)
    decreases |groups|
  {
    if groups != [] {
      var tail := groups[1..];
      var rest := ReadGroups(dev, tail).value;
      var head := RegistersFromValues(groups[0].start, GroupRead(dev, groups[0]).value);
      assert ReadGroups(dev, groups).value == head + rest;
      ReadGroupsDomain(dev, tail);
      forall a | exists i :: 0 <= i < |groups| && Covers(dev, groups[i], a)
        ensures a in head || a in rest
      {
        var i :| 0 <= i < |groups| && Covers(dev, groups[i], a);
        if i > 0 {
          assert tail[i - 1] == groups[i];
        }
      }
      forall a | a in rest
        ensures exists i :: 0 <= i < |groups| && Covers(dev, groups[i], a)
      {
        var k :| 0 <= k < |tail| && Covers(dev, tail[k], a);
        assert groups[k + 1] == tail[k];
      }
    }
  }

  /** A successful group read is the first group's registers merged under the rest's. */
  lemma ReadGroupsCons(dev: Device, groups: seq<RegisterGroup>)
    requires groups != [] && ReadGroups(dev, groups).Success?
    ensures GroupRead(dev, groups[0]).Some? && ReadGroups(dev, groups[1..]).Success?
    ensures ReadGroups(dev, groups).value ==
      RegistersFromValues(groups[0].start, GroupRead(dev, groups[0]).value) + ReadGroups(dev, groups[1..]).value
  {
  }

  /** The last covering group of the tail, shifted by one. */
  lemma LastCoveringTail(dev: Device, groups: seq<RegisterGroup>, i: int, a: int)
    requires LastCovering(dev, groups, i, a) && i > 0
    ensures LastCovering(dev, groups[1..], i - 1, a)
  {
    var tail := groups[1..];
    assert tail[i - 1] == groups[i];
    forall j | i - 1 < j < |tail|
      ensures !Covers(dev, tail[j], a)
    {
      assert tail[j] == groups[j + 1];
    }
  }

  /** When the first group is the last covering one, no group of the tail covers. */
  lemma LastCoveringHead(dev: Device, groups: seq<RegisterGroup>, a: int)
    requires LastCovering(dev, groups, 0, a)
    ensures !exists k :: 0 <= k < |groups[1..]| && Covers(dev, groups[1..][k], a)
  {
    var tail := groups[1..];
    forall k | 0 <= k < |tail|
      ensures !Covers(dev, tail[k], a)
    {
      assert tail[k] == groups[k + 1];
    }
  }

  /**
   In the merged map of successful group reads, a register holds the value
   from the last group whose answer reaches it (`registers[start + offset] =
   value`, later groups overriding earlier ones).
   */
  lemma {:induction false} ReadGroupsValues(dev: Device, groups: seq<RegisterGroup>, i: int, a: int)
    requires ReadGroups(dev, groups).Success?
    requires LastCovering(dev, groups, i, a)
    ensures a in ReadGroups(dev, groups).value
    ensures ReadGroups(dev, groups).value[a] == GroupRead(dev, groups[i]).value[a - groups[i].start]
    decreases |groups|
  {
    ReadGroupsCons(dev, groups);
    var g := groups[0];
    var head := RegistersFromValues(g.start, GroupRead(dev, g).value);
    if i == 0 {
      ReadGroupsDomain(dev, groups[1..]);
      LastCoveringHead(dev, groups, a);
      assert head[g.start + (a - g.start)] == GroupRead(dev, g).value[a - g.start];
    } else {
      LastCoveringTail(dev, groups, i, a);
      ReadGroupsValues(dev, groups[1..], i - 1, a);
    }
  }

  /** Reading every group from a device answering in full yields registers
      0-130 and 170-171 and nothing else. */
  lemma AllGroupsKeys(dev: Device)
    requires AnswersInFull(dev)
    ensures ReadRegisterGroups(dev, None).Success?
    ensures forall reg :: reg in ReadRegisterGroups(dev, None).value <==> 0 <= reg < 131 || 170 <= reg < 172
  {
    var gs := InputRegisterGroups;
    ReadGroupsKeys(dev, gs);
    assert gs[1..][1..][1..][1..][1..][1..] == [];
    assert forall reg :: InSomeGroup(gs, reg) <==> 0 <= reg < 131 || 170 <= reg < 172;
  }
}
