# pylxpweb core, modelled in Dafny

This project models the decision logic of pylxpweb, a client library for EG4 / Luxpower inverters and the GridBOSS (MID) device. It covers five parts:

- **Shared Modbus transport.** The retry loop and consecutive-error counter of one register read. The reconnect decision once the counter reaches its limit, stated on its own; the bulk reads below do not thread the counter through. Reads split into requests of at most 40 registers (`read_parameters` and the individual-battery read of `read_battery`). The named input-register groups. The grouping of a parameter write into runs of consecutive addresses.
- **GridBOSS runtime accessors.** The None-aware sums over the two phases. The AC-couple power selection of the smart ports. The defaults when no runtime has been fetched.
- **Inverter runtime accessors.** Transport data takes precedence over the cloud (HTTP) runtime. Net battery power. The clamped consumption balance. The lost and generator flags. The per-leg EPS power split.
- **Network scanner.** What probing one `ip:port` yields, how a Modbus device is verified, and the progress reports of a scan.
- **Register-map Markdown table.** The table written by `utils/json_to_markdown.py`.

Everything outside the library's own logic is a parameter:

- Register I/O is an oracle: a function from request to answer.
  - The retry layer sees `device(address, count, attempt)`.
  - The bulk reads see `dev(address, count)`, which is `None` when the call raises after its retries.
  - Writes are `write(start, values)`, which returns whether the write went through.
- The network seen by the scanner is an `Env` of functions. It covers connection outcome, MAC lookup, vendor lookup, `discover_device_info` and model-family names.
- The known device-type codes are a set passed in.
- Scaling functions whose definitions are not part of this model (`scale_mid_*`, `scale_runtime_value`) are function parameters.
- Python floats are exact reals, and `int()` on a float is truncation toward zero.

Modules, in dependency order:

| file | module | models |
|---|---|---|
| wrappers.dfy | `Wrappers` | `Option` (Python `None`), `Result` (a raised error) |
| decimal.dfy | `Decimal` | `str(int)` and its inverse |
| modbus_read.dfy | `ModbusRead` | `_read_registers`, `_reconnect` |
| modbus_chunks.dfy | `ModbusChunks` | `_registers_from_values`, `read_parameters`, `_read_register_groups` |
| modbus_battery.dfy | `ModbusBattery` | the register reads of `read_battery` |
| modbus_write.dfy | `ModbusWrite` | `write_parameters` |
| mid_runtime.dfy | `MidRuntime` | `MIDRuntimePropertiesMixin` |
| inverter_runtime.dfy | `InverterRuntime` | the inverter runtime properties mixin |
| scanner.dfy | `Scanner` | `_probe_port`, `_verify_modbus`, `scan` |
| register_table.dfy | `RegisterTable` | `create_register_table`, `format_sample_value` |

## Model

| member | source | states |
|---|---|---|
| ModbusRead.NewTransport | src/pylxpweb/transports/_modbus_base.py:122-124 | a new transport starts with no consecutive errors, a limit of 3 and the retried flag clear |
| ModbusRead.WireCount | src/pylxpweb/transports/_modbus_base.py:208-212 | the count put on the wire is the requested count when at most 40, and 40 otherwise |
| ModbusRead.AttemptBudget | src/pylxpweb/transports/_modbus_base.py:200 | `range(retries + 1)` allows retries + 1 attempts, and none for a negative retry count |
| ModbusRead.Classify | src/pylxpweb/transports/_modbus_base.py:227-251 | a caught failure becomes a timeout error exactly for an asyncio timeout or a pymodbus I/O error mentioning "timeout", and a read error otherwise |
| ModbusRead.ReadRegisters | src/pylxpweb/transports/_modbus_base.py:170-276 | the not-connected and missing-client errors come from their guards and from nothing else, and those guards change nothing. A ready transport with retries >= 0 makes at least one attempt and either answers or raises what the attempts produced. The attempts made are those up to and including the first answer or uncaught exception, or all retries + 1 when every one fails in a caught way; each asks for `min(count, 40)` registers. The first answer is returned and resets the counter to 0. Each caught failure adds 1 to the counter. When every attempt fails, the last attempt's error is raised. The retried flag is set exactly when a failed attempt was followed by another |
| ModbusRead.FirstStop | src/pylxpweb/transports/_modbus_base.py:200-257 | the attempt at which the retry loop stops: every earlier attempt failed in a caught way, and the one found answered or raised an uncaught exception, unless the budget ran out |
| ModbusRead.Reconnect | src/pylxpweb/transports/_modbus_base.py:746-762 | below the limit the transport is unchanged; at or above it, the transport is reconnected and the counter reset to 0 |
| ModbusRead.BeforeBulkRead | src/pylxpweb/transports/_modbus_base.py:384-385 | the bulk reads' guard is `_reconnect` itself: the outer check only mirrors the inner one |
| ModbusRead.BeforeBulkReadSettles | src/pylxpweb/transports/_modbus_base.py:384-385 | after the guard of the bulk reads the counter is below a positive limit, so the guard is idempotent |
| ModbusChunks.RegistersFromValues | src/pylxpweb/transports/_modbus_base.py:418-432 | the map's keys are exactly start .. start + len - 1, and register start + i holds values[i] |
| ModbusChunks.ChunksShape | src/pylxpweb/transports/_modbus_base.py:582-593 | the chunking loop issues ceil(total / 40) requests at start + 40 i, each of min(40, total - 40 i) registers, between 1 and 40 |
| ModbusChunks.ChunkedReadIssued | src/pylxpweb/transports/_modbus_base.py:586-591 | the requests issued are all the chunks when every one answers. Otherwise they are the chunks up to and including the first that failed. The read succeeds exactly when every chunk answers |
| ModbusChunks.ChunkedReadKeys | src/pylxpweb/transports/_modbus_base.py:582-593 | with a device answering every request in full, the read succeeds with keys exactly start .. start + total - 1 |
| ModbusChunks.ChunkedReadValues | src/pylxpweb/transports/_modbus_base.py:529-534 | with a device answering every request in full, each register of chunk i holds the value the device returned for that chunk, at its offset from the chunk's address |
| ModbusChunks.ReadParameters | src/pylxpweb/transports/_modbus_base.py:565-593 | count <= 0 gives an empty map and no reads. Requests sit at consecutive addresses from the start, each of at most 40 registers, ceil(count / 40) of them on success. The call raises exactly when some chunk fails, and the last request issued is the failing one. With a full-answering device the keys are exactly the requested range |
| ModbusChunks.LookupGroup | src/pylxpweb/transports/_modbus_base.py:55-63 | a known name gives that table entry; an unknown name matches no entry |
| ModbusChunks.SelectNamed | src/pylxpweb/transports/_modbus_base.py:378-382 | the selection keeps only table groups named by the caller, and every known name the caller gives is selected |
| ModbusChunks.SelectNamedConcat | src/pylxpweb/transports/_modbus_base.py:378-382 | selection keeps caller order: selecting from a + b is selecting from a, then from b |
| ModbusChunks.SelectGroups | src/pylxpweb/transports/_modbus_base.py:375-382 | no names selects the whole table in table order; with names, every selected group is a table group the caller named, and every known name the caller gives is selected |
| ModbusChunks.ReadGroups | src/pylxpweb/transports/_modbus_base.py:387-403 | the group reads succeed exactly when every group's read answers; otherwise the error names the first group whose read failed |
| ModbusChunks.ReadGroupsDomain | src/pylxpweb/transports/_modbus_base.py:387-394 | after a successful read, a register is in the merged map exactly when some group's answer covers it |
| ModbusChunks.ReadGroupsValues | src/pylxpweb/transports/_modbus_base.py:387-394 | after a successful read, a register holds the value from the last group whose answer covers it, at its offset from that group's start |
| ModbusChunks.ReadRegisterGroups | src/pylxpweb/transports/_modbus_base.py:359-403 | the read succeeds exactly when every selected group's read answers; a failure names a selected group whose read failed |
| ModbusChunks.ReadGroupsKeys | src/pylxpweb/transports/_modbus_base.py:387-394 | with a full-answering device the merged map covers exactly the union of the selected groups' ranges |
| ModbusChunks.AllGroupsKeys | src/pylxpweb/transports/_modbus_base.py:375-376 | reading all groups (no names given) yields registers 0-130 and 170-171 and nothing else |
| ModbusBattery.RuntimeAsWrittenGap | src/pylxpweb/transports/_modbus_base.py:506-514 | the runtime read as written leaves registers 40-63 and 104-127 out even when every request answers in full |
| ModbusBattery.RuntimeAsWritten | src/pylxpweb/transports/_modbus_base.py:506-514 | as written, the two runtime calls put 40 registers on the wire at 0 and at 64. A failing first call gives an empty map, a failing second call only the first 40 registers |
| ModbusBattery.RuntimeRegistersKeys | src/pylxpweb/transports/_modbus_base.py:499-514 | the corrected runtime read covers exactly registers 0-127 |
| ModbusBattery.RuntimeRegisters | src/pylxpweb/transports/_modbus_base.py:499-514 | the corrected runtime read, in chunks of at most 40 over 0-127. Its keys are stated by ModbusBattery.RuntimeRegistersKeys and its values by ModbusChunks.ChunkedReadValues |
| ModbusBattery.BatteryCount | src/pylxpweb/transports/_modbus_base.py:517 | the battery count is register 96, or 0 when it was not read |
| ModbusBattery.IndividualTotal | src/pylxpweb/transports/_modbus_base.py:522-523 | the individual read asks for count * REG_COUNT registers up to MAX batteries, and never more than MAX * REG_COUNT |
| ModbusBattery.ReadBattery | src/pylxpweb/transports/_modbus_base.py:517-547 | individual registers are read only when asked for and the battery count is positive. Then they are present exactly when every chunk of min(count, MAX) * REG_COUNT registers answers, and are None otherwise; when present they are the chunked read's registers. The runtime map is kept either way |
| ModbusBattery.ReadBatteryInFull | src/pylxpweb/transports/_modbus_base.py:520-534 | with a full-answering device and a positive battery count, the individual map covers exactly the min(count, MAX) * REG_COUNT registers from the base address |
| ModbusWrite.Insert | src/pylxpweb/transports/_modbus_base.py:610 | inserting into an ascending list keeps it ascending and adds exactly the new pair (as a multiset) |
| ModbusWrite.SortByAddress | src/pylxpweb/transports/_modbus_base.py:610 | `sorted(parameters.items())` is strictly ascending by address and a permutation of the items |
| ModbusWrite.MaximalRunsUnique | src/pylxpweb/transports/_modbus_base.py:612-629 | two families of maximal runs that write the same pairs in the same order are equal |
| ModbusWrite.GroupRuns | src/pylxpweb/transports/_modbus_base.py:612-629 | the runs concatenate back to the sorted pairs, none is empty, and each starts past the end of the one before |
| ModbusWrite.WriteRuns | src/pylxpweb/transports/_modbus_base.py:631-634 | one write per run in order. Success means every run was written and True returned. A failure stops at the first write that raised |
| ModbusWrite.WriteParameters | src/pylxpweb/transports/_modbus_base.py:595-634 | the runs written are the maximal runs of consecutive addresses of the sorted parameters, issued in ascending order. An empty dictionary makes no write and returns True |
| MidRuntime.Present | src/pylxpweb/devices/_mid_runtime_properties.py:30 | the present values are none exactly when every value is None |
| MidRuntime.SafeSum | src/pylxpweb/devices/_mid_runtime_properties.py:26-30 | `_safe_sum` is None exactly when every value is None |
| MidRuntime.SafeSumValue | src/pylxpweb/devices/_mid_runtime_properties.py:26-30 | when not None, `_safe_sum` equals the sum with each None counted as 0 |
| MidRuntime.SumPresentIsZeroFilled | src/pylxpweb/devices/_mid_runtime_properties.py:30 | summing the present values equals summing with None as 0 |
| MidRuntime.SafeSumPair | src/pylxpweb/devices/_mid_runtime_properties.py:26-30 | on two values: None iff both are None, else a + b with a missing one as 0 |
| MidRuntime.Field | src/pylxpweb/devices/_mid_runtime_properties.py:255-260 | a raw reading is None without a runtime or when the field is missing, and the field's value otherwise |
| MidRuntime.ScaledField | src/pylxpweb/devices/_mid_runtime_properties.py:87-93 | a scaled reading is present exactly when its raw field is, and is the scaled raw value |
| MidRuntime.TotalPower | src/pylxpweb/devices/_mid_runtime_properties.py:270-277 | an aggregate power is None without a runtime or with both phases missing, and L1 + L2 with a missing phase as 0 otherwise |
| MidRuntime.AcCouplePower | src/pylxpweb/devices/_mid_runtime_properties.py:42-81 | the result is None without a runtime. Otherwise it is the smart-load reading or the AC-couple field, and always the smart-load reading for port status 2, even when that is None |
| MidRuntime.AcCoupleLocalMode | src/pylxpweb/devices/_mid_runtime_properties.py:76-78 | with status None or 0 and a present non-zero smart-load reading, the smart-load reading is reported |
| MidRuntime.AcCoupleOtherwise | src/pylxpweb/devices/_mid_runtime_properties.py:80-81 | in every other case (status 1 or 3, or status 0/None with a zero or missing smart load) the AC-couple field is reported |
| MidRuntime.AcCoupleTotal | src/pylxpweb/devices/_mid_runtime_properties.py:561-566 | `ac_coupleN_power` is `_safe_sum` of the two selected phases |
| MidRuntime.AcCoupleTotalInAcCoupleMode | src/pylxpweb/devices/_mid_runtime_properties.py:72-74 | a port in AC-couple mode totals exactly the smart-load total of the same port |
| MidRuntime.EnergyLeg | src/pylxpweb/devices/_mid_runtime_properties.py:682-688 | a scaled energy leg is present iff its raw field is, and ten times it is the raw value |
| MidRuntime.SumEnergy | src/pylxpweb/devices/_mid_runtime_properties.py:1114-1118 | `_sum_energy` is None iff both legs are None, else l1 + l2 with a missing leg as 0 |
| MidRuntime.EnergyTotalIsScaledSafeSum | src/pylxpweb/devices/_mid_runtime_properties.py:1123-1126 | an energy total is None iff `_safe_sum` of the raw legs is, and otherwise that sum divided by ten |
| MidRuntime.EnergyTotal | src/pylxpweb/devices/_mid_runtime_properties.py:1114-1126 | `_sum_energy` of the two scaled legs. MidRuntime.EnergyTotalIsScaledSafeSum states it as `_safe_sum` of the raw legs divided by ten |
| MidRuntime.ServerTime | src/pylxpweb/devices/_mid_runtime_properties.py:646-650 | the midbox's server time; "" without a runtime, as MidRuntime.NoRuntimeDefaults states |
| MidRuntime.DeviceTime | src/pylxpweb/devices/_mid_runtime_properties.py:653-657 | the midbox's device time; "" without a runtime, as MidRuntime.NoRuntimeDefaults states |
| MidRuntime.FirmwareVersion | src/pylxpweb/devices/_mid_runtime_properties.py:660-664 | the runtime's firmware code; "" without a runtime, as MidRuntime.NoRuntimeDefaults states |
| MidRuntime.HasData | src/pylxpweb/devices/_mid_runtime_properties.py:667-669 | whether there is a runtime; false without one, as MidRuntime.NoRuntimeDefaults states |
| MidRuntime.IsOffGrid | src/pylxpweb/devices/_mid_runtime_properties.py:672-676 | true only for an `isOffGrid` flag that is True; false without a runtime, as MidRuntime.NoRuntimeDefaults states |
| MidRuntime.NoRuntimeDefaults | src/pylxpweb/devices/_mid_runtime_properties.py:645-676 | without a runtime: numeric accessors None, times and firmware "", `has_data` and `is_off_grid` false |
| InverterRuntime.Trunc | src/pylxpweb/devices/inverters/_runtime_properties.py:81 | `int()` of a float truncates toward zero |
| InverterRuntime.RawFloat | src/pylxpweb/devices/inverters/_runtime_properties.py:60-74 | with transport data only the transport attribute is read. Otherwise the HTTP field is read, and with neither source the result is None |
| InverterRuntime.RawInt | src/pylxpweb/devices/inverters/_runtime_properties.py:76-85 | the same precedence, with the transport value truncated by `int()` |
| InverterRuntime.ScaledFloat | src/pylxpweb/devices/inverters/_runtime_properties.py:87-103 | the scaling function is applied on the HTTP path only, and a missing raw value gives None |
| InverterRuntime.SourcePrecedence | src/pylxpweb/devices/inverters/_runtime_properties.py:60-103 | with transport data the HTTP runtime never changes a reading. Without it the transport attribute name is irrelevant. With neither source the result is None |
| InverterRuntime.BatteryPower | src/pylxpweb/devices/inverters/_runtime_properties.py:310-320 | on the transport path: charge - discharge (each truncated), None iff either is missing |
| InverterRuntime.ConsumptionPower | src/pylxpweb/devices/inverters/_runtime_properties.py:419-451 | on the transport path: None iff all five inputs are missing. Otherwise max(0, pv + discharge - charge + import - export) with missing inputs as 0, so never negative |
| InverterRuntime.ConsumptionUsesBatteryPower | src/pylxpweb/devices/inverters/_runtime_properties.py:431-448 | with both battery readings present, consumption is the clamped pv + import - export - `battery_power` |
| InverterRuntime.IsUsingGenerator | src/pylxpweb/devices/inverters/_runtime_properties.py:405-412 | on the transport path: in use iff generator power is present and its integer part positive; the cloud's `_12KUsingGenerator` flag without transport data; false with no data |
| InverterRuntime.AcCouplePower | src/pylxpweb/devices/inverters/_runtime_properties.py:375-387 | on the transport path: the generator power, 0 when missing; the cloud's `acCouplePower` without transport data; 0 with no data |
| InverterRuntime.GeneratorInUseIffAcCouplePositive | src/pylxpweb/devices/inverters/_runtime_properties.py:375-412 | on the transport path the generator is in use exactly when the AC-couple power is positive |
| InverterRuntime.IsLost | src/pylxpweb/devices/inverters/_runtime_properties.py:486-492 | false with transport data, true with no data, the HTTP `lost` flag otherwise |
| InverterRuntime.EpsLegPower | src/pylxpweb/devices/inverters/_runtime_properties.py:208-231 | the transport path computes the leg; otherwise the cloud's `pEpsL1N` for L1 and `pEpsL2N` for L2, and 0 with no data |
| InverterRuntime.ComputeEpsLegPower | src/pylxpweb/devices/inverters/_runtime_properties.py:233-260 | with no transport data or no EPS power, each leg is 0. Its two branches are stated by InverterRuntime.EpsLegsAddUp and InverterRuntime.EpsFallbackOvercounts |
| InverterRuntime.EpsLegsAddUp | src/pylxpweb/devices/inverters/_runtime_properties.py:249-256 | in the proportional branch (both voltages non-zero with a positive sum), each leg is its voltage's share of the total truncated toward zero. The legs add up to the total, less at most one watt, and exactly to the total when one voltage is negative |
| InverterRuntime.EpsFallbackOvercounts | src/pylxpweb/devices/inverters/_runtime_properties.py:257-260 | as written, for any integer total of at least 2 with exactly one truthy voltage, the leg with the voltage gets the total and the other leg `int(total / 2)`, more than the total in all. With no voltage each leg gets the total |
| InverterRuntime.IntendedEpsLegsAddUp | src/pylxpweb/devices/inverters/_runtime_properties.py:233-260 | the documented split (all power to the only leg with a voltage, an equal split with none) never exceeds the total and loses at most one watt |
| InverterRuntime.IntendedEpsLegPowerOf | src/pylxpweb/devices/inverters/_runtime_properties.py:208-231 | the per-leg accessor with the documented split; the HTTP path is unchanged |
| Scanner.MacInfo | src/pylxpweb/scanner/scanner.py:146-151 | no MAC or vendor when lookup is off; a vendor only for a non-empty MAC, looked up from it |
| Scanner.UnknownCodeErrorNamesCode | src/pylxpweb/scanner/scanner.py:242 | the unknown-code error is the fixed prefix followed by the code in decimal, so distinct codes give distinct errors |
| Scanner.VerifyModbus | src/pylxpweb/scanner/scanner.py:176-255 | a known type code gives a verified device carrying the code, its model family name and firmware, with an empty serial turned into None. An unknown code gives an unverified device with that code and "Unknown device type code: n". A failure gives an unverified device with the failure's text and no code. Only a verified device carries a serial, a model family or a firmware version |
| Scanner.ProbePort | src/pylxpweb/scanner/scanner.py:125-174 | a port that times out, refuses or fails gives nothing. An open port 502 with verification on gives exactly the verification's result. Port 8000 gives a dongle candidate. Any other open port gives an unverified Modbus device. A code, an error or verification occurs only on port 502 with verification on, and without verification serial, family, code, firmware and error are all absent. Every result carries the outcome of the MAC lookup |
| Scanner.MacLookupOnlyAddsMac | src/pylxpweb/scanner/scanner.py:144-174 | enabling the MAC lookup changes only the MAC fields of a probe's result: whether there is a result, and everything else in it, does not depend on it |
| Scanner.PortResults | src/pylxpweb/scanner/scanner.py:71-75 | every result is for this host and a configured port; there are at most as many results as configured ports |
| Scanner.OpenPorts | src/pylxpweb/scanner/scanner.py:71-75 | the configured ports that open on the host, in order, each configured and open |
| Scanner.PortResultsExact | src/pylxpweb/scanner/scanner.py:71-75 | a host gives exactly one result per open port, in port order: the k-th result is the probe of the k-th open port, and every open port's probe is among the results |
| Scanner.ScanResultsExact | src/pylxpweb/scanner/scanner.py:68-77 | every scan result is its own probe's outcome for a scanned host and configured port, and every open configured port of every host contributes its probe's result |
| Scanner.ScanResultsGrow | src/pylxpweb/scanner/scanner.py:71-77 | scanning more hosts never finds fewer devices |
| Scanner.ScanHost | src/pylxpweb/scanner/scanner.py:68-75 | one host's ports are probed in order: one result per open port, each the probe of a configured port, and every open port's probe is kept |
| Scanner.Scan | src/pylxpweb/scanner/scanner.py:51-123 | an empty host list gives no results and no reports. Every result is the probe of a configured port of a scanned host, and every open configured port of every host gives one. Reports come after every tenth host and once at the end with scanned = total and found = number of results, only when reporting is on. Scanned and found counts never decrease |
| RegisterTable.SplitJoin | utils/json_to_markdown.py:98 | splitting at the separator undoes `sep.join` for pieces free of it |
| RegisterTable.FormatSample | utils/json_to_markdown.py:16-30 | a string is wrapped in double quotes; a bool or an integer is rendered unquoted |
| RegisterTable.FormatSampleRoundTrip | utils/json_to_markdown.py:25-26 | True renders as "True", False as "False", and an integer as digits that `int()` reads back |
| RegisterTable.RangeDisplayRoundTrip | utils/json_to_markdown.py:73-78 | the range display names exactly the first register when the size is 1, and the first and last register otherwise |
| RegisterTable.RangeDisplay | utils/json_to_markdown.py:73-78 | the range display; RegisterTable.RangeDisplayRoundTrip states that it reads back as the first and last register |
| RegisterTable.RowFive | utils/json_to_markdown.py:88 | a row is the cells between `\|` characters, each padded by one space |
| RegisterTable.RowCells | utils/json_to_markdown.py:82-96 | splitting a row at `\|` gives back its cells, when no cell contains `\|` |
| RegisterTable.HeaderIsRow | utils/json_to_markdown.py:48 | the header is the row of the five column titles |
| RegisterTable.BoundaryDefaults | utils/json_to_markdown.py:57-61 | without boundary data, the actual start and size are the block's own and there are no leading empty registers |
| RegisterTable.ParameterCellsJoin | utils/json_to_markdown.py:80-96 | the one-parameter cells are the several-parameter join of one element, and a missing sample shows as a quoted N/A |
| RegisterTable.ParameterCells | utils/json_to_markdown.py:80-96 | no parameters give `<EMPTY>` and "-"; otherwise the backquoted names and the formatted samples, each joined by `<br>` in parameter order |
| RegisterTable.EmptyRow | utils/json_to_markdown.py:64-71 | the leading-empty row is the five-cell f-string with the range from the original start, the start, the count, `<EMPTY>` and "-" |
| RegisterTable.DataRow | utils/json_to_markdown.py:73-96 | the data row is the five-cell f-string with the actual range, start and size and the two parameter cells |
| RegisterTable.BlockRows | utils/json_to_markdown.py:63-96 | a block gives an `<EMPTY>` row iff it has leading empty registers, then exactly one data row |
| RegisterTable.RowsCount | utils/json_to_markdown.py:51-96 | the rows number one per block plus one per block with leading empty registers |
| RegisterTable.TableLines | utils/json_to_markdown.py:45-96 | the table is header, separator and the rows: 2 + blocks + blocks with leading empty registers lines |
| RegisterTable.CreateRegisterTable | utils/json_to_markdown.py:33-98 | the output is the lines joined by newlines, and it splits back into them when no line holds a newline. No blocks gives just the header and separator |

## Left out

- The pymodbus client, the asyncio lock, sleeps, the exponential backoff delays and the adaptive inter-group delay of `_read_register_groups`. These are I/O and timing; the register reads are oracles.
- ModbusRead.ReadRegisters: error messages are modelled as error kinds, not as text. `_ensure_connected` is modelled as the `connected` flag.
- ModbusChunks.ReadGroups, ModbusChunks.ReadParameters, ModbusBattery.ReadBattery: `dev` stands for a whole `_read_registers` call with its retries. The consecutive-error counter each call updates and the reconnect guard that runs first (lines 384-385 and 496-497) are not threaded through the bulk reads. ModbusRead.BeforeBulkRead and ModbusRead.Reconnect state the guard on its own, and a reconnect that fails to connect is not modelled.
- ModbusChunks.ReadGroups: the raised error carries only the failing group's name, not the full message text. Later groups overriding earlier ones follows `dict` update order.
- The choice between a single-register and a multi-register write (`_write_holding_registers`). Only the grouping and the order of the writes are modelled; each run's write is the `write` oracle.
- ModbusBattery.ReadBattery: its runtime map comes from the corrected read of registers 0-127 (see Findings), not from the two clamped 64-register calls; ModbusBattery.RuntimeAsWritten keeps the read as written.
- `BatteryBankData.from_modbus_registers` and the individual-battery constants. The decoder and the register-map constants are not part of this model, so the constants are a `BatteryLayout` parameter.
- `read_runtime`, `read_energy`, `read_midbox_runtime`, device identification and the register maps. These decode registers through code that is not part of this model.
- MidRuntime.ScaledField: `scale_mid_voltage`, `scale_mid_current` and `scale_mid_frequency` are not part of this model and are a parameter. Energies divide by ten over exact reals, not IEEE floats.
- The `MIDDevice` class that uses the mixin. Its own defaults are not part of this model; the mixin's None-without-runtime behaviour is modelled as written.
- InverterRuntime.ScaledFloat: `scale_runtime_value` is not part of this model and is a parameter. Transport attributes are exact reals.
- InverterRuntime.HttpRuntime: the cloud fields the accessors read without a None check (`lost`, `_12KUsingGenerator`, `acCouplePower`, `pEpsL1N`, `pEpsL2N`) are plain fields. The optional ones are in a map.
- Scanner.Scan: the concurrent scan (semaphore, task queue, result order by completion) is modelled as a sequential scan in host order. The scanned and found counters of the concurrent version are not modelled per task.
- `parse_ip_range`, the MAC/ARP lookup, the OUI vendor table and `discover_device_info`. They are not part of this model, so the host list and the lookups are parameters.
- The known device-type codes and `get_model_family_name`, which are constants and a function not part of this model. They are parameters.
- RegisterTable.FormatSample: `str()` of a float or of any other value is taken as given text. Python's float formatting is not modelled.
- `create_metadata_section`, `convert_json_to_markdown` and `main`: file I/O and printing around the table.

## Findings

| source | as written | input that shows it | evidently intended | confidence | as-written member | corrected member |
|---|---|---|---|---|---|---|
| src/pylxpweb/transports/_modbus_base.py:506-514 | `read_battery` reads the runtime registers as two calls for 64 registers, at 0 and at 64. `_read_registers` (line 210) puts only `min(count, 40)` registers on the wire | a device that answers every request in full: the runtime map holds 0-39 and 64-103, and registers 40-63 and 104-127 are never read | every runtime register 0-127, as the comment at line 501 says | not executed; a transport subclass that is not part of this model could override `_read_input_registers` | ModbusBattery.RuntimeAsWritten, ModbusBattery.RuntimeAsWrittenGap | ModbusBattery.RuntimeRegisters, ModbusBattery.RuntimeRegistersKeys |
| src/pylxpweb/devices/inverters/_runtime_properties.py:257-260 | the fallback of `_compute_eps_leg_power` gives a leg `int(total / 2)` when the other leg's voltage is truthy, and `int(total)` otherwise | eps_power 1000 with only the L2 voltage (240) gives L1 500 and L2 1000, 1500 in all. With no voltage each leg gets 1000 | the docstring: with one voltage, all power goes to that leg. With none, the comment's equal split. Either way the legs add up to the total | not executed | InverterRuntime.ComputeEpsLegPower, InverterRuntime.EpsFallbackOvercounts | InverterRuntime.IntendedEpsLegPower, InverterRuntime.IntendedEpsLegsAddUp |
