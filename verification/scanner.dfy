/**
 The network scanner: what probing one `ip:port` yields, how a Modbus
 device is verified, and the results and progress reports of a scan.

 The network and the device are oracles in `Env`: the outcome of opening a
 connection, the MAC and vendor lookups, and what `discover_device_info`
 returns (or the message of the exception it raises). The scan is modelled
 sequentially, host after host in list order; the known device-type codes
 and the model-family names are parameters.
 */
module Scanner {
  import opened Wrappers
  import Decimal

  const PortModbus := 502
  const PortDongle := 8000
  /** Hosts scanned between two intermediate progress reports. */
  const ProgressEvery := 10

  datatype DeviceType = ModbusVerified | ModbusUnverified | DongleCandidate

  datatype ScanResult = ScanResult(
    ip: string,
    port: int,
    deviceType: DeviceType,
    serial: Option<string>,
    modelFamily: Option<string>,
    deviceTypeCode: Option<int>,
    firmwareVersion: Option<string>,
    macAddress: Option<string>,
    macVendor: Option<string>,
    responseTimeMs: real,
    error: Option<string>)

  /** `ScanProgress(total_hosts, scanned, found)`. */
  datatype ScanProgress = ScanProgress(totalHosts: int, scanned: int, found: int)

  /** How opening the connection ended. */
  datatype Connection = Open(elapsedMs: real) | TimedOut | Refused | OsFailure

  /** What `discover_device_info` returned, or the message of what it raised. */
  datatype Verification =
    | Discovered(serial: Option<string>, code: int, firmware: string)
    | VerifyFailed(message: string)

  datatype ScanConfig = ScanConfig(ports: seq<int>, verifyModbus: bool, lookupMac: bool, knownCodes: set<int>)

  datatype Env = Env(
    connect: (string, int) -> Connection,
    macOf: string -> Option<string>,
    vendorOf: string -> Option<string>,
    verify: (string, int) -> Verification,
    familyName: int -> string)

  /** The MAC address and vendor attached to a result: looked up only when
      enabled, the vendor only for a non-empty address. */
  function MacInfo(config: ScanConfig, env: Env, ip: string): (info: (Option<string>, Option<string>))
    ensures !config.lookupMac ==> info == (None, None)
    ensures info.1.Some? ==> info.0.Some? && info.0.value != "" && info.1 == env.vendorOf(info.0.value)
  {
    if !config.lookupMac then (None, None)
    else
      var mac := env.macOf(ip);
      if mac.Some? && mac.value != "" then (mac, env.vendorOf(mac.value)) else (mac, None)
  }

  /** The fixed start of the unknown-code error text. */
  const UnknownCodePrefix := "Unknown device type code: "

  /** The error text for a type code that is not one of the known ones. */
  function UnknownCodeError(code: int): string {
    UnknownCodePrefix + Decimal.IntToString(code)
  }

  /** The code can be read back from the error text. */
  lemma UnknownCodeErrorNamesCode(code: int, other: int)
    ensures |UnknownCodeError(code)| > |UnknownCodePrefix|
    ensures UnknownCodeError(code)[..|UnknownCodePrefix|] == UnknownCodePrefix
    ensures UnknownCodeError(code)[|UnknownCodePrefix|..] == Decimal.IntToString(code)
    ensures UnknownCodeError(code) == UnknownCodeError(other) ==> code == other
  {
    if UnknownCodeError(code) == UnknownCodeError(other) {
      assert UnknownCodeError(code)[|UnknownCodePrefix|..] == Decimal.IntToString(code);
      assert UnknownCodeError(other)[|UnknownCodePrefix|..] == Decimal.IntToString(other);
      Decimal.IntToStringInjective(code, other);
    }
  }

  /**
   `_verify_modbus`: a known type code verifies the device (serial kept only
   when non-empty); an unknown code leaves it unverified with the code and
   an error naming it; a failure leaves it unverified with the failure's text.
   */
  function VerifyModbus(config: ScanConfig, env: Env, ip: string, port: int, elapsedMs: real,
                        mac: Option<string>, vendor: Option<string>): (r: ScanResult)
    ensures r.ip == ip && r.port == port && r.responseTimeMs == elapsedMs
    ensures r.macAddress == mac && r.macVendor == vendor
    ensures r.deviceType == ModbusVerified <==>
      env.verify(ip, port).Discovered? && env.verify(ip, port).code in config.knownCodes
    ensures r.deviceType != DongleCandidate
    ensures r.deviceType == ModbusVerified ==>
      && r.deviceTypeCode == Some(env.verify(ip, port).code) && r.error.None?
      && (r.serial.Some? <==> env.verify(ip, port).serial.Some? && env.verify(ip, port).serial.value != "")
      && (r.serial.Some? ==> r.serial == env.verify(ip, port).serial)
      && r.modelFamily == Some(env.familyName(env.verify(ip, port).code))
      && r.firmwareVersion == Some(env.verify(ip, port).firmware)
    ensures env.verify(ip, port).Discovered? && env.verify(ip, port).code !in config.knownCodes ==>
      r.deviceTypeCode == Some(env.verify(ip, port).code) && r.error == Some(UnknownCodeError(env.verify(ip, port).code))
    ensures env.verify(ip, port).VerifyFailed? ==>
      r.deviceTypeCode.None? && r.error == Some(env.verify(ip, port).message)
    // only a verified device carries its serial, model family and firmware
    ensures r.deviceType != ModbusVerified ==>
      r.serial.None? && r.modelFamily.None? && r.firmwareVersion.None?
  {
    match env.verify(ip, port)
    case Discovered(serial, code, firmware) =>
      if code in config.knownCodes then
        var kept := if serial.Some? && serial.value != "" then serial else None;
        ScanResult(ip, port, ModbusVerified, kept, Some(env.familyName(code)), Some(code), Some(firmware),
                   mac, vendor, elapsedMs, None)
      else
        ScanResult(ip, port, ModbusUnverified, None, None, Some(code), None,
                   mac, vendor, elapsedMs, Some(UnknownCodeError(code)))
    case VerifyFailed(message) =>
      ScanResult(ip, port, ModbusUnverified, None, None, None, None, mac, vendor, elapsedMs, Some(message))
  }

  /**
   `_probe_port`: nothing when the connection cannot be opened; the
   verification result on port 502 when verification is on; a dongle
   candidate on port 8000; an unverified Modbus device on any other open port.
   */
  function ProbePort(config: ScanConfig, env: Env, ip: string, port: int): (r: Option<ScanResult>)
    ensures r.Some? <==> env.connect(ip, port).Open?
    ensures r.Some? ==>
      r.value.ip == ip && r.value.port == port && r.value.responseTimeMs == env.connect(ip, port).elapsedMs
    ensures r.Some? && r.value.deviceType == DongleCandidate <==> env.connect(ip, port).Open? && port == PortDongle
    ensures r.Some? && r.value.deviceType == ModbusVerified ==> port == PortModbus && config.verifyModbus
    ensures r.Some? && (r.value.error.Some? || r.value.deviceTypeCode.Some?) ==> port == PortModbus && config.verifyModbus
    ensures env.connect(ip, port).Open? && !(port == PortModbus && config.verifyModbus) && port != PortDongle ==>
      r.value.deviceType == ModbusUnverified
    // an open Modbus port is handed to the verification when it is enabled
    ensures env.connect(ip, port).Open? && port == PortModbus && config.verifyModbus ==>
      r == Some(VerifyModbus(config, env, ip, port, env.connect(ip, port).elapsedMs,
                             MacInfo(config, env, ip).0, MacInfo(config, env, ip).1))
    // every result carries the MAC lookup's outcome
    ensures r.Some? ==> (r.value.macAddress, r.value.macVendor) == MacInfo(config, env, ip)
    // without verification nothing about the device is known
    ensures r.Some? && !(port == PortModbus && config.verifyModbus) ==>
      && r.value.serial.None? && r.value.modelFamily.None? && r.value.deviceTypeCode.None?
      && r.value.firmwareVersion.None? && r.value.error.None?
  {
    match env.connect(ip, port)
    case Open(elapsedMs) =>
      var (mac, vendor) := MacInfo(config, env, ip);
      if port == PortModbus && config.verifyModbus then
        Some(VerifyModbus(config, env, ip, port, elapsedMs, mac, vendor))
      else if port == PortDongle then
        Some(ScanResult(ip, port, DongleCandidate, None, None, None, None, mac, vendor, elapsedMs, None))
      else
        Some(ScanResult(ip, port, ModbusUnverified, None, None, None, None, mac, vendor, elapsedMs, None))
    case _ => None
  }

  /**
   Turning the MAC lookup on changes nothing but the MAC fields: which ports
   give a result, and everything else in it, is decided by the connection
   and the verification alone.
   */
  lemma MacLookupOnlyAddsMac(config: ScanConfig, env: Env, ip: string, port: int)
    ensures var plain := ProbePort(config.(lookupMac := false), env, ip, port);
      var r := ProbePort(config, env, ip, port);
      && plain.Some? == r.Some?
      && (r.Some? ==> plain.value == r.value.(macAddress := None, macVendor := None))
  {
  }

  /** The results of probing `ports` on one host, in port order. */
  function PortResults(config: ScanConfig, env: Env, ip: string, ports: seq<int>): (rs: seq<ScanResult>)
    ensures |rs| <= |ports|
    ensures forall k :: 0 <= k < |rs| ==> rs[k].ip == ip && rs[k].port in ports
    decreases |ports|
  {
    if ports == [] then []
    else
      var last := ports[|ports| - 1];
      var earlier := PortResults(config, env, ip, ports[..|ports| - 1]);
      match ProbePort(config, env, ip, last)
      case Some(res) => earlier + [res]
      case None => earlier
  }

  /** The results of a scan of `hosts`, host after host. */
  function ScanResults(config: ScanConfig, env: Env, hosts: seq<string>): (rs: seq<ScanResult>)
    ensures |rs| <= |hosts| * |config.ports|
    ensures forall k :: 0 <= k < |rs| ==> rs[k].ip in hosts && rs[k].port in config.ports
    decreases |hosts|
  {
    if hosts == [] then []
    else
      var earlier := ScanResults(config, env, hosts[..|hosts| - 1]);
      var here := PortResults(config, env, hosts[|hosts| - 1], config.ports);
      assert |earlier + here| <= (|hosts| - 1) * |config.ports| + |config.ports|;
      earlier + here
  }

  /** The ports of `ports` that open on `ip`, in order: a reference independent of the probe. */
  function OpenPorts(env: Env, ip: string, ports: seq<int>): (open: seq<int>)
    ensures forall k :: 0 <= k < |open| ==> open[k] in ports && env.connect(ip, open[k]).Open?
    decreases |ports|
  {
    if ports == [] then []
    else
      var last := ports[|ports| - 1];
      OpenPorts(env, ip, ports[..|ports| - 1]) + (if env.connect(ip, last).Open? then [last] else [])
  }

  /**
   One host's results are exactly one per open port, in port order: the
   k-th result is the probe of the k-th open port, and every open port's
   probe is among the results.
   */
  lemma {:induction false} PortResultsExact(config: ScanConfig, env: Env, ip: string, ports: seq<int>)
    ensures var rs := PortResults(config, env, ip, ports);
      && |rs| == |OpenPorts(env, ip, ports)|
      && forall k :: 0 <= k < |rs| ==>
        rs[k].port == OpenPorts(env, ip, ports)[k] && ProbePort(config, env, ip, rs[k].port) == Some(rs[k])
    ensures forall p :: p in ports && env.connect(ip, p).Open? ==>
      ProbePort(config, env, ip, p).value in PortResults(config, env, ip, ports)
    decreases |ports|
  {
    if ports != [] {
      var init, last := ports[..|ports| - 1], ports[|ports| - 1];
      PortResultsExact(config, env, ip, init);
      assert forall p :: p in ports ==> p in init || p == last;
    }
  }

  /**
   A scan's results are exactly the probes of the open ports of the hosts:
   every result is its own probe's outcome for a scanned host, and every
   open configured port of every host gives its probe's result.
   */
  lemma {:induction false} ScanResultsExact(config: ScanConfig, env: Env, hosts: seq<string>)
    ensures forall r :: r in ScanResults(config, env, hosts) ==>
      r.ip in hosts && r.port in config.ports && ProbePort(config, env, r.ip, r.port) == Some(r)
    ensures forall h, p :: h in hosts && p in config.ports && env.connect(h, p).Open? ==>
      ProbePort(config, env, h, p).value in ScanResults(config, env, hosts)
    decreases |hosts|
  {
    if hosts != [] {
      var init, last := hosts[..|hosts| - 1], hosts[|hosts| - 1];
      ScanResultsExact(config, env, init);
      PortResultsExact(config, env, last, config.ports);
      var here := PortResults(config, env, last, config.ports);
      assert forall r :: r in here ==> r.ip == last && ProbePort(config, env, r.ip, r.port) == Some(r) by {
        forall r | r in here
          ensures r.ip == last && ProbePort(config, env, r.ip, r.port) == Some(r)
        {
          var k :| 0 <= k < |here| && here[k] == r;
        }
      }
      assert forall h :: h in hosts ==> h in init || h == last;
    }
  }

  /** Scanning more hosts never finds fewer devices. */
  lemma {:induction false} ScanResultsGrow(config: ScanConfig, env: Env, hosts: seq<string>, m: nat, n: nat)
    requires m <= n <= |hosts|
    ensures |ScanResults(config, env, hosts[..m])| <= |ScanResults(config, env, hosts[..n])|
    decreases n - m
  {
    if m < n {
      ScanResultsGrow(config, env, hosts, m, n - 1);
      assert hosts[..n][..n - 1] == hosts[..n - 1];
    }
  }

  /** The progress report due after `scanned` hosts. */
  function ReportAt(config: ScanConfig, env: Env, hosts: seq<string>, scanned: nat): ScanProgress
    requires scanned <= |hosts|
  {
    ScanProgress(|hosts|, scanned, |ScanResults(config, env, hosts[..scanned])|)
  }

  /** The intermediate reports after the first `i` hosts: one after every tenth. */
  ghost predicate IntermediateReports(config: ScanConfig, env: Env, hosts: seq<string>, i: nat, reports: seq<ScanProgress>)
    requires i <= |hosts|
  {
    && |reports| == i / ProgressEvery
    && forall k :: 0 <= k < |reports| ==> reports[k] == ReportAt(config, env, hosts, ProgressEvery * (k + 1))
  }

  /** `_scan_host`: the ports of one host probed in order, open ones kept. */
  method ScanHost(config: ScanConfig, env: Env, ip: string) returns (found: seq<ScanResult>)
    ensures found == PortResults(config, env, ip, config.ports)
    ensures |found| == |OpenPorts(env, ip, config.ports)|
    ensures forall r :: r in found ==> r.port in config.ports && ProbePort(config, env, ip, r.port) == Some(r)
    ensures forall p :: p in config.ports && env.connect(ip, p).Open? ==> ProbePort(config, env, ip, p).value in found
  {
    found := [];
    var j := 0;
    while j < |config.ports|
      invariant 0 <= j <= |config.ports|
      invariant found == PortResults(config, env, ip, config.ports[..j])
    {
      assert config.ports[..j + 1][..j] == config.ports[..j];
      var probe := ProbePort(config, env, ip, config.ports[j]);
      if probe.Some? {
        found := found + [probe.value];
      }
      j := j + 1;
    }
    assert config.ports[..j] == config.ports;
    PortResultsExact(config, env, ip, config.ports);
  }

  /**
   `scan`: every host's results in order, intermediate progress after every
   tenth host and a final report with every host scanned, reports only when
   a progress callback is given; nothing at all for an empty host list.
   */
  method Scan(config: ScanConfig, env: Env, hosts: seq<string>, reportProgress: bool)
    returns (results: seq<ScanResult>, reports: seq<ScanProgress>)
    ensures results == ScanResults(config, env, hosts)
    ensures forall r :: r in results ==>
      r.ip in hosts && r.port in config.ports && ProbePort(config, env, r.ip, r.port) == Some(r)
    ensures forall h, p :: h in hosts && p in config.ports && env.connect(h, p).Open? ==>
      ProbePort(config, env, h, p).value in results
    ensures hosts == [] ==> results == [] && reports == []
    ensures !reportProgress ==> reports == []
    ensures reportProgress && hosts != [] ==>
      && |reports| == |hosts| / ProgressEvery + 1
      && reports[|reports| - 1] == ScanProgress(|hosts|, |hosts|, |results|)
      && forall k :: 0 <= k < |reports| - 1 ==>
        reports[k].scanned == ProgressEvery * (k + 1) && reports[k].totalHosts == |hosts|
    ensures forall a, b :: 0 <= a < b < |reports| ==>
      reports[a].scanned <= reports[b].scanned && reports[a].found <= reports[b].found
  {
    results := [];
    reports := [];
    if hosts == [] {
      return;
    }
    var i := 0;
    while i < |hosts|
      invariant 0 <= i <= |hosts|
      invariant results == ScanResults(config, env, hosts[..i])
      invariant reportProgress ==> IntermediateReports(config, env, hosts, i, reports)
      invariant !reportProgress ==> reports == []
    {
      var here := ScanHost(config, env, hosts[i]);
      assert hosts[..i + 1][..i] == hosts[..i];
      results := results + here;
      i := i + 1;
      if reportProgress && i % ProgressEvery == 0 {
        reports := reports + [ScanProgress(|hosts|, i, |results|)];
      }
    }
    assert hosts[..i] == hosts;
    ScanResultsExact(config, env, hosts);
    if reportProgress {
      var inter := reports;
      reports := reports + [ScanProgress(|hosts|, |hosts|, |results|)];
      assert reports[..|reports| - 1] == inter;
      ReportsOrdered(config, env, hosts, reports);
    }
  }

  /** The reports of a scan come in order: intermediate ones by tenths, then the final one. */
  lemma ReportsOrdered(config: ScanConfig, env: Env, hosts: seq<string>, reports: seq<ScanProgress>)
    requires hosts != [] && |reports| >= 1
    requires IntermediateReports(config, env, hosts, |hosts|, reports[..|reports| - 1])
    requires reports[|reports| - 1] == ReportAt(config, env, hosts, |hosts|)
    ensures forall a, b :: 0 <= a < b < |reports| ==>
      reports[a].scanned <= reports[b].scanned && reports[a].found <= reports[b].found
  {
    var inter := reports[..|reports| - 1];
    forall a, b | 0 <= a < b < |reports|
      ensures reports[a].scanned <= reports[b].scanned && reports[a].found <= reports[b].found
    {
      assert reports[a] == inter[a];
      var sb := if b < |reports| - 1 then ProgressEvery * (b + 1) else |hosts|;
      if b < |reports| - 1 {
        assert reports[b] == inter[b];
      }
      assert reports[b] == ReportAt(config, env, hosts, sb);
      ScanResultsGrow(config, env, hosts, ProgressEvery * (a + 1), sb);
    }
  }
}
