/**
 The detector object: three tables of hash chains, a packet counter that triggers ageing, and the inspection
 of one packet.  Its tables mean the maps of `Trackers`.
 */
module BehavioralDetector {
  import opened HashChains
  import opened Trackers
  import opened Words
  import opened Options

  const TRACKER_HASH_SIZE := 1024
  const AGEING_PERIOD := 10000

  /** Whether ageing precedes the packet with this number, counted from 1. */
  predicate AgesAt(count: nat) { count % AGEING_PERIOD == 0 }

  class DetectorTables {
    const scans: Table<Ip, Scan>
    const brutes: Table<(Ip, Port), Brute>
    const exfils: Table<(Ip, Ip), Exfil>
    var packetCount: nat

    ghost predicate Valid()
      reads this, scans, brutes, exfils
    {
      scans.Valid() && brutes.Valid() && exfils.Valid()
    }

    ghost function View(): Detector
      reads scans, brutes, exfils
    {
      Detector(scans.contents, brutes.contents, exfils.contents)
    }

    constructor (hashIp: Ip -> nat, hashTarget: ((Ip, Port)) -> nat, hashPair: ((Ip, Ip)) -> nat)
      ensures Valid() && fresh(scans) && fresh(brutes) && fresh(exfils) && View() == EMPTY && packetCount == 0
    {
      scans := new Table(hashIp, TRACKER_HASH_SIZE);
      brutes := new Table(hashTarget, TRACKER_HASH_SIZE);
      exfils := new Table(hashPair, TRACKER_HASH_SIZE);
      packetCount := 0;
    }

    /** `add_port_to_tracker`. */
    static method AddPortToTracker(ports: seq<Port>, port: Port) returns (r: seq<Port>, isNew: bool)
      ensures r == AddPort(ports, port) && (isNew <==> |r| > |ports|)
    {
      var i := 0;
      while i < |ports|
        invariant i <= |ports| && port !in ports[..i]
      {
        if ports[i] == port { return ports, false; }
        i := i + 1;
      }
      if |ports| < MAX_TRACKED_PORTS { return ports + [port], true; }
      return ports, false;
    }

    /** One packet on one port-scan tracker: window, SYN count, port list, threshold. */
    static method TouchScan(found: Scan, p: Packet) returns (v: Scan, alerts: seq<Alert>)
      requires p.tcpFlags.Some?
      ensures var now := p.scanAt.now;
              var base := if now - found.firstSeen <= PORT_SCAN_WINDOW then found else FreshScan(now);
              (v, alerts) == UseScan(base, now, p.src, p.tcpFlags.value, p.dstPort)
    {
      var flags, now := p.tcpFlags.value, p.scanAt.now;
      v := found;
      if now - v.firstSeen > PORT_SCAN_WINDOW {
        v := v.(firstSeen := now, ports := [], synCount := 0, synAckCount := 0, isSynScan := false, alerted := false);
      }
      v := v.(lastSeen := now);
      alerts := [];
      if IsSyn(flags) {
        v := v.(synCount := Wrap32(v.synCount + 1));
        var ports, isNew := AddPortToTracker(v.ports, p.dstPort);
        v := v.(ports := ports);
        if !IsAck(flags) { v := v.(isSynScan := true); }
        if isNew && |v.ports| >= PORT_SCAN_THRESHOLD && !v.alerted {
          alerts := [ScanAlert(p.src, |v.ports|, now - v.firstSeen, v.isSynScan)];
          v := v.(alerted := true);
        }
      }
      if IsSyn(flags) && IsAck(flags) { v := v.(synAckCount := Wrap32(v.synAckCount + 1)); }
    }

    static method TouchBrute(found: Brute, p: Packet, r: Response) returns (v: Brute, alerts: seq<Alert>)
      requires IsFailure(r.status)
      ensures var base := if r.at.now - found.windowStart <= BRUTE_FORCE_WINDOW then found else FreshBrute(r.at.now);
              (v, alerts) == UseBrute(base, r.at.now, p.dst, p.dstPort, r.status)
    {
      var now := r.at.now;
      v := found;
      if now - v.windowStart > BRUTE_FORCE_WINDOW {
        v := v.(windowStart := now, failed := 0, count401 := 0, count403 := 0, alerted := false);
      }
      v := v.(lastAttempt := now, failed := Wrap32(v.failed + 1));
      if r.status == 401 {
        v := v.(count401 := Wrap32(v.count401 + 1));
      } else if r.status == 403 {
        v := v.(count403 := Wrap32(v.count403 + 1));
      }
      alerts := [];
      if v.failed >= BRUTE_FORCE_THRESHOLD && !v.alerted {
        alerts := [BruteAlert(p.dst, p.dstPort, v.failed, v.count401, v.count403, now - v.windowStart)];
        v := v.(alerted := true);
      }
    }

    static method TouchExfil(found: Exfil, p: Packet) returns (v: Exfil, alerts: seq<Alert>)
      ensures var at := p.exfilAt;
              var base := if at.now - found.windowStart <= DATA_EXFIL_WINDOW then found
                          else FreshExfil(at.now, at.hour);
              (v, alerts) == UseExfil(base, at.now, at.hour, p.src, p.dst, p.len)
    {
      var now, hour := p.exfilAt.now, p.exfilAt.hour;
      v := found;
      if now - v.windowStart > DATA_EXFIL_WINDOW {
        v := v.(windowStart := now, bytes := 0, packets := 0, offHours := IsOffHours(hour), alerted := false);
      }
      v := v.(lastTransfer := now, bytes := Wrap64(v.bytes + p.len), packets := Wrap32(v.packets + 1));
      if IsOffHours(hour) { v := v.(offHours := true); }
      var reason := None;
      if v.bytes >= DATA_EXFIL_THRESHOLD && IsExternal(p.dst) && !v.alerted {
        reason := Some(LargeExternal(v.bytes / (1024 * 1024)));
      }
      if v.offHours && v.bytes >= DATA_EXFIL_THRESHOLD / 10 && !v.alerted {
        reason := Some(OffHours(v.bytes / (1024 * 1024)));
      }
      alerts := [];
      if reason.Some? {
        alerts := [ExfilAlert(p.src, p.dst, reason.value, v.packets, now - v.windowStart)];
        v := v.(alerted := true);
      }
    }

    method DetectPortScan(p: Packet) returns (alerts: seq<Alert>)
      requires Valid()
      modifies scans
      ensures Valid() && (View(), alerts) == ScanStep(old(View()), p)
    {
      hide Table.Valid, UseScan;
      if p.tcpFlags.None? { return []; }
      var found := scans.GetOrCreate(p.src, FreshScan(p.scanAt.created), p.scanAt.memory);
      if found.None? { return []; }
      var u, a := TouchScan(found.value, p);
      scans.Store(p.src, u);
      assert scans.contents == old(scans.contents)[p.src := u];
      alerts := a;
    }

    method DetectBruteForce(p: Packet, r: Response) returns (alerts: seq<Alert>)
      requires Valid()
      modifies brutes
      ensures Valid() && (View(), alerts) == BruteStep(old(View()), p, r)
    {
      hide Table.Valid, UseBrute;
      if !IsFailure(r.status) { return []; }
      var found := brutes.GetOrCreate((p.dst, p.dstPort), FreshBrute(r.at.created), r.at.memory);
      if found.None? { return []; }
      var u, a := TouchBrute(found.value, p, r);
      brutes.Store((p.dst, p.dstPort), u);
      assert brutes.contents == old(brutes.contents)[(p.dst, p.dstPort) := u];
      alerts := a;
    }

    method DetectExfiltration(p: Packet) returns (alerts: seq<Alert>)
      requires Valid() && p.len > 0
      modifies exfils
      ensures Valid() && (View(), alerts) == ExfilStep(old(View()), p)
    {
      hide Table.Valid, UseExfil;
      var at := p.exfilAt;
      var found := exfils.GetOrCreate((p.src, p.dst), FreshExfil(at.created, at.createdHour), at.memory);
      if found.None? { return []; }
      var u, a := TouchExfil(found.value, p);
      exfils.Store((p.src, p.dst), u);
      assert exfils.contents == old(exfils.contents)[(p.src, p.dst) := u];
      alerts := a;
    }

    method AgeTrackers(at: Ageing)
      requires Valid()
      modifies scans, brutes, exfils
      ensures Valid() && View() == Age(old(View()), at)
    {
      scans.AgeOut((v: Scan) => at.scans - v.lastSeen > SCAN_MAX_AGE);
      brutes.AgeOut((v: Brute) => at.brutes - v.windowStart > BRUTE_MAX_AGE);
      exfils.AgeOut((v: Exfil) => at.exfils - v.windowStart > EXFIL_MAX_AGE);
    }

    method DetectAllBruteForce(p: Packet) returns (alerts: seq<Alert>)
      requires Valid()
      modifies brutes
      ensures Valid() && (View(), alerts) == BruteSteps(old(View()), p, p.responses)
    {
      hide BruteStep, Table.Valid;
      alerts := [];
      for i := 0 to |p.responses|
        invariant Valid() && (View(), alerts) == BruteSteps(old(View()), p, p.responses[..i])
      {
        var more := DetectBruteForce(p, p.responses[i]);
        assert p.responses[..i + 1][..i] == p.responses[..i];
        alerts := alerts + more;
      }
      assert p.responses[..|p.responses|] == p.responses;
    }

    /** `behavioral_detector_inspect_packet`. */
    method InspectPacket(p: Packet) returns (alerts: seq<Alert>)
      requires Valid()
      modifies this, scans, brutes, exfils
      ensures Valid() && packetCount == old(packetCount) + 1
      ensures (View(), alerts) == Inspect(Swept(old(View()), p, packetCount % 10000 == 0), p)
    {
      hide ScanStep, BruteSteps, ExfilStep, Age, Table.Valid;
      packetCount := packetCount + 1;
      if AgesAt(packetCount) { AgeTrackers(p.ageAt); }
      var a := DetectPortScan(p);
      var b := DetectAllBruteForce(p);
      var c := [];
      if p.len > 0 { c := DetectExfiltration(p); } else { NoTransfer(View(), p); }
      alerts := a + b + c;
    }
  }

  lemma NoTransfer(d: Detector, p: Packet)
    requires p.len == 0
    ensures ExfilStep(d, p) == (d, [])
  {
  }

  /** Which of the next packets the ageing period hits, when `count` packets have been seen. */
  function AgesFrom(count: nat, n: nat): (r: seq<bool>)
    ensures |r| == n
  {
    seq(n, i requires 0 <= i < n => AgesAt(count + i + 1))
  }

  /** Ageing precedes every 10000th packet. */
  lemma AgesEvery(n: nat, i: nat)
    requires i < n
    ensures AgesFrom(0, n)[i] <==> (i + 1) % 10000 == 0
  {
    assert AgesFrom(0, n)[i] == AgesAt(i + 1);
    assert AgesAt(i + 1) <==> (i + 1) % 10000 == 0;
  }

  /**
   A whole run of the detector, ageing every 10000th packet, raises what the maps say; and with a clock that never
   goes back, if the run is harmless, what a detector that never ages would raise.
   */
  method Watch(hashIp: Ip -> nat, hashTarget: ((Ip, Port)) -> nat, hashPair: ((Ip, Ip)) -> nat,
               t: Time, packets: seq<Packet>) returns (log: seq<seq<Alert>>)
    ensures log == Alerts(EMPTY, packets, AgesFrom(0, |packets|))
    ensures ClockFrom(t, packets) && Harmless(EMPTY, packets) ==> log == Alerts(EMPTY, packets, Never(|packets|))
  {
    hide *;
    var d := new DetectorTables(hashIp, hashTarget, hashPair);
    log := [];
    ghost var ages := AgesFrom(0, |packets|);
    assert packets[0..] == packets;
    AlertsEnd(packets);
    for i := 0 to |packets|
      invariant d.Valid() && fresh(d) && fresh(d.scans) && fresh(d.brutes) && fresh(d.exfils)
      invariant d.packetCount == i
      invariant Alerts(EMPTY, packets, ages) == log + Alerts(d.View(), packets[i..], AgesFrom(i, |packets| - i))
    {
      AlertsStep(d.View(), packets, i);
      var alerts := d.InspectPacket(packets[i]);
      log := log + [alerts];
    }
    if ClockFrom(t, packets) && Harmless(EMPTY, packets) { AgeingInvisible(t, packets, ages); }
  }

  lemma AlertsEnd(packets: seq<Packet>)
    ensures forall d: Detector :: Alerts(d, packets[|packets|..], AgesFrom(|packets|, 0)) == []
  {
  }

  lemma AlertsStep(d: Detector, packets: seq<Packet>, i: nat)
    requires i < |packets|
    ensures var s := Inspect(Swept(d, packets[i], (i + 1) % 10000 == 0), packets[i]);
            (Alerts(d, packets[i..], AgesFrom(i, |packets| - i))
              == [s.1] + Alerts(s.0, packets[i + 1..], AgesFrom(i + 1, |packets| - i - 1)))
  {
    hide Inspect, Swept;
    assert packets[i..][1..] == packets[i + 1..];
    assert AgesFrom(i, |packets| - i)[0] == AgesAt(i + 1);
    assert AgesAt(i + 1) <==> (i + 1) % 10000 == 0;
    assert AgesFrom(i, |packets| - i)[1..] == AgesFrom(i + 1, |packets| - i - 1);
  }
}
