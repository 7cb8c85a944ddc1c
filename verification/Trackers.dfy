/**
 Port-scan, brute-force and exfiltration trackers: fixed windows over maps from key to tracker, and the
 ageing that removes old trackers.
 */
module Trackers {
  import opened HashChains
  import opened Options
  import opened Words

  type Time = int
  type Ip = nat
  type Port = nat

  const PORT_SCAN_WINDOW := 60
  const PORT_SCAN_THRESHOLD := 10
  const MAX_TRACKED_PORTS := 1024
  const BRUTE_FORCE_WINDOW := 600
  const BRUTE_FORCE_THRESHOLD := 5
  const DATA_EXFIL_WINDOW := 600
  const DATA_EXFIL_THRESHOLD := 100 * 1024 * 1024
  const SCAN_MAX_AGE := 300
  const BRUTE_MAX_AGE := 600
  const EXFIL_MAX_AGE := 1800

  datatype Scan = Scan(firstSeen: Time, lastSeen: Time, ports: seq<Port>, synCount: nat, synAckCount: nat,
                       isSynScan: bool, alerted: bool)

  datatype Brute = Brute(windowStart: Time, lastAttempt: Time, failed: nat, count401: nat, count403: nat,
                         alerted: bool)

  datatype Exfil = Exfil(windowStart: Time, lastTransfer: Time, bytes: nat, packets: nat, offHours: bool,
                         alerted: bool)

  datatype ExfilReason = LargeExternal(megabytes: nat) | OffHours(megabytes: nat)

  /** An alert with everything its text depends on. */
  datatype Alert =
    | ScanAlert(src: Ip, ports: nat, seconds: int, synScan: bool)
    | BruteAlert(target: Ip, port: Port, attempts: nat, count401: nat, count403: nat, seconds: int)
    | ExfilAlert(src: Ip, dst: Ip, reason: ExfilReason, packets: nat, seconds: int)

  /**
   What one detection learns from outside: the clock and the hour when it starts, the clock and the hour again if it
   creates a tracker, and whether there is memory for one.
   */
  datatype Moment = Moment(now: Time, hour: int, created: Time, createdHour: int, memory: bool)

  /** A transaction's response, and the moment it is inspected. */
  datatype Response = Response(status: int, at: Moment)

  /** The clock as the three ageing walks read it. */
  datatype Ageing = Ageing(scans: Time, brutes: Time, exfils: Time)

  /** What one inspected packet shows, and the moments at which it is inspected. */
  datatype Packet = Packet(src: Ip, dst: Ip, dstPort: Port, tcpFlags: Option<bv8>, responses: seq<Response>, len: nat,
                           ageAt: Ageing, scanAt: Moment, exfilAt: Moment)

  datatype Detector = Detector(scans: map<Ip, Scan>, brutes: map<(Ip, Port), Brute>, exfils: map<(Ip, Ip), Exfil>)

  const EMPTY := Detector(map[], map[], map[])

  predicate IsOffHours(hour: int) { hour >= 22 || hour < 6 }

  /** The test on the address word as the program writes it. */
  predicate IsExternal(ip: Ip) {
    ip % 256 != 10 && ip % 65536 / 16 * 16 != 0xAC10 && ip % 65536 != 0xC0A8
  }

  predicate IsSyn(flags: bv8) { flags & 0x02 != 0 }
  predicate IsAck(flags: bv8) { flags & 0x10 != 0 }

  // ----- one tracker -----

  /**
   The tracker that a detection works on: the one found or, memory permitting, a new one; and it is reset if its
   window is over.
   */
  function Current<K, V>(m: map<K, V>, k: K, start: V -> Time, window: int, at: Moment, created: V, reset: V)
    : Option<V>
  {
    if k !in m && !at.memory then None
    else
      var v := if k in m then m[k] else created;
      Some(if at.now - start(v) <= window then v else reset)
  }

  function FreshScan(now: Time): Scan { Scan(now, now, [], 0, 0, false, false) }
  function FreshBrute(now: Time): Brute { Brute(now, now, 0, 0, 0, false) }
  function FreshExfil(now: Time, hour: int): Exfil { Exfil(now, now, 0, 0, IsOffHours(hour), false) }

  function ScanStart(v: Scan): Time { v.firstSeen }
  function BruteStart(v: Brute): Time { v.windowStart }
  function ExfilStart(v: Exfil): Time { v.windowStart }

  /** `add_port_to_tracker`. */
  function AddPort(ports: seq<Port>, port: Port): seq<Port> {
    if port in ports || |ports| >= MAX_TRACKED_PORTS then ports else ports + [port]
  }

  function UseScan(v: Scan, now: Time, src: Ip, flags: bv8, port: Port): (Scan, seq<Alert>) {
    var ports := if IsSyn(flags) then AddPort(v.ports, port) else v.ports;
    var synScan := v.isSynScan || (IsSyn(flags) && !IsAck(flags));
    var fires := |ports| > |v.ports| && |ports| >= PORT_SCAN_THRESHOLD && !v.alerted;
    (Scan(v.firstSeen, now, ports,
          if IsSyn(flags) then Wrap32(v.synCount + 1) else v.synCount,
          if IsSyn(flags) && IsAck(flags) then Wrap32(v.synAckCount + 1) else v.synAckCount,
          synScan, v.alerted || fires),
     if fires then [ScanAlert(src, |ports|, now - v.firstSeen, synScan)] else [])
  }

  function UseBrute(v: Brute, now: Time, target: Ip, port: Port, status: int): (Brute, seq<Alert>) {
    var failed := Wrap32(v.failed + 1);
    var c401 := if status == 401 then Wrap32(v.count401 + 1) else v.count401;
    var c403 := if status == 403 then Wrap32(v.count403 + 1) else v.count403;
    var fires := failed >= BRUTE_FORCE_THRESHOLD && !v.alerted;
    (Brute(v.windowStart, now, failed, c401, c403, v.alerted || fires),
     if fires then [BruteAlert(target, port, failed, c401, c403, now - v.windowStart)] else [])
  }

  function UseExfil(v: Exfil, now: Time, hour: int, src: Ip, dst: Ip, len: nat): (Exfil, seq<Alert>) {
    var bytes, packets := Wrap64(v.bytes + len), Wrap32(v.packets + 1);
    var offHours := v.offHours || IsOffHours(hour);
    var large := bytes >= DATA_EXFIL_THRESHOLD && IsExternal(dst) && !v.alerted;
    var night := offHours && bytes >= DATA_EXFIL_THRESHOLD / 10 && !v.alerted;
    var mb := bytes / (1024 * 1024);
    (Exfil(v.windowStart, now, bytes, packets, offHours, v.alerted || large || night),
     if night then [ExfilAlert(src, dst, OffHours(mb), packets, now - v.windowStart)]
     else if large then [ExfilAlert(src, dst, LargeExternal(mb), packets, now - v.windowStart)]
     else [])
  }

  // ----- one packet -----

  function CurrentScan(d: Detector, src: Ip, at: Moment): Option<Scan> {
    Current(d.scans, src, ScanStart, PORT_SCAN_WINDOW, at, FreshScan(at.created), FreshScan(at.now))
  }

  function CurrentBrute(d: Detector, k: (Ip, Port), at: Moment): Option<Brute> {
    Current(d.brutes, k, BruteStart, BRUTE_FORCE_WINDOW, at, FreshBrute(at.created), FreshBrute(at.now))
  }

  function CurrentExfil(d: Detector, k: (Ip, Ip), at: Moment): Option<Exfil> {
    Current(d.exfils, k, ExfilStart, DATA_EXFIL_WINDOW, at, FreshExfil(at.created, at.createdHour),
            FreshExfil(at.now, at.hour))
  }

  function ScanStep(d: Detector, p: Packet): (Detector, seq<Alert>) {
    var v := CurrentScan(d, p.src, p.scanAt);
    if p.tcpFlags.None? || v.None? then (d, [])
    else
      var u := UseScan(v.value, p.scanAt.now, p.src, p.tcpFlags.value, p.dstPort);
      (d.(scans := d.scans[p.src := u.0]), u.1)
  }

  predicate IsFailure(status: int) { status == 401 || status == 403 }

  function BruteStep(d: Detector, p: Packet, r: Response): (Detector, seq<Alert>) {
    var k := (p.dst, p.dstPort);
    var v := CurrentBrute(d, k, r.at);
    if !IsFailure(r.status) || v.None? then (d, [])
    else
      var u := UseBrute(v.value, r.at.now, p.dst, p.dstPort, r.status);
      (d.(brutes := d.brutes[k := u.0]), u.1)
  }

  /** All transactions of the flow, in list order. */
  function BruteSteps(d: Detector, p: Packet, responses: seq<Response>): (Detector, seq<Alert>)
    decreases |responses|
  {
    if responses == [] then (d, [])
    else
      var last := |responses| - 1;
      var a := BruteSteps(d, p, responses[..last]);
      var b := BruteStep(a.0, p, responses[last]);
      (b.0, a.1 + b.1)
  }

  function ExfilStep(d: Detector, p: Packet): (Detector, seq<Alert>) {
    var k := (p.src, p.dst);
    var v := CurrentExfil(d, k, p.exfilAt);
    if p.len == 0 || v.None? then (d, [])
    else
      var u := UseExfil(v.value, p.exfilAt.now, p.exfilAt.hour, p.src, p.dst, p.len);
      (d.(exfils := d.exfils[k := u.0]), u.1)
  }

  function Age(d: Detector, at: Ageing): Detector {
    Detector(Kept(d.scans, (v: Scan) => at.scans - v.lastSeen > SCAN_MAX_AGE),
             Kept(d.brutes, (v: Brute) => at.brutes - v.windowStart > BRUTE_MAX_AGE),
             Kept(d.exfils, (v: Exfil) => at.exfils - v.windowStart > EXFIL_MAX_AGE))
  }

  function Inspect(d: Detector, p: Packet): (Detector, seq<Alert>) {
    var a := ScanStep(d, p);
    var b := BruteSteps(a.0, p, p.responses);
    var c := ExfilStep(b.0, p);
    (c.0, a.1 + b.1 + c.1)
  }

  function Swept(d: Detector, p: Packet, age: bool): Detector { if age then Age(d, p.ageAt) else d }

  /** The alerts of a run, packet by packet; `ages[i]` says whether ageing precedes packet i. */
  function Alerts(d: Detector, packets: seq<Packet>, ages: seq<bool>): (r: seq<seq<Alert>>)
    requires |ages| == |packets|
    ensures |r| == |packets|
    decreases |packets|
  {
    if packets == [] then []
    else
      var s := Inspect(Swept(d, packets[0], ages[0]), packets[0]);
      [s.1] + Alerts(s.0, packets[1..], ages[1..])
  }

  function Never(n: nat): seq<bool> { seq(n, _ => false) }

  // ----- the clock -----

  predicate From(t: Time, at: Moment) { t <= at.now <= at.created }

  function AfterResponses(t: Time, responses: seq<Response>): Time {
    if responses == [] then t else responses[|responses| - 1].at.created
  }

  predicate ResponsesFrom(t: Time, responses: seq<Response>)
    decreases |responses|
  {
    responses == [] ||
    (ResponsesFrom(t, responses[..|responses| - 1])
     && From(AfterResponses(t, responses[..|responses| - 1]), responses[|responses| - 1].at))
  }

  /** All readings of a packet come after time `t`, in the order in which they are taken. */
  predicate PacketFrom(t: Time, p: Packet) {
    && t <= p.ageAt.scans <= p.ageAt.brutes <= p.ageAt.exfils && From(p.ageAt.exfils, p.scanAt)
    && ResponsesFrom(p.scanAt.created, p.responses)
    && From(AfterResponses(p.scanAt.created, p.responses), p.exfilAt)
  }

  /** The clock never goes back. */
  predicate ClockFrom(t: Time, packets: seq<Packet>)
    decreases |packets|
  {
    packets == [] || (PacketFrom(t, packets[0]) && ClockFrom(packets[0].exfilAt.created, packets[1..]))
  }

  /** The second readings are at most `gap` later than the first, and memory fails only if `failures` says so. */
  predicate Within(at: Moment, gap: nat, failures: bool) {
    && at.created <= at.now + gap && (gap == 0 ==> at.createdHour == at.hour) && (at.memory || failures)
  }

  predicate PacketWithin(p: Packet, gap: nat, failures: bool) {
    && Within(p.scanAt, gap, failures) && Within(p.exfilAt, gap, failures)
    && forall i :: 0 <= i < |p.responses| ==> Within(p.responses[i].at, gap, failures)
  }

  predicate AllWithin(packets: seq<Packet>, gap: nat, failures: bool) {
    forall i :: 0 <= i < |packets| ==> PacketWithin(packets[i], gap, failures)
  }

  // ----- runs in which ageing cannot matter -----

  /** How long after the start of its window a scan tracker may seem to have been last used. */
  const SCAN_SLACK := SCAN_MAX_AGE - PORT_SCAN_WINDOW

  predicate Steady(at: Moment) { Within(at, 0, false) }

  /** The two readings of a detection agree and there is memory, or no tracker exists that could have been aged out. */
  predicate CalmScan(d: Detector, p: Packet) {
    p.tcpFlags.None? || Steady(p.scanAt)
    || (p.src !in d.scans && p.scanAt.created <= p.scanAt.now + SCAN_SLACK)
  }

  predicate CalmBrute(d: Detector, p: Packet, r: Response) {
    !IsFailure(r.status) || Steady(r.at) || (p.dst, p.dstPort) !in d.brutes
  }

  predicate CalmBrutes(d: Detector, p: Packet, responses: seq<Response>)
    decreases |responses|
  {
    responses == [] ||
    var front, last := responses[..|responses| - 1], responses[|responses| - 1];
    CalmBrutes(d, p, front) && CalmBrute(BruteSteps(d, p, front).0, p, last)
  }

  predicate CalmExfil(d: Detector, p: Packet) {
    p.len == 0 || Steady(p.exfilAt) || (p.src, p.dst) !in d.exfils
  }

  predicate CalmPacket(d: Detector, p: Packet) {
    var a := ScanStep(d, p).0;
    CalmScan(d, p) && CalmBrutes(a, p, p.responses) && CalmExfil(BruteSteps(a, p, p.responses).0, p)
  }

  /** Along the run that never ages, every packet is calm. */
  predicate Harmless(d: Detector, packets: seq<Packet>)
    decreases |packets|
  {
    packets == [] || (CalmPacket(d, packets[0]) && Harmless(Inspect(d, packets[0]).0, packets[1..]))
  }

  lemma {:induction false} SteadyBrutes(d: Detector, p: Packet, responses: seq<Response>)
    requires forall i :: 0 <= i < |responses| ==> Steady(responses[i].at)
    ensures CalmBrutes(d, p, responses)
    decreases |responses|
  {
    hide Steady, BruteSteps;
    if responses != [] { SteadyBrutes(d, p, responses[..|responses| - 1]); }
  }

  /** A run whose second readings always agree and whose memory lasts is harmless. */
  lemma {:induction false} SteadyHarmless(d: Detector, packets: seq<Packet>)
    requires AllWithin(packets, 0, false)
    ensures Harmless(d, packets)
    decreases |packets|
  {
    if packets != [] {
      var p := packets[0];
      assert PacketWithin(p, 0, false);
      SteadyBrutes(ScanStep(d, p).0, p, p.responses);
      hide Inspect, ScanStep, BruteSteps, PacketWithin, CalmBrutes;
      SteadyHarmless(Inspect(d, p).0, packets[1..]);
    }
  }

  // ----- ageing is invisible in harmless runs -----

  /** `aged` lacks only trackers whose window is over: their next use starts them anew in either table. */
  ghost predicate Sim<K(!new), V(!new)>(full: map<K, V>, aged: map<K, V>, start: V -> Time, window: int, t: Time) {
    && (forall k :: k in aged ==> k in full && aged[k] == full[k])
    && (forall k :: k in full && k !in aged ==> t - start(full[k]) > window)
  }

  lemma SimCurrent<K(!new), V(!new)>(full: map<K, V>, aged: map<K, V>, start: V -> Time, window: int, t: Time,
                                     at: Moment, k: K, created: V, reset: V, v: V)
    requires Sim(full, aged, start, window, t) && t <= at.now
    requires k !in full || (at.memory && created == reset && window >= 0 && start(reset) == at.now)
    ensures Current(full, k, start, window, at, created, reset) == Current(aged, k, start, window, at, created, reset)
    ensures Sim(full[k := v], aged[k := v], start, window, at.now)
    ensures Sim(full, aged, start, window, at.now)
  {
  }

  lemma SimKept<K(!new), V(!new)>(full: map<K, V>, aged: map<K, V>, start: V -> Time, window: int, now: Time,
                                  stale: V -> bool)
    requires Sim(full, aged, start, window, now)
    requires forall k :: k in aged && stale(aged[k]) ==> now - start(aged[k]) > window
    ensures Sim(full, Kept(aged, stale), start, window, now)
  {
  }

  /** The full and the aged detector, at time `t`. */
  ghost predicate Similar(full: Detector, aged: Detector, t: Time) {
    && Sim(full.scans, aged.scans, ScanStart, PORT_SCAN_WINDOW, t)
    && Sim(full.brutes, aged.brutes, BruteStart, BRUTE_FORCE_WINDOW, t)
    && Sim(full.exfils, aged.exfils, ExfilStart, DATA_EXFIL_WINDOW, t)
    && (forall k :: k in full.scans ==>
          full.scans[k].firstSeen <= full.scans[k].lastSeen + SCAN_SLACK && full.scans[k].lastSeen <= t)
  }

  lemma SimilarLater(full: Detector, aged: Detector, t: Time, u: Time)
    requires Similar(full, aged, t) && t <= u
    ensures Similar(full, aged, u)
  {
  }

  lemma SimilarAge(full: Detector, aged: Detector, t: Time, at: Ageing)
    requires Similar(full, aged, t) && t <= at.scans <= at.brutes <= at.exfils
    ensures Similar(full, Age(aged, at), at.exfils)
  {
    SimKept(full.scans, aged.scans, ScanStart, PORT_SCAN_WINDOW, at.scans,
            (v: Scan) => at.scans - v.lastSeen > SCAN_MAX_AGE);
    SimKept(full.brutes, aged.brutes, BruteStart, BRUTE_FORCE_WINDOW, at.brutes,
            (v: Brute) => at.brutes - v.windowStart > BRUTE_MAX_AGE);
    SimKept(full.exfils, aged.exfils, ExfilStart, DATA_EXFIL_WINDOW, at.exfils,
            (v: Exfil) => at.exfils - v.windowStart > EXFIL_MAX_AGE);
  }

  lemma SimilarScan(full: Detector, aged: Detector, t: Time, p: Packet)
    requires Similar(full, aged, t) && From(t, p.scanAt) && CalmScan(full, p)
    ensures Similar(ScanStep(full, p).0, ScanStep(aged, p).0, p.scanAt.now)
    ensures ScanStep(full, p).1 == ScanStep(aged, p).1
  {
    SimilarLater(full, aged, t, p.scanAt.now);
    if p.tcpFlags.Some? && p.src in ScanStep(full, p).0.scans {
      SimCurrent(full.scans, aged.scans, ScanStart, PORT_SCAN_WINDOW, t, p.scanAt, p.src,
                 FreshScan(p.scanAt.created), FreshScan(p.scanAt.now), ScanStep(full, p).0.scans[p.src]);
    }
  }

  lemma SimilarBrute(full: Detector, aged: Detector, t: Time, p: Packet, r: Response)
    requires Similar(full, aged, t) && From(t, r.at) && CalmBrute(full, p, r)
    ensures Similar(BruteStep(full, p, r).0, BruteStep(aged, p, r).0, r.at.now)
    ensures BruteStep(full, p, r).1 == BruteStep(aged, p, r).1
  {
    SimilarLater(full, aged, t, r.at.now);
    var k := (p.dst, p.dstPort);
    if IsFailure(r.status) && k in BruteStep(full, p, r).0.brutes {
      SimCurrent(full.brutes, aged.brutes, BruteStart, BRUTE_FORCE_WINDOW, t, r.at, k,
                 FreshBrute(r.at.created), FreshBrute(r.at.now), BruteStep(full, p, r).0.brutes[k]);
    }
  }

  lemma {:induction false} SimilarBrutes(full: Detector, aged: Detector, t: Time, p: Packet, responses: seq<Response>)
    requires Similar(full, aged, t) && ResponsesFrom(t, responses) && CalmBrutes(full, p, responses)
    ensures Similar(BruteSteps(full, p, responses).0, BruteSteps(aged, p, responses).0, AfterResponses(t, responses))
    ensures BruteSteps(full, p, responses).1 == BruteSteps(aged, p, responses).1
    decreases |responses|
  {
    if responses != [] {
      hide Similar, BruteStep, CalmBrute;
      var front, r := responses[..|responses| - 1], responses[|responses| - 1];
      SimilarBrutes(full, aged, t, p, front);
      var f, a := BruteSteps(full, p, front).0, BruteSteps(aged, p, front).0;
      SimilarBrute(f, a, AfterResponses(t, front), p, r);
      SimilarLater(BruteStep(f, p, r).0, BruteStep(a, p, r).0, r.at.now, r.at.created);
    }
  }

  lemma SimilarExfil(full: Detector, aged: Detector, t: Time, p: Packet)
    requires Similar(full, aged, t) && From(t, p.exfilAt) && CalmExfil(full, p)
    ensures Similar(ExfilStep(full, p).0, ExfilStep(aged, p).0, p.exfilAt.created)
    ensures ExfilStep(full, p).1 == ExfilStep(aged, p).1
  {
    SimilarLater(full, aged, t, p.exfilAt.now);
    var k := (p.src, p.dst);
    if p.len > 0 && k in ExfilStep(full, p).0.exfils {
      SimCurrent(full.exfils, aged.exfils, ExfilStart, DATA_EXFIL_WINDOW, t, p.exfilAt, k,
                 FreshExfil(p.exfilAt.created, p.exfilAt.createdHour), FreshExfil(p.exfilAt.now, p.exfilAt.hour),
                 ExfilStep(full, p).0.exfils[k]);
    }
    SimilarLater(ExfilStep(full, p).0, ExfilStep(aged, p).0, p.exfilAt.now, p.exfilAt.created);
  }

  lemma SimilarInspect(full: Detector, aged: Detector, t: Time, p: Packet)
    requires Similar(full, aged, t) && PacketFrom(p.ageAt.scans, p) && t <= p.ageAt.exfils && CalmPacket(full, p)
    ensures Similar(Inspect(full, p).0, Inspect(aged, p).0, p.exfilAt.created)
    ensures Inspect(full, p).1 == Inspect(aged, p).1
  {
    hide Similar, ScanStep, BruteSteps, ExfilStep, ResponsesFrom, CalmScan, CalmBrutes, CalmExfil;
    var f, a := ScanStep(full, p).0, ScanStep(aged, p).0;
    SimilarScan(full, aged, t, p);
    SimilarLater(f, a, p.scanAt.now, p.scanAt.created);
    SimilarBrutes(f, a, p.scanAt.created, p, p.responses);
    SimilarExfil(BruteSteps(f, p, p.responses).0, BruteSteps(a, p, p.responses).0,
                 AfterResponses(p.scanAt.created, p.responses), p);
  }

  lemma {:induction false} SimilarRun(full: Detector, aged: Detector, t: Time, packets: seq<Packet>, ages: seq<bool>)
    requires Similar(full, aged, t) && ClockFrom(t, packets) && |ages| == |packets| && Harmless(full, packets)
    ensures Alerts(aged, packets, ages) == Alerts(full, packets, Never(|packets|))
    decreases |packets|
  {
    if packets != [] {
      var p := packets[0];
      hide Similar, Inspect, Age, CalmPacket;
      SimilarAge(full, aged, t, p.ageAt);
      SimilarLater(full, aged, t, p.ageAt.exfils);
      var b := Swept(aged, p, ages[0]);
      SimilarInspect(full, b, p.ageAt.exfils, p);
      SimilarRun(Inspect(full, p).0, Inspect(b, p).0, p.exfilAt.created, packets[1..], ages[1..]);
      assert Never(|packets|)[1..] == Never(|packets[1..]|);
    }
  }

  /**
   Ageing at any points changes no alert of a run in which readings disagree or memory fails only at detections
   whose tracker would have to be created without ageing too.
   */
  lemma AgeingInvisible(t: Time, packets: seq<Packet>, ages: seq<bool>)
    requires ClockFrom(t, packets) && |ages| == |packets| && Harmless(EMPTY, packets)
    ensures Alerts(EMPTY, packets, ages) == Alerts(EMPTY, packets, Never(|packets|))
  {
    SimilarRun(EMPTY, EMPTY, t, packets, ages);
  }
}
