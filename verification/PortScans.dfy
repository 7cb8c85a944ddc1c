/**
 When a port scan is reported, in terms of the packets alone: the alert of a source falls on the packet that
 brings the tenth distinct SYN destination port of its current window, and on no other.
 */
module PortScans {
  import opened Trackers
  import opened Words
  import opened Options
  import opened Sequences

  /**
   A source's window, read off the packets: its start, every SYN destination port since then, the number of those
   packets, and how many of them had the ACK bit too.
   */
  datatype Window = Window(start: Time, ports: set<Port>, syns: nat, synAcks: nat) {
    predicate SynScan() { synAcks < syns }
  }

  /** The window in force for a packet, before its own port is added; none if there is no memory to open one. */
  function InForce(prev: Option<Window>, at: Moment): Option<Window> {
    if prev.None? && !at.memory then None
    else
      var w := if prev.Some? then prev.value else Window(at.created, {}, 0, 0);
      Some(if at.now - w.start > PORT_SCAN_WINDOW then Window(at.now, {}, 0, 0) else w)
  }

  function Seen(w: Window, p: Packet): Window
    requires p.tcpFlags.Some?
  {
    if IsSyn(p.tcpFlags.value) then
      w.(ports := w.ports + {p.dstPort}, syns := w.syns + 1,
         synAcks := if IsAck(p.tcpFlags.value) then w.synAcks + 1 else w.synAcks)
    else w
  }

  function WindowOf(packets: seq<Packet>, s: Ip): Option<Window> {
    if packets == [] then None
    else
      var last := |packets| - 1;
      var prev := WindowOf(packets[..last], s);
      if packets[last].src == s then NextWindow(prev, packets[last]) else prev
  }

  /** The never-ageing detector after some packets. */
  function After(packets: seq<Packet>): Detector {
    if packets == [] then EMPTY
    else Inspect(After(packets[..|packets| - 1]), packets[|packets| - 1]).0
  }

  /** A tracker against the window it stands for; the list stops growing at its capacity. */
  ghost predicate Tracks(v: Scan, w: Window) {
    && v.firstSeen == w.start && NoRepeat(v.ports) && Elements(v.ports) <= w.ports
    && |v.ports| == (if |w.ports| <= MAX_TRACKED_PORTS then |w.ports| else MAX_TRACKED_PORTS)
    && (v.alerted <==> |w.ports| >= PORT_SCAN_THRESHOLD) && v.isSynScan == w.SynScan()
    && w.synAcks <= w.syns && v.synCount == Wrap32(w.syns) && v.synAckCount == Wrap32(w.synAcks)
  }

  /** Below its capacity the list is exactly the set of ports. */
  lemma TracksExactly(v: Scan, w: Window)
    requires Tracks(v, w) && |w.ports| <= MAX_TRACKED_PORTS
    ensures Elements(v.ports) == w.ports
  {
    ElementCount(v.ports);
    SubsetSize(Elements(v.ports), w.ports);
  }

  lemma AddPortTracks(v: Scan, w: Window, port: Port)
    requires Tracks(v, w)
    ensures var ports, wide := AddPort(v.ports, port), w.ports + {port};
            && NoRepeat(ports) && Elements(ports) <= wide
            && |ports| == (if |wide| <= MAX_TRACKED_PORTS then |wide| else MAX_TRACKED_PORTS)
            && (|ports| > |v.ports| ==> |wide| == |w.ports| + 1 == |ports|)
            && (|wide| > |w.ports| && |w.ports| < MAX_TRACKED_PORTS ==> |ports| > |v.ports|)
  {
    var ports := AddPort(v.ports, port);
    if |w.ports| <= MAX_TRACKED_PORTS {
      TracksExactly(v, w);
      assert port in v.ports <==> port in w.ports;
    }
    if port in w.ports { assert w.ports + {port} == w.ports; }
    if ports != v.ports { assert Elements(ports) == Elements(v.ports) + {port}; }
  }

  /** One use of a tracker: it keeps tracking, and it fires exactly on the step from nine ports to ten. */
  lemma UseTracks(v: Scan, w: Window, p: Packet)
    requires Tracks(v, w) && p.tcpFlags.Some?
    ensures var u := UseScan(v, p.scanAt.now, p.src, p.tcpFlags.value, p.dstPort);
            && Tracks(u.0, Seen(w, p))
            && |u.1| == (if |w.ports| == PORT_SCAN_THRESHOLD - 1 && |Seen(w, p).ports| == PORT_SCAN_THRESHOLD
                         then 1 else 0)
            && (|u.1| == 1 ==> u.1[0].ScanAlert? && u.1[0].src == p.src && u.1[0].ports == PORT_SCAN_THRESHOLD
                               && u.1[0].seconds == p.scanAt.now - w.start && u.1[0].synScan == Seen(w, p).SynScan())
  {
    WrapNext(w.syns);
    WrapNext(w.synAcks);
    hide Wrap32;
    if IsSyn(p.tcpFlags.value) {
      AddPortTracks(v, w, p.dstPort);
      assert |w.ports + {p.dstPort}| <= |w.ports| + 1;
      SubsetSize(w.ports, w.ports + {p.dstPort});
    }
  }

  /** The tracker of a source stands for its window. */
  ghost predicate TrackAt(d: Detector, s: Ip, w: Option<Window>) {
    (s in d.scans <==> w.Some?) && (w.Some? ==> Tracks(d.scans[s], w.value))
  }

  /** The trackers of a detector are those of the packets' windows. */
  ghost predicate TracksAll(d: Detector, packets: seq<Packet>) {
    forall s: Ip :: TrackAt(d, s, WindowOf(packets, s))
  }

  /** A source's window after one more packet of its own. */
  function NextWindow(prev: Option<Window>, p: Packet): Option<Window> {
    var w := InForce(prev, p.scanAt);
    if p.tcpFlags.Some? && w.Some? then Some(Seen(w.value, p)) else prev
  }

  /** Packet `p` takes its source from nine distinct ports to ten. */
  predicate ToTenth(prev: Option<Window>, p: Packet) {
    var w := InForce(prev, p.scanAt);
    p.tcpFlags.Some? && w.Some?
    && |w.value.ports| == PORT_SCAN_THRESHOLD - 1 && |Seen(w.value, p).ports| == PORT_SCAN_THRESHOLD
  }

  /** The scan alert of a packet, if its source's window was `prev`. */
  predicate RightAlerts(prev: Option<Window>, p: Packet, found: seq<Alert>) {
    if ToTenth(prev, p) then
      && |found| == 1 && found[0].ScanAlert? && found[0].src == p.src && found[0].ports == PORT_SCAN_THRESHOLD
      && found[0].seconds == p.scanAt.now - InForce(prev, p.scanAt).value.start
      && found[0].synScan == Seen(InForce(prev, p.scanAt).value, p).SynScan()
    else found == []
  }

  lemma OwnTracks(d: Detector, prev: Option<Window>, p: Packet)
    requires TrackAt(d, p.src, prev)
    ensures TrackAt(ScanStep(d, p).0, p.src, NextWindow(prev, p)) && RightAlerts(prev, p, ScanStep(d, p).1)
  {
    hide Tracks, UseScan, InForce, CurrentScan, Seen;
    if p.tcpFlags.Some? {
      CurrentTracks(d, p.src, prev, p.scanAt);
      var w, v := InForce(prev, p.scanAt), CurrentScan(d, p.src, p.scanAt);
      if w.Some? { UseTracks(v.value, w.value, p); }
    }
  }

  lemma OtherScans(d: Detector, p: Packet, s: Ip)
    requires s != p.src
    ensures s in ScanStep(d, p).0.scans <==> s in d.scans
    ensures s in d.scans ==> ScanStep(d, p).0.scans[s] == d.scans[s]
  {
    hide UseScan, CurrentScan;
  }

  lemma ScanStepTracks(d: Detector, before: seq<Packet>, p: Packet)
    requires TracksAll(d, before)
    ensures TracksAll(ScanStep(d, p).0, before + [p])
    ensures RightAlerts(WindowOf(before, p.src), p, ScanStep(d, p).1)
  {
    assert (before + [p])[..|before|] == before;
    OwnTracks(d, WindowOf(before, p.src), p);
    hide ScanStep, InForce, Seen, Tracks;
    forall s: Ip ensures TrackAt(ScanStep(d, p).0, s, WindowOf(before + [p], s)) {
      assert TrackAt(d, s, WindowOf(before, s));
      if s != p.src { OtherScans(d, p, s); }
    }
  }

  /** The tracker a detection works on stands for the window in force. */
  lemma CurrentTracks(d: Detector, src: Ip, prev: Option<Window>, at: Moment)
    requires src in d.scans <==> prev.Some?
    requires src in d.scans ==> Tracks(d.scans[src], prev.value)
    ensures CurrentScan(d, src, at).Some? <==> InForce(prev, at).Some?
    ensures InForce(prev, at).Some? ==> Tracks(CurrentScan(d, src, at).value, InForce(prev, at).value)
  {
    FreshTracks(at.now);
    FreshTracks(at.created);
    if prev.Some? { assert d.scans[src].firstSeen == prev.value.start; }
    hide Tracks;
  }

  lemma FreshTracks(now: Time)
    ensures Tracks(FreshScan(now), Window(now, {}, 0, 0))
  {
  }

  lemma {:induction false} BruteStepsScans(d: Detector, p: Packet, responses: seq<Response>)
    ensures BruteSteps(d, p, responses).0.scans == d.scans
    ensures forall a :: a in BruteSteps(d, p, responses).1 ==> !a.ScanAlert?
    decreases |responses|
  {
    if responses != [] { BruteStepsScans(d, p, responses[..|responses| - 1]); }
  }

  lemma {:induction false} AfterTracks(packets: seq<Packet>)
    ensures TracksAll(After(packets), packets)
  {
    if packets != [] {
      var last := |packets| - 1;
      var before, p := packets[..last], packets[last];
      AfterTracks(before);
      assert before + [p] == packets;
      ScanStepTracks(After(before), before, p);
      InspectScans(After(before), p);
      hide Tracks, WindowOf, Inspect, ScanStep;
    }
  }

  lemma InspectScans(d: Detector, p: Packet)
    ensures Inspect(d, p).0.scans == ScanStep(d, p).0.scans
  {
    BruteStepsScans(ScanStep(d, p).0, p, p.responses);
  }

  function ScanAlerts(alerts: seq<Alert>): seq<Alert> {
    if alerts == [] then [] else (if alerts[0].ScanAlert? then [alerts[0]] else []) + ScanAlerts(alerts[1..])
  }

  lemma {:induction false} ScanAlertsConcat(a: seq<Alert>, b: seq<Alert>)
    requires |a| <= 1 && (forall x :: x in a ==> x.ScanAlert?) && forall x :: x in b ==> !x.ScanAlert?
    ensures ScanAlerts(a + b) == a
    decreases |a| + |b|
  {
    if a != [] {
      assert (a + b)[1..] == b;
      ScanAlertsConcat([], b);
      assert [] + b == b;
    } else if b != [] {
      assert a + b == b;
      ScanAlertsConcat([], b[1..]);
      assert [] + b[1..] == b[1..];
    }
  }

  lemma {:induction false} AlertsAt(d: Detector, packets: seq<Packet>, i: nat)
    requires i < |packets|
    ensures Alerts(d, packets, Never(|packets|))[i] == Inspect(RunTo(d, packets[..i]), packets[i]).1
    decreases |packets|
  {
    hide Inspect;
    assert Never(|packets|)[1..] == Never(|packets[1..]|);
    if i > 0 {
      AlertsAt(Inspect(d, packets[0]).0, packets[1..], i - 1);
      assert packets[..i][1..] == packets[1..][..i - 1];
    }
  }

  function RunTo(d: Detector, packets: seq<Packet>): Detector
    decreases |packets|
  {
    if packets == [] then d else RunTo(Inspect(d, packets[0]).0, packets[1..])
  }

  lemma {:induction false} RunToLast(d: Detector, packets: seq<Packet>)
    requires packets != []
    ensures RunTo(d, packets) == Inspect(RunTo(d, packets[..|packets| - 1]), packets[|packets| - 1]).0
    decreases |packets|
  {
    hide Inspect;
    if |packets| > 1 {
      RunToLast(Inspect(d, packets[0]).0, packets[1..]);
      assert packets[1..][..|packets| - 2] == packets[..|packets| - 1][1..];
    }
  }

  lemma {:induction false} RunToAfter(packets: seq<Packet>)
    ensures RunTo(EMPTY, packets) == After(packets)
    decreases |packets|
  {
    hide Inspect;
    if packets != [] {
      RunToAfter(packets[..|packets| - 1]);
      RunToLast(EMPTY, packets);
    }
  }

  /** The scan alerts of an inspection are those of its first part. */
  lemma ScanPart(d: Detector, before: seq<Packet>, p: Packet)
    requires TracksAll(d, before)
    ensures ScanAlerts(Inspect(d, p).1) == ScanStep(d, p).1
  {
    ScanStepTracks(d, before, p);
    var a := ScanStep(d, p);
    BruteStepsScans(a.0, p, p.responses);
    var b := BruteSteps(a.0, p, p.responses);
    var c := ExfilStep(b.0, p);
    ExfilNoScan(b.0, p);
    assert RightAlerts(WindowOf(before, p.src), p, a.1) ==> |a.1| <= 1 && forall x :: x in a.1 ==> x.ScanAlert?;
    assert Inspect(d, p).1 == a.1 + b.1 + c.1;
    hide *;
    assert a.1 + b.1 + c.1 == a.1 + (b.1 + c.1);
    ScanAlertsConcat(a.1, b.1 + c.1);
  }

  lemma ExfilNoScan(d: Detector, p: Packet)
    ensures forall x :: x in ExfilStep(d, p).1 ==> !x.ScanAlert?
  {
    hide CurrentExfil;
  }

  lemma InspectScanAlerts(d: Detector, before: seq<Packet>, p: Packet)
    requires TracksAll(d, before)
    ensures RightAlerts(WindowOf(before, p.src), p, ScanAlerts(Inspect(d, p).1))
  {
    ScanStepTracks(d, before, p);
    ScanPart(d, before, p);
    hide TracksAll, ScanStep, Inspect, RightAlerts;
  }

  /** A run whose ageing cannot be seen: there is none, or the run is harmless. */
  predicate Unaffected(t: Time, packets: seq<Packet>, ages: seq<bool>)
    requires |ages| == |packets|
  {
    ages == Never(|packets|) || (ClockFrom(t, packets) && Harmless(EMPTY, packets))
  }

  lemma UnaffectedAlerts(t: Time, packets: seq<Packet>, ages: seq<bool>)
    requires |ages| == |packets| && Unaffected(t, packets, ages)
    ensures Alerts(EMPTY, packets, ages) == Alerts(EMPTY, packets, Never(|packets|))
  {
    if ages != Never(|packets|) { AgeingInvisible(t, packets, ages); }
  }

  /**
   The scan alerts of a run: packet i raises one exactly when it brings its source's window to ten distinct ports.
   Without ageing that holds for any clock and any allocation failures.
   */
  lemma PortScanExact(t: Time, packets: seq<Packet>, ages: seq<bool>, i: nat)
    requires |ages| == |packets| && i < |packets| && Unaffected(t, packets, ages)
    ensures RightAlerts(WindowOf(packets[..i], packets[i].src), packets[i], ScanAlerts(Alerts(EMPTY, packets, ages)[i]))
  {
    hide *;
    UnaffectedAlerts(t, packets, ages);
    AlertsAt(EMPTY, packets, i);
    RunToAfter(packets[..i]);
    AfterTracks(packets[..i]);
    InspectScanAlerts(After(packets[..i]), packets[..i], packets[i]);
  }
}
