/**
 When a port scan is reported, on the raw packets: flag bits, ports and the limits themselves.  A source's history is
 filtered from the packets, and the window in force is the end of it from the packet that opened it.
 */
module ScanLaws {
  import opened FixedWindows
  import opened Options
  import opened PortScans
  import opened Sequences
  import opened Trackers

  predicate HasSyn(p: Packet) { p.tcpFlags.Some? && p.tcpFlags.value & 0x02 != 0 }

  predicate HasSynOnly(p: Packet) { HasSyn(p) && p.tcpFlags.value & 0x10 == 0 }

  /** The TCP packets of a source, in order. */
  function Probes(packets: seq<Packet>, s: Ip): seq<Packet> {
    if packets == [] then []
    else
      var p := packets[|packets| - 1];
      Probes(packets[..|packets| - 1], s) + if p.src == s && p.tcpFlags.Some? then [p] else []
  }

  function ScanMoments(f: seq<Packet>): (ms: seq<Moment>)
    ensures |ms| == |f|
  {
    seq(|f|, i requires 0 <= i < |f| => f[i].scanAt)
  }

  /** The destination ports of the packets with the SYN bit. */
  function SynPorts(f: seq<Packet>): set<Port> { set p | p in f && HasSyn(p) :: p.dstPort }

  predicate AnySynOnly(f: seq<Packet>) { exists i :: 0 <= i < |f| && HasSynOnly(f[i]) }

  /** How many packets have the SYN bit. */
  function Syns(f: seq<Packet>): nat {
    if f == [] then 0 else Syns(f[..|f| - 1]) + if HasSyn(f[|f| - 1]) then 1 else 0
  }

  /** How many have the SYN and the ACK bit. */
  function SynAcks(f: seq<Packet>): nat {
    if f == [] then 0
    else SynAcks(f[..|f| - 1]) + if HasSyn(f[|f| - 1]) && !HasSynOnly(f[|f| - 1]) then 1 else 0
  }

  lemma SynPortsSnoc(f: seq<Packet>, p: Packet)
    ensures SynPorts(f + [p]) == SynPorts(f) + if HasSyn(p) then {p.dstPort} else {}
    ensures Syns(f + [p]) == Syns(f) + if HasSyn(p) then 1 else 0
    ensures SynAcks(f + [p]) == SynAcks(f) + if HasSyn(p) && !HasSynOnly(p) then 1 else 0
  {
    assert (f + [p])[..|f|] == f && (f + [p])[|f|] == p;
    assert forall x :: x in f + [p] <==> x in f || x == p;
  }

  lemma {:induction false} SynOnlyCounted(f: seq<Packet>)
    ensures SynAcks(f) <= Syns(f) && (AnySynOnly(f) <==> SynAcks(f) < Syns(f))
  {
    if f != [] {
      var front, p := f[..|f| - 1], f[|f| - 1];
      SynOnlyCounted(front);
      assert forall i :: 0 <= i < |front| ==> front[i] == f[i];
      assert AnySynOnly(f) <==> AnySynOnly(front) || HasSynOnly(p);
    }
  }

  /** The window that started at `start` and holds the packets `f`. */
  function WindowOver(start: Time, f: seq<Packet>): Window { Window(start, SynPorts(f), Syns(f), SynAcks(f)) }

  /** The window of a source after its packets `f`. */
  function ScanWindow(f: seq<Packet>): Option<Window> {
    var o := OpeningOf(ScanMoments(f), 60);
    if o.None? then None else Some(WindowOver(o.value.start, f[o.value.index..]))
  }

  /** A packet's own part in a window. */
  lemma SeenBits(w: Window, p: Packet)
    requires p.tcpFlags.Some?
    ensures Seen(w, p)
         == Window(w.start, w.ports + if HasSyn(p) then {p.dstPort} else {}, w.syns + if HasSyn(p) then 1 else 0,
                   w.synAcks + if HasSyn(p) && !HasSynOnly(p) then 1 else 0)
  {
    assert w.ports + {} == w.ports;
  }

  /** The suffix of a history from an opening, with one more packet. */
  lemma WindowFrom(f: seq<Packet>, p: Packet, i: nat, start: Time)
    requires p.tcpFlags.Some? && i <= |f|
    ensures WindowOver(start, (f + [p])[i..]) == Seen(WindowOver(start, f[i..]), p)
    ensures (f + [p])[i..|f|] == f[i..]
    ensures i == |f| ==> WindowOver(start, f[i..]) == Window(start, {}, 0, 0)
  {
    SuffixSnoc(f, p, i);
    SynPortsSnoc(f[i..], p);
    SeenBits(WindowOver(start, f[i..]), p);
    hide Seen, HasSyn, HasSynOnly;
  }

  lemma MomentsSnoc(f: seq<Packet>, p: Packet)
    ensures ScanMoments(f + [p]) == ScanMoments(f) + [p.scanAt]
  {
  }

  /** The window in force for one more packet, and what the packet makes of it. */
  lemma ScanWindowSnoc(f: seq<Packet>, p: Packet)
    requires p.tcpFlags.Some?
    ensures var o, w := OpeningOf(ScanMoments(f + [p]), 60), InForce(ScanWindow(f), p.scanAt);
            && (o.None? <==> w.None?)
            && (o.None? ==> ScanWindow(f).None?)
            && (o.Some? ==>
                  && o.value.index <= |f| && w.value == WindowOver(o.value.start, (f + [p])[o.value.index..|f|])
                  && Seen(w.value, p) == WindowOver(o.value.start, (f + [p])[o.value.index..]))
  {
    MomentsSnoc(f, p);
    OpeningSnoc(ScanMoments(f), p.scanAt, 60);
    var prev, o := OpeningOf(ScanMoments(f), 60), OpeningOf(ScanMoments(f + [p]), 60);
    assert |ScanMoments(f)| == |f|;
    hide OpeningOf, ScanMoments, WindowOver, Seen;
    if o.Some? { WindowFrom(f, p, o.value.index, o.value.start); }
  }

  /** A source's window is made of the packets since it was opened. */
  lemma {:induction false} ScanHistory(packets: seq<Packet>, s: Ip)
    ensures WindowOf(packets, s) == ScanWindow(Probes(packets, s))
  {
    if packets != [] {
      var front, p := packets[..|packets| - 1], packets[|packets| - 1];
      ScanHistory(front, s);
      var f := Probes(front, s);
      if p.src == s && p.tcpFlags.Some? {
        ScanWindowSnoc(f, p);
        hide InForce, Seen, WindowOver, OpeningOf;
      } else {
        assert Probes(packets, s) == f + [] == f;
      }
    }
  }

  /** The alert that the windows call for, with all it says. */
  lemma RightMeans(prev: Option<Window>, p: Packet, found: seq<Alert>)
    requires p.tcpFlags.Some? && RightAlerts(prev, p, found)
    ensures var w := InForce(prev, p.scanAt);
            if w.Some? && |w.value.ports| == 9 && |Seen(w.value, p).ports| == 10
            then found == [ScanAlert(p.src, 10, p.scanAt.now - w.value.start, Seen(w.value, p).SynScan())]
            else found == []
  {
    hide InForce, Seen;
    if ToTenth(prev, p) { assert found == [found[0]]; }
  }

  /** The alert for the last packet of a source's history: it has the SYN bit and brings the tenth port. */
  function ScanVerdict(f: seq<Packet>): seq<Alert>
    requires f != []
  {
    var o, last := OpeningOf(ScanMoments(f), 60), |f| - 1;
    if o.None? || !HasSyn(f[last]) then []
    else
      var before, after := f[o.value.index..last], f[o.value.index..];
      if |SynPorts(before)| == 9 && |SynPorts(after)| == 10 then
        [ScanAlert(f[last].src, 10, f[last].scanAt.now - o.value.start, AnySynOnly(after))]
      else []
  }

  lemma VerdictFrom(f: seq<Packet>, w: Window, n: Window)
    requires f != [] && OpeningOf(ScanMoments(f), 60).Some?
    requires var o, last := OpeningOf(ScanMoments(f), 60), |f| - 1;
             && w == WindowOver(o.value.start, f[o.value.index..last])
             && n == WindowOver(o.value.start, f[o.value.index..])
             && (!HasSyn(f[last]) ==> n.ports == w.ports)
    ensures var p := f[|f| - 1];
            ScanVerdict(f) == if |w.ports| == 9 && |n.ports| == 10
                              then [ScanAlert(p.src, 10, p.scanAt.now - w.start, n.SynScan())] else []
  {
    SynOnlyCounted(f[OpeningOf(ScanMoments(f), 60).value.index..]);
    hide OpeningOf, SynPorts, Syns, SynAcks, AnySynOnly, HasSyn;
  }

  lemma NoVerdict(f: seq<Packet>)
    requires f != [] && OpeningOf(ScanMoments(f), 60).None?
    ensures ScanVerdict(f) == []
  {
  }

  lemma NoSynNoPort(w: Window, p: Packet)
    requires p.tcpFlags.Some? && !HasSyn(p)
    ensures Seen(w, p).ports == w.ports
  {
    SeenBits(w, p);
  }

  lemma ScanAlertAt(f: seq<Packet>, p: Packet, g: seq<Packet>, found: seq<Alert>)
    requires p.tcpFlags.Some? && g == f + [p] && RightAlerts(ScanWindow(f), p, found)
    ensures found == ScanVerdict(g)
  {
    hide *;
    var w, o := InForce(ScanWindow(f), p.scanAt), OpeningOf(ScanMoments(g), 60);
    ScanWindowSnoc(f, p);
    RightMeans(ScanWindow(f), p, found);
    if o.None? {
      NoVerdict(g);
    } else {
      if !HasSyn(p) { NoSynNoPort(w.value, p); }
      VerdictFrom(g, w.value, Seen(w.value, p));
    }
  }

  lemma ProbesSnoc(packets: seq<Packet>, i: nat)
    requires i < |packets|
    ensures var p := packets[i];
            Probes(packets[..i + 1], p.src) == Probes(packets[..i], p.src) + if p.tcpFlags.Some? then [p] else []
  {
    assert packets[..i + 1][..i] == packets[..i] && packets[..i + 1][i] == packets[i];
  }

  /** The alerts that a source's history calls for at packet i. */
  function ScanVerdicts(packets: seq<Packet>, i: nat): seq<Alert>
    requires i < |packets|
  {
    var p := packets[i];
    if p.tcpFlags.None? then []
    else
      ProbesSnoc(packets, i);
      ScanVerdict(Probes(packets[..i + 1], p.src))
  }

  lemma ScanVerdictsAre(packets: seq<Packet>, i: nat)
    requires i < |packets|
    ensures var p, f := packets[i], Probes(packets[..i], packets[i].src);
            ScanVerdicts(packets, i) == if p.tcpFlags.None? then [] else ScanVerdict(f + [p])
  {
    ProbesSnoc(packets, i);
    hide ScanVerdict, Probes;
  }

  /** A packet without TCP flags raises no scan alert. */
  lemma NoFlagsNoAlert(prev: Option<Window>, p: Packet, found: seq<Alert>)
    requires p.tcpFlags.None? && RightAlerts(prev, p, found)
    ensures found == []
  {
  }

  /**
   The scan alert of packet i: there is one if and only if the packet has the SYN bit and its port is the tenth of
   its source's packets with that bit since the window was opened, windows lasting 60 seconds.
   */
  lemma ScanLaw(t: Time, packets: seq<Packet>, ages: seq<bool>, i: nat)
    requires |ages| == |packets| && i < |packets| && Unaffected(t, packets, ages)
    ensures ScanAlerts(Alerts(EMPTY, packets, ages)[i]) == ScanVerdicts(packets, i)
  {
    var p, before := packets[i], packets[..i];
    var f := Probes(before, p.src);
    hide *;
    PortScanExact(t, packets, ages, i);
    ScanHistory(before, p.src);
    ScanVerdictsAre(packets, i);
    if p.tcpFlags.Some? {
      ScanAlertAt(f, p, f + [p], ScanAlerts(Alerts(EMPTY, packets, ages)[i]));
    } else {
      NoFlagsNoAlert(WindowOf(before, p.src), p, ScanAlerts(Alerts(EMPTY, packets, ages)[i]));
    }
  }

  // ----- the trackers themselves -----

  /**
   A source has a tracker if and only if a window has been opened for it; it lists at most 1024 of the window's ports,
   each once, counts its SYNs in 32 bits, and has alerted if and only if there are at least ten ports.
   */
  lemma TrackerState(packets: seq<Packet>, s: Ip)
    ensures var d, w := After(packets), ScanWindow(Probes(packets, s));
            && (s in d.scans <==> w.Some?)
            && (w.Some? ==>
                  var v := d.scans[s];
                  && v.firstSeen == w.value.start && v.isSynScan == w.value.SynScan()
                  && v.synCount == w.value.syns % 0x1_0000_0000 && v.synAckCount == w.value.synAcks % 0x1_0000_0000
                  && NoRepeat(v.ports) && Elements(v.ports) <= w.value.ports
                  && |v.ports| == (if |w.value.ports| <= 1024 then |w.value.ports| else 1024)
                  && (v.alerted <==> |w.value.ports| >= 10))
  {
    AfterTracks(packets);
    ScanHistory(packets, s);
    assert TrackAt(After(packets), s, WindowOf(packets, s));
    hide After, WindowOf, ScanWindow, Probes, NoRepeat, Elements;
  }

  lemma StepSeen(d: Detector, p: Packet, s: Ip)
    ensures var r := ScanStep(d, p).0;
            if p.src == s && p.tcpFlags.Some? then s in r.scans ==> r.scans[s].lastSeen == p.scanAt.now
            else (s in r.scans <==> s in d.scans) && (s in d.scans ==> r.scans[s] == d.scans[s])
  {
    if p.src != s { OtherScans(d, p, s); }
    hide CurrentScan;
  }

  /** A tracker was last used when its source's last TCP packet was inspected. */
  lemma {:induction false} LastProbe(packets: seq<Packet>, s: Ip)
    ensures s in After(packets).scans ==>
              var f := Probes(packets, s);
              f != [] && After(packets).scans[s].lastSeen == f[|f| - 1].scanAt.now
  {
    if packets != [] {
      var front, p := packets[..|packets| - 1], packets[|packets| - 1];
      LastProbe(front, s);
      InspectScans(After(front), p);
      StepSeen(After(front), p, s);
      assert Probes(front, s) + [] == Probes(front, s);
      hide Inspect, ScanStep;
    }
  }
}
