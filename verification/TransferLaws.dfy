/**
 When an exfiltration is reported, on the raw packets: lengths, hours, address octets and the limits themselves.
 A pair's history is its packets with payload, and the window in force is the end of it from the packet that opened it.
 */
module TransferLaws {
  import opened FixedWindows
  import opened Options
  import opened PortScans
  import opened Trackers
  import opened WindowAlerts
  import opened Words

  /** The packets with payload of a pair, in order. */
  function Transfers(packets: seq<Packet>, k: Pair): seq<Packet> {
    if packets == [] then []
    else
      var p := packets[|packets| - 1];
      Transfers(packets[..|packets| - 1], k) + if (p.src, p.dst) == k && p.len > 0 then [p] else []
  }

  function TransferMoments(f: seq<Packet>): (ms: seq<Moment>)
    ensures |ms| == |f|
  {
    seq(|f|, i requires 0 <= i < |f| => f[i].exfilAt)
  }

  function Bytes(f: seq<Packet>): nat {
    if f == [] then 0 else Bytes(f[..|f| - 1]) + f[|f| - 1].len
  }

  /** From ten in the evening to six in the morning. */
  predicate Night(hour: int) { 22 <= hour || hour < 6 }

  /** Some packet came at night, or the tracker was created at night. */
  predicate AtNightSince(f: seq<Packet>, created: bool) {
    || (exists i :: 0 <= i < |f| && Night(f[i].exfilAt.hour))
    || (created && f != [] && Night(f[0].exfilAt.createdHour))
  }

  /**
   The octets of an address, in the order in which they are written, as a little-endian machine loads them.  An address
   is internal if it starts with 10, with 168.192, or with 16 to 31 and then 172.
   */
  lemma ExternalOctets(a: nat, b: nat, c: nat, d: nat)
    requires a < 256 && b < 256 && c < 256 && d < 256
    ensures IsExternal(a + 256 * b + 65536 * c + 16777216 * d) <==>
            !(a == 10 || (a == 168 && b == 192) || (16 <= a <= 31 && b == 172))
  {
    var ip := a + 256 * b + 65536 * c + 16777216 * d;
    assert ip % 256 == a && ip % 65536 == a + 256 * b;
    assert (a + 256 * b) / 16 == a / 16 + 16 * b;
  }

  /**
   A pair's packets since its window was opened are suspicious: 100 megabytes to an external address, or ten at night,
   as a 64-bit counter shows them.
   */
  predicate SuspiciousSince(f: seq<Packet>, created: bool, dst: Ip) {
    || (Bytes(f) % 0x1_0000_0000_0000_0000 >= 104857600 && IsExternal(dst))
    || NightlySince(f, created)
  }

  predicate NightlySince(f: seq<Packet>, created: bool) {
    Bytes(f) % 0x1_0000_0000_0000_0000 >= 10485760 && AtNightSince(f, created)
  }

  /** It has been suspicious after some packet since the window was opened. */
  predicate EverSuspicious(f: seq<Packet>, created: bool, dst: Ip) {
    exists n :: 0 < n <= |f| && SuspiciousSince(f[..n], created, dst)
  }

  /** The window of a pair after its packets `f`. */
  function TransferWindow(f: seq<Packet>, dst: Ip): Option<Moved> {
    var o := OpeningOf(TransferMoments(f), 600);
    if o.None? then None
    else Some(MovedSince(f[o.value.index..], o.value.start, o.value.created, dst))
  }

  function MovedSince(f: seq<Packet>, start: Time, created: bool, dst: Ip): Moved {
    Moved(start, Bytes(f), |f|, AtNightSince(f, created), EverSuspicious(f, created, dst))
  }

  lemma TransferMomentsSnoc(f: seq<Packet>, p: Packet)
    ensures TransferMoments(f + [p]) == TransferMoments(f) + [p.exfilAt]
  {
  }

  lemma BytesSnoc(f: seq<Packet>, p: Packet)
    ensures Bytes(f + [p]) == Bytes(f) + p.len
  {
    assert (f + [p])[..|f|] == f;
  }

  lemma NightSnoc(f: seq<Packet>, p: Packet, created: bool)
    requires f != []
    ensures AtNightSince(f + [p], created) <==> AtNightSince(f, created) || Night(p.exfilAt.hour)
  {
    assert (f + [p])[|f|] == p && (f + [p])[0] == f[0];
    assert forall i :: 0 <= i < |f| ==> (f + [p])[i] == f[i];
  }

  lemma EverSnoc(f: seq<Packet>, p: Packet, created: bool, dst: Ip)
    ensures EverSuspicious(f + [p], created, dst) <==>
            EverSuspicious(f, created, dst) || SuspiciousSince(f + [p], created, dst)
  {
    hide SuspiciousSince;
    assert (f + [p])[..|f| + 1] == f + [p];
    assert forall n :: 0 < n <= |f| ==> (f + [p])[..n] == f[..n];
  }

  /** What the model's window calls suspicious is what the packets since its opening are. */
  lemma SuspiciousMeans(w: Moved, f: seq<Packet>, created: bool, dst: Ip)
    requires w.bytes == Bytes(f) && w.offHours == AtNightSince(f, created)
    ensures Suspicious(w, dst) <==> SuspiciousSince(f, created, dst)
    ensures AtNight(w) <==> NightlySince(f, created)
  {
    hide Bytes, AtNightSince, IsExternal;
  }

  /** A packet joins the window. */
  lemma MovedSnoc(f: seq<Packet>, p: Packet, start: Time, created: bool)
    requires f != []
    ensures MovedSince(f + [p], start, created, p.dst) == Moving(MovedSince(f, start, created, p.dst), p)
  {
    BytesSnoc(f, p);
    NightSnoc(f, p, created);
    EverSnoc(f, p, created, p.dst);
    NightHours(p.exfilAt.hour);
    var w := MovedSince(f, start, created, p.dst);
    var n := Moved(w.start, w.bytes + p.len, w.packets + 1, w.offHours || IsOffHours(p.exfilAt.hour), w.reported);
    SuspiciousMeans(n, f + [p], created, p.dst);
    hide Bytes, AtNightSince, EverSuspicious, SuspiciousSince, Suspicious, IsOffHours;
  }

  lemma NightHours(hour: int)
    ensures IsOffHours(hour) <==> Night(hour)
  {
  }

  /** A packet opens the window. */
  lemma MovedFirst(p: Packet, start: Time, created: bool)
    ensures var w := Moved(start, 0, 0, if created then IsOffHours(p.exfilAt.createdHour)
                                        else IsOffHours(p.exfilAt.hour), false);
            MovedSince([p], start, created, p.dst) == Moving(w, p)
  {
    var w := Moved(start, 0, 0, if created then IsOffHours(p.exfilAt.createdHour) else IsOffHours(p.exfilAt.hour),
                   false);
    assert [] + [p] == [p];
    BytesSnoc([], p);
    EverSnoc([], p, created, p.dst);
    assert !EverSuspicious([], created, p.dst);
    NightHours(p.exfilAt.hour);
    NightHours(p.exfilAt.createdHour);
    assert [p][0] == p;
    assert AtNightSince([p], created) <==> Night(p.exfilAt.hour) || (created && Night(p.exfilAt.createdHour));
    var n := Moved(w.start, w.bytes + p.len, w.packets + 1, w.offHours || IsOffHours(p.exfilAt.hour), w.reported);
    SuspiciousMeans(n, [p], created, p.dst);
    hide Bytes, AtNightSince, EverSuspicious, SuspiciousSince, Suspicious, IsOffHours, Night;
  }

  /** The window in force for one more packet, and what it makes of it. */
  lemma TransferWindowSnoc(f: seq<Packet>, p: Packet)
    ensures var o, w := OpeningOf(TransferMoments(f + [p]), 600), MovedBefore(TransferWindow(f, p.dst), p.exfilAt);
            && (o.None? <==> w.None?)
            && (o.None? ==> TransferWindow(f, p.dst).None?)
            && (o.Some? ==>
                  && o.value.index <= |f| && w.value.start == o.value.start
                  && (w.value.reported <==>
                        EverSuspicious((f + [p])[o.value.index..|f|], o.value.created, p.dst))
                  && TransferWindow(f + [p], p.dst) == Some(Moving(w.value, p)))
  {
    TransferMomentsSnoc(f, p);
    OpeningSnoc(TransferMoments(f), p.exfilAt, 600);
    var prev, o := OpeningOf(TransferMoments(f), 600), OpeningOf(TransferMoments(f + [p]), 600);
    if o.Some? {
      SuffixSnoc(f, p, o.value.index);
      if o == prev {
        MovedSnoc(f[o.value.index..], p, o.value.start, o.value.created);
      } else {
        assert f[|f|..] == [] && !EverSuspicious([], o.value.created, p.dst);
        MovedFirst(p, o.value.start, o.value.created);
      }
    }
    hide OpeningOf, TransferMoments, Bytes, AtNightSince, EverSuspicious, IsOffHours, Moving;
  }

  /** A pair's window is made of its packets since it was opened. */
  lemma {:induction false} TransferHistory(packets: seq<Packet>, k: Pair)
    ensures MovedOf(packets, k) == TransferWindow(Transfers(packets, k), k.1)
  {
    if packets == [] {
      assert TransferMoments([]) == [];
    } else {
      var front, p := packets[..|packets| - 1], packets[|packets| - 1];
      TransferHistory(front, k);
      if (p.src, p.dst) == k && p.len > 0 {
        TransferWindowSnoc(Transfers(front, k), p);
      } else {
        assert Transfers(front, k) + [] == Transfers(front, k);
      }
      hide TransferWindow, MovedBefore, Moving;
    }
  }

  /** The alert for the last packet of a pair's history: it is the first to make the window suspicious. */
  function TransferVerdict(f: seq<Packet>): seq<Alert>
    requires f != []
  {
    var o, last := OpeningOf(TransferMoments(f), 600), |f| - 1;
    if o.None? then []
    else
      var p, before, since := f[last], f[o.value.index..last], f[o.value.index..];
      if SuspiciousSince(since, o.value.created, p.dst) && !EverSuspicious(before, o.value.created, p.dst) then
        var mb := Bytes(since) % 0x1_0000_0000_0000_0000 / 1048576;
        [ExfilAlert(p.src, p.dst, if NightlySince(since, o.value.created) then OffHours(mb) else LargeExternal(mb),
                    |since| % 0x1_0000_0000, p.exfilAt.now - o.value.start)]
      else []
  }

  /** What the model expects for one packet, from the packets since the opening. */
  lemma VerdictOf(w: Moved, since: seq<Packet>, created: bool, p: Packet)
    requires Moving(w, p) == MovedSince(since, w.start, created, p.dst) && p.len > 0
    ensures var n, mb := Moving(w, p), Bytes(since) % 0x1_0000_0000_0000_0000 / 1048576;
            && (Suspicious(n, p.dst) <==> SuspiciousSince(since, created, p.dst))
            && (AtNight(n) <==> NightlySince(since, created))
            && Wrap64(n.bytes) / (1024 * 1024) == mb && Wrap32(n.packets) == |since| % 0x1_0000_0000
  {
    SuspiciousMeans(Moving(w, p), since, created, p.dst);
    hide Bytes, AtNightSince, EverSuspicious, SuspiciousSince, Suspicious, NightlySince, AtNight, Moving;
  }

  lemma ExfilVerdict(f: seq<Packet>, p: Packet, g: seq<Packet>)
    requires p.len > 0 && g == f + [p]
    ensures ExpectedExfil(TransferWindow(f, p.dst), p) == TransferVerdict(g)
  {
    var w, o := MovedBefore(TransferWindow(f, p.dst), p.exfilAt), OpeningOf(TransferMoments(g), 600);
    TransferWindowSnoc(f, p);
    if o.Some? {
      assert TransferWindow(g, p.dst) == Some(MovedSince(g[o.value.index..], o.value.start, o.value.created, p.dst));
      VerdictOf(w.value, g[o.value.index..], o.value.created, p);
    }
    hide OpeningOf, TransferMoments, TransferWindow, MovedBefore, Moving, Bytes, EverSuspicious, SuspiciousSince,
         NightlySince, Suspicious, AtNight, MovedSince, Wrap32, Wrap64;
  }

  lemma TransfersSnoc(packets: seq<Packet>, i: nat)
    requires i < |packets|
    ensures var p, k := packets[i], (packets[i].src, packets[i].dst);
            Transfers(packets[..i + 1], k) == Transfers(packets[..i], k) + if p.len > 0 then [p] else []
  {
    assert packets[..i + 1][..i] == packets[..i] && packets[..i + 1][i] == packets[i];
  }

  lemma NothingMoved(prev: Option<Moved>, p: Packet)
    requires p.len == 0
    ensures ExpectedExfil(prev, p) == []
  {
  }

  /** The alerts that a pair's history calls for at packet i. */
  function TransferAlerts(packets: seq<Packet>, i: nat): seq<Alert>
    requires i < |packets|
  {
    var p := packets[i];
    if p.len == 0 then []
    else
      TransfersSnoc(packets, i);
      TransferVerdict(Transfers(packets[..i + 1], (p.src, p.dst)))
  }

  lemma TransferAlertsAre(packets: seq<Packet>, i: nat)
    requires i < |packets|
    ensures var p, f := packets[i], Transfers(packets[..i], (packets[i].src, packets[i].dst));
            TransferAlerts(packets, i) == if p.len == 0 then [] else TransferVerdict(f + [p])
  {
    TransfersSnoc(packets, i);
    hide TransferVerdict, Transfers;
  }

  /**
   The exfiltration alert of packet i: there is one if and only if it has payload and is the first to make its pair's
   packets suspicious since the window was opened, windows lasting 600 seconds.
   */
  lemma TransferLaw(t: Time, packets: seq<Packet>, ages: seq<bool>, i: nat)
    requires |ages| == |packets| && i < |packets| && Unaffected(t, packets, ages)
    ensures var p, found := packets[i], Alerts(EMPTY, packets, ages)[i];
            var refused := ExpectedBrute(AttemptsOf(packets[..i], (p.dst, p.dstPort)), p, p.responses);
            found == ScanAlerts(found) + refused + TransferAlerts(packets, i)
  {
    var p, before := packets[i], packets[..i];
    hide *;
    AlertsExact(t, packets, ages, i);
    TransferHistory(before, (p.src, p.dst));
    TransferAlertsAre(packets, i);
    var f := Transfers(before, (p.src, p.dst));
    if p.len > 0 { ExfilVerdict(f, p, f + [p]); } else { NothingMoved(MovedOf(before, (p.src, p.dst)), p); }
  }

  // ----- the trackers themselves -----

  /** A pair has a tracker if and only if a window has been opened for it; bytes have 64 bits, packets 32. */
  lemma PairState(packets: seq<Packet>, k: Pair)
    ensures var d, w := After(packets), TransferWindow(Transfers(packets, k), k.1);
            && (k in d.exfils <==> w.Some?)
            && (w.Some? ==>
                  var v := d.exfils[k];
                  && v.windowStart == w.value.start && v.offHours == w.value.offHours && v.alerted == w.value.reported
                  && v.bytes == w.value.bytes % 0x1_0000_0000_0000_0000
                  && v.packets == w.value.packets % 0x1_0000_0000)
  {
    AfterWindows(packets);
    TransferHistory(packets, k);
    assert ExfilAt(After(packets), k, MovedOf(packets, k));
    hide After, MovedOf, TransferWindow, Transfers;
  }

  lemma StepMoved(d: Detector, p: Packet, k: Pair)
    ensures var r := ExfilStep(d, p).0;
            if (p.src, p.dst) == k && p.len > 0 then k in r.exfils ==> r.exfils[k].lastTransfer == p.exfilAt.now
            else (k in r.exfils <==> k in d.exfils) && (k in d.exfils ==> r.exfils[k] == d.exfils[k])
  {
    if (p.src, p.dst) != k { OtherExfils(d, p, k); }
    hide CurrentExfil;
  }

  lemma InspectExfils(d: Detector, p: Packet, k: Pair)
    ensures var r := Inspect(d, p).0;
            if (p.src, p.dst) == k && p.len > 0 then k in r.exfils ==> r.exfils[k].lastTransfer == p.exfilAt.now
            else (k in r.exfils <==> k in d.exfils) && (k in d.exfils ==> r.exfils[k] == d.exfils[k])
  {
    var a := ScanStep(d, p).0;
    var b := BruteSteps(a, p, p.responses).0;
    ScanOnly(d, p);
    OthersKept(a, p, p.responses);
    StepMoved(b, p, k);
    hide ScanStep, BruteSteps, ExfilStep;
  }

  /** A tracker was last used when its pair's last packet with payload was inspected. */
  lemma {:induction false} LastMoved(packets: seq<Packet>, k: Pair)
    ensures k in After(packets).exfils ==>
              var f := Transfers(packets, k);
              f != [] && After(packets).exfils[k].lastTransfer == f[|f| - 1].exfilAt.now
  {
    if packets != [] {
      var front, p := packets[..|packets| - 1], packets[|packets| - 1];
      LastMoved(front, k);
      InspectExfils(After(front), p, k);
      assert Transfers(front, k) + [] == Transfers(front, k);
      hide Inspect;
    }
  }
}
