/**
 When brute force and exfiltration are reported, in terms of the packets alone: the fifth failure of a target's
 window, and the transfer that makes a pair's window suspicious.
 */
module WindowAlerts {
  import opened Options
  import opened PortScans
  import opened Trackers
  import opened Words
  import WheelMath

  type Target = (Ip, Port)
  type Pair = (Ip, Ip)

  // ----- brute force -----

  /** A target's window, read off the packets: its start and the failures since then. */
  datatype Attempts = Attempts(start: Time, count401: nat, count403: nat) {
    function Total(): nat { count401 + count403 }
  }

  /** The window a failure falls into; none if there is no memory to open one. */
  function AttemptsBefore(prev: Option<Attempts>, at: Moment): Option<Attempts> {
    if prev.None? && !at.memory then None
    else
      var w := if prev.Some? then prev.value else Attempts(at.created, 0, 0);
      Some(if at.now - w.start > BRUTE_FORCE_WINDOW then Attempts(at.now, 0, 0) else w)
  }

  function OneMore(w: Attempts, status: int): Attempts {
    if status == 401 then w.(count401 := w.count401 + 1) else w.(count403 := w.count403 + 1)
  }

  function Attempt(prev: Option<Attempts>, r: Response): Option<Attempts> {
    var w := AttemptsBefore(prev, r.at);
    if IsFailure(r.status) && w.Some? then Some(OneMore(w.value, r.status)) else prev
  }

  function AfterAll(prev: Option<Attempts>, responses: seq<Response>): Option<Attempts>
    decreases |responses|
  {
    if responses == [] then prev
    else Attempt(AfterAll(prev, responses[..|responses| - 1]), responses[|responses| - 1])
  }

  function AttemptsOf(packets: seq<Packet>, k: Target): Option<Attempts> {
    if packets == [] then None
    else
      var p := packets[|packets| - 1];
      var before := AttemptsOf(packets[..|packets| - 1], k);
      if (p.dst, p.dstPort) == k then AfterAll(before, p.responses) else before
  }

  /** The alert for one response: it is the fifth failure of its window. */
  function BruteAlertFor(prev: Option<Attempts>, p: Packet, r: Response): seq<Alert> {
    var w := AttemptsBefore(prev, r.at);
    if IsFailure(r.status) && w.Some? && OneMore(w.value, r.status).Total() == BRUTE_FORCE_THRESHOLD then
      var n := OneMore(w.value, r.status);
      [BruteAlert(p.dst, p.dstPort, n.Total(), n.count401, n.count403, r.at.now - n.start)]
    else []
  }

  /** The alerts a packet must raise: one for each fifth failure of a window. */
  function ExpectedBrute(prev: Option<Attempts>, p: Packet, responses: seq<Response>): seq<Alert>
    decreases |responses|
  {
    if responses == [] then []
    else
      var front, last := responses[..|responses| - 1], responses[|responses| - 1];
      ExpectedBrute(prev, p, front) + BruteAlertFor(AfterAll(prev, front), p, last)
  }

  predicate BruteTracks(v: Brute, w: Attempts) {
    && v.windowStart == w.start && v.failed == Wrap32(w.Total())
    && v.count401 == Wrap32(w.count401) && v.count403 == Wrap32(w.count403)
    && (v.alerted <==> w.Total() >= BRUTE_FORCE_THRESHOLD)
  }

  /** The tracker of a target stands for its window. */
  predicate BruteAt(d: Detector, k: Target, w: Option<Attempts>) {
    (k in d.brutes <==> w.Some?) && (w.Some? ==> BruteTracks(d.brutes[k], w.value))
  }

  lemma UseBruteTracks(v: Brute, w: Attempts, p: Packet, r: Response)
    requires BruteTracks(v, w) && IsFailure(r.status)
    ensures var u, n := UseBrute(v, r.at.now, p.dst, p.dstPort, r.status), OneMore(w, r.status);
            && BruteTracks(u.0, n)
            && u.1 == if n.Total() == BRUTE_FORCE_THRESHOLD
                      then [BruteAlert(p.dst, p.dstPort, n.Total(), n.count401, n.count403, r.at.now - n.start)]
                      else []
  {
    WrapNext(w.Total());
    WrapNext(w.count401);
    WrapNext(w.count403);
    hide Wrap32;
  }

  lemma CurrentBruteTracks(d: Detector, k: Target, prev: Option<Attempts>, at: Moment)
    requires BruteAt(d, k, prev)
    ensures CurrentBrute(d, k, at).Some? <==> AttemptsBefore(prev, at).Some?
    ensures AttemptsBefore(prev, at).Some? ==> BruteTracks(CurrentBrute(d, k, at).value, AttemptsBefore(prev, at).value)
  {
  }

  lemma BruteStepTracks(d: Detector, p: Packet, r: Response, prev: Option<Attempts>)
    requires BruteAt(d, (p.dst, p.dstPort), prev)
    ensures BruteAt(BruteStep(d, p, r).0, (p.dst, p.dstPort), Attempt(prev, r))
    ensures BruteStep(d, p, r).1 == BruteAlertFor(prev, p, r)
  {
    var k := (p.dst, p.dstPort);
    CurrentBruteTracks(d, k, prev, r.at);
    var v, w := CurrentBrute(d, k, r.at), AttemptsBefore(prev, r.at);
    if IsFailure(r.status) && w.Some? { UseBruteTracks(v.value, w.value, p, r); }
    hide BruteTracks, UseBrute, CurrentBrute, AttemptsBefore, OneMore;
  }

  lemma {:induction false} BruteStepsTrack(d: Detector, p: Packet, responses: seq<Response>, prev: Option<Attempts>)
    requires BruteAt(d, (p.dst, p.dstPort), prev)
    ensures BruteAt(BruteSteps(d, p, responses).0, (p.dst, p.dstPort), AfterAll(prev, responses))
    ensures BruteSteps(d, p, responses).1 == ExpectedBrute(prev, p, responses)
    decreases |responses|
  {
    if responses != [] {
      hide BruteAt, BruteStep, Attempt, BruteAlertFor;
      var front, last := responses[..|responses| - 1], responses[|responses| - 1];
      BruteStepsTrack(d, p, front, prev);
      BruteStepTracks(BruteSteps(d, p, front).0, p, last, AfterAll(prev, front));
    }
  }

  /** A packet's responses touch no other target, and no transfer. */
  lemma {:induction false} OthersKept(d: Detector, p: Packet, responses: seq<Response>)
    ensures var r := BruteSteps(d, p, responses).0;
            && r.exfils == d.exfils && r.brutes - {(p.dst, p.dstPort)} == d.brutes - {(p.dst, p.dstPort)}
    decreases |responses|
  {
    if responses != [] {
      OthersKept(d, p, responses[..|responses| - 1]);
      hide UseBrute, CurrentBrute;
    }
  }

  // ----- exfiltration -----

  /** A pair's window, read off the packets; `reported` once it has been suspicious. */
  datatype Moved = Moved(start: Time, bytes: nat, packets: nat, offHours: bool, reported: bool)

  function MovedBefore(prev: Option<Moved>, at: Moment): Option<Moved> {
    if prev.None? && !at.memory then None
    else
      var w := if prev.Some? then prev.value else Moved(at.created, 0, 0, IsOffHours(at.createdHour), false);
      Some(if at.now - w.start > DATA_EXFIL_WINDOW then Moved(at.now, 0, 0, IsOffHours(at.hour), false) else w)
  }

  /** The bytes as the 64-bit counter shows them. */
  predicate AtNight(w: Moved) { w.offHours && Wrap64(w.bytes) >= DATA_EXFIL_THRESHOLD / 10 }

  predicate Suspicious(w: Moved, dst: Ip) {
    (Wrap64(w.bytes) >= DATA_EXFIL_THRESHOLD && IsExternal(dst)) || AtNight(w)
  }

  function Moving(w: Moved, p: Packet): Moved {
    var n := Moved(w.start, w.bytes + p.len, w.packets + 1, w.offHours || IsOffHours(p.exfilAt.hour), w.reported);
    n.(reported := w.reported || Suspicious(n, p.dst))
  }

  function Move(prev: Option<Moved>, p: Packet): Option<Moved> {
    var w := MovedBefore(prev, p.exfilAt);
    if p.len > 0 && w.Some? then Some(Moving(w.value, p)) else prev
  }

  function MovedOf(packets: seq<Packet>, k: Pair): Option<Moved> {
    if packets == [] then None
    else
      var p := packets[|packets| - 1];
      var before := MovedOf(packets[..|packets| - 1], k);
      if (p.src, p.dst) == k then Move(before, p) else before
  }

  /** The alert a packet must raise: when it is the first to make its pair's window suspicious. */
  function ExpectedExfil(prev: Option<Moved>, p: Packet): seq<Alert> {
    var w := MovedBefore(prev, p.exfilAt);
    if p.len > 0 && w.Some? && Suspicious(Moving(w.value, p), p.dst) && !w.value.reported then
      var n := Moving(w.value, p);
      var mb := Wrap64(n.bytes) / (1024 * 1024);
      [ExfilAlert(p.src, p.dst, if AtNight(n) then OffHours(mb) else LargeExternal(mb), Wrap32(n.packets),
                  p.exfilAt.now - n.start)]
    else []
  }

  predicate ExfilTracks(v: Exfil, w: Moved) {
    && v.windowStart == w.start && v.bytes == Wrap64(w.bytes) && v.packets == Wrap32(w.packets)
    && v.offHours == w.offHours && v.alerted == w.reported
  }

  predicate ExfilAt(d: Detector, k: Pair, w: Option<Moved>) {
    (k in d.exfils <==> w.Some?) && (w.Some? ==> ExfilTracks(d.exfils[k], w.value))
  }

  lemma WrapAdd(x: nat, y: nat)
    ensures Wrap64(Wrap64(x) + y) == Wrap64(x + y)
  {
    WheelMath.ModAdd(x, y, 0x1_0000_0000_0000_0000);
  }

  lemma UseExfilTracks(v: Exfil, w: Moved, p: Packet)
    requires ExfilTracks(v, w)
    ensures var u, n := UseExfil(v, p.exfilAt.now, p.exfilAt.hour, p.src, p.dst, p.len), Moving(w, p);
            && ExfilTracks(u.0, n)
            && u.1 == if Suspicious(n, p.dst) && !w.reported then
                        var mb := Wrap64(n.bytes) / (1024 * 1024);
                        [ExfilAlert(p.src, p.dst, if AtNight(n) then OffHours(mb) else LargeExternal(mb),
                                    Wrap32(n.packets), p.exfilAt.now - n.start)]
                      else []
  {
    WrapAdd(w.bytes, p.len);
    WrapNext(w.packets);
    hide Wrap32, Wrap64, IsExternal, IsOffHours;
  }

  lemma CurrentExfilTracks(d: Detector, k: Pair, prev: Option<Moved>, at: Moment)
    requires ExfilAt(d, k, prev)
    ensures CurrentExfil(d, k, at).Some? <==> MovedBefore(prev, at).Some?
    ensures MovedBefore(prev, at).Some? ==> ExfilTracks(CurrentExfil(d, k, at).value, MovedBefore(prev, at).value)
  {
  }

  lemma ExfilStepTracks(d: Detector, p: Packet, prev: Option<Moved>)
    requires ExfilAt(d, (p.src, p.dst), prev)
    ensures ExfilAt(ExfilStep(d, p).0, (p.src, p.dst), Move(prev, p))
    ensures ExfilStep(d, p).1 == ExpectedExfil(prev, p)
  {
    CurrentExfilTracks(d, (p.src, p.dst), prev, p.exfilAt);
    var v, w := CurrentExfil(d, (p.src, p.dst), p.exfilAt), MovedBefore(prev, p.exfilAt);
    if p.len > 0 && w.Some? { UseExfilTracks(v.value, w.value, p); }
    hide ExfilTracks, UseExfil, CurrentExfil, MovedBefore, Moving, Suspicious, AtNight;
  }

  lemma OtherExfils(d: Detector, p: Packet, k: Pair)
    requires k != (p.src, p.dst)
    ensures k in ExfilStep(d, p).0.exfils <==> k in d.exfils
    ensures k in d.exfils ==> ExfilStep(d, p).0.exfils[k] == d.exfils[k]
  {
    hide UseExfil, CurrentExfil;
  }

  /** One transfer in a window keeps "reported" and "suspicious" the same, below 2^64 bytes. */
  lemma ReportedStep(w: Moved, p: Packet)
    requires w.bytes + p.len < 0x1_0000_0000_0000_0000 && (w.reported <==> Suspicious(w, p.dst))
    ensures Moving(w, p).reported <==> Suspicious(Moving(w, p), p.dst)
  {
  }

  /** No window of the pair has reached 2^64 bytes. */
  ghost predicate NeverOverflows(packets: seq<Packet>, k: Pair) {
    forall i :: 0 <= i <= |packets| ==> BelowOverflow(MovedOf(packets[..i], k))
  }

  predicate BelowOverflow(w: Option<Moved>) { w.Some? ==> w.value.bytes < 0x1_0000_0000_0000_0000 }

  /** In every run below 2^64 bytes a pair's window has been reported if and only if it is suspicious. */
  lemma {:induction false} ReportedExact(packets: seq<Packet>, k: Pair)
    requires NeverOverflows(packets, k)
    ensures var w := MovedOf(packets, k); w.Some? ==> (w.value.reported <==> Suspicious(w.value, k.1))
  {
    if packets != [] {
      var before, p := packets[..|packets| - 1], packets[|packets| - 1];
      forall i | 0 <= i <= |before| ensures BelowOverflow(MovedOf(before[..i], k)) {
        assert before[..i] == packets[..i];
      }
      ReportedExact(before, k);
      assert packets[..|packets|] == packets && BelowOverflow(MovedOf(packets[..|packets|], k));
      var w := MovedBefore(MovedOf(before, k), p.exfilAt);
      if (p.src, p.dst) == k && p.len > 0 && w.Some? {
        assert MovedOf(packets, k) == Some(Moving(w.value, p));
        ReportedStep(w.value, p);
      }
    }
  }

  // ----- runs -----

  ghost predicate WindowsAll(d: Detector, packets: seq<Packet>) {
    && (forall k: Target :: BruteAt(d, k, AttemptsOf(packets, k)))
    && (forall k: Pair :: ExfilAt(d, k, MovedOf(packets, k)))
  }

  lemma ScanOnly(d: Detector, p: Packet)
    ensures ScanStep(d, p).0.brutes == d.brutes && ScanStep(d, p).0.exfils == d.exfils
  {
    hide UseScan, CurrentScan;
  }

  lemma ExfilOnly(d: Detector, p: Packet)
    ensures ExfilStep(d, p).0.brutes == d.brutes
  {
    hide UseExfil, CurrentExfil;
  }

  /** The brute-force and exfiltration alerts of one inspection. */
  lemma InspectWindows(d: Detector, before: seq<Packet>, p: Packet)
    requires WindowsAll(d, before)
    ensures WindowsAll(Inspect(d, p).0, before + [p])
    ensures Inspect(d, p).1 == ScanStep(d, p).1 + ExpectedBrute(AttemptsOf(before, (p.dst, p.dstPort)), p, p.responses)
                               + ExpectedExfil(MovedOf(before, (p.src, p.dst)), p)
  {
    assert (before + [p])[..|before|] == before;
    var a := ScanStep(d, p);
    var b := BruteSteps(a.0, p, p.responses);
    var c := ExfilStep(b.0, p);
    assert Inspect(d, p) == (c.0, a.1 + b.1 + c.1);
    ScanOnly(d, p);
    ExfilOnly(b.0, p);
    OthersKept(a.0, p, p.responses);
    hide ScanStep, BruteSteps, ExfilStep, ExpectedBrute, ExpectedExfil, AfterAll, BruteTracks, ExfilTracks, Move,
         Inspect;
    assert BruteAt(d, (p.dst, p.dstPort), AttemptsOf(before, (p.dst, p.dstPort)));
    assert ExfilAt(d, (p.src, p.dst), MovedOf(before, (p.src, p.dst)));
    BruteStepsTrack(a.0, p, p.responses, AttemptsOf(before, (p.dst, p.dstPort)));
    ExfilStepTracks(b.0, p, MovedOf(before, (p.src, p.dst)));
    forall k: Target ensures BruteAt(c.0, k, AttemptsOf(before + [p], k)) {
      assert BruteAt(d, k, AttemptsOf(before, k));
      assert k != (p.dst, p.dstPort) ==> (k in b.0.brutes - {(p.dst, p.dstPort)} <==> k in d.brutes);
    }
    forall k: Pair ensures ExfilAt(c.0, k, MovedOf(before + [p], k)) {
      assert ExfilAt(d, k, MovedOf(before, k));
      if k != (p.src, p.dst) { OtherExfils(b.0, p, k); }
    }
  }

  lemma {:induction false} AfterWindows(packets: seq<Packet>)
    ensures WindowsAll(After(packets), packets)
  {
    if packets != [] {
      var before, p := packets[..|packets| - 1], packets[|packets| - 1];
      AfterWindows(before);
      assert before + [p] == packets;
      hide WindowsAll, Inspect;
      InspectWindows(After(before), before, p);
    }
  }

  /**
   The alerts of packet i: its scan alert, one brute-force alert for each fifth failure of its target's window, and
   one exfiltration alert if it is the first to make its pair's window suspicious.  Without ageing that holds for any
   clock and any allocation failures.
   */
  lemma AlertsExact(t: Time, packets: seq<Packet>, ages: seq<bool>, i: nat)
    requires |ages| == |packets| && i < |packets| && Unaffected(t, packets, ages)
    ensures var p, before, found := packets[i], packets[..i], Alerts(EMPTY, packets, ages)[i];
            found == ScanAlerts(found) + ExpectedBrute(AttemptsOf(before, (p.dst, p.dstPort)), p, p.responses)
                     + ExpectedExfil(MovedOf(before, (p.src, p.dst)), p)
  {
    var before, p := packets[..i], packets[i];
    hide *;
    UnaffectedAlerts(t, packets, ages);
    AlertsAt(EMPTY, packets, i);
    RunToAfter(before);
    AfterWindows(before);
    AfterTracks(before);
    InspectWindows(After(before), before, p);
    ScanPart(After(before), before, p);
  }
}
