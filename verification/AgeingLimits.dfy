/**
 When ageing can be seen in the alerts: exactly when the clock may move between the two readings of one detection, or
 when memory for a new tracker may be missing.
 */
module AgeingLimits {
  import opened Options
  import opened Trackers

  /** Ageing changes no alert in any run with these bounds on second readings and allocation failures. */
  ghost predicate Invisible(gap: nat, failures: bool) {
    forall t: Time, packets, ages: seq<bool> ::
      ClockFrom(t, packets) && |ages| == |packets| && AllWithin(packets, gap, failures) ==>
        Alerts(EMPTY, packets, ages) == Alerts(EMPTY, packets, Never(|packets|))
  }

  const SOURCE: Ip := 1
  const EXTERNAL: Ip := 8
  const MEGABYTE := 1024 * 1024

  /** Data leaving for an external address at noon. */
  function Transfer(now: Time, created: Time, len: nat, memory: bool): Packet {
    Packet(SOURCE, EXTERNAL, 80, None, [], len, Ageing(now, now, now), Moment(now, 12, now, 12, true),
           Moment(now, 12, created, 12, memory))
  }

  /** A detector that has only this tracker. */
  function Only(start: Time, last: Time, bytes: nat, packets: nat, alerted: bool): Detector {
    Detector(map[], map[], map[(SOURCE, EXTERNAL) := Exfil(start, last, bytes, packets, false, alerted)])
  }

  /** The alert for a transfer of at least the threshold, in the given window. */
  function Expected(mb: nat, packets: nat, seconds: int): seq<Alert> {
    [ExfilAlert(SOURCE, EXTERNAL, LargeExternal(mb), packets, seconds)]
  }

  lemma InspectTransfer(d: Detector, now: Time, created: Time, len: nat, memory: bool)
    ensures var p := Transfer(now, created, len, memory);
            Inspect(d, p) == ExfilStep(d, p)
  {
    var p := Transfer(now, created, len, memory);
    assert ScanStep(d, p) == (d, []) && BruteSteps(d, p, []) == (d, []);
    assert [] + [] + ExfilStep(d, p).1 == ExfilStep(d, p).1;
    hide ScanStep, BruteSteps, ExfilStep;
  }

  /** A transfer on a tracker in its window. */
  lemma Continued(start: Time, last: Time, now: Time, created: Time, bytes: nat, len: nat, memory: bool)
    requires 0 < len && bytes + len <= DATA_EXFIL_THRESHOLD && now - start <= DATA_EXFIL_WINDOW
    ensures var p := Transfer(now, created, len, memory);
            var large := bytes + len == DATA_EXFIL_THRESHOLD;
            Inspect(Only(start, last, bytes, 1, false), p) ==
              (Only(start, now, bytes + len, 2, large), if large then Expected(100, 2, now - start) else [])
  {
    InspectTransfer(Only(start, last, bytes, 1, false), now, created, len, memory);
    var sum, large := bytes + len, bytes + len == DATA_EXFIL_THRESHOLD;
    assert Only(start, last, bytes, 1, false).exfils[(SOURCE, EXTERNAL) := Exfil(start, now, sum, 2, false, large)]
        == Only(start, now, sum, 2, large).exfils;
    hide Inspect;
  }

  /** Without memory for a tracker, a transfer leaves no trace. */
  lemma Unseen(now: Time, created: Time, len: nat)
    ensures Inspect(EMPTY, Transfer(now, created, len, false)) == (EMPTY, [])
  {
    InspectTransfer(EMPTY, now, created, len, false);
    hide Inspect;
  }

  /** A transfer that opens a window on a new tracker. */
  lemma Opened(now: Time, created: Time, len: nat)
    requires 0 < len <= DATA_EXFIL_THRESHOLD && now <= created
    ensures var large := len == DATA_EXFIL_THRESHOLD;
            Inspect(EMPTY, Transfer(now, created, len, true)) ==
              (Only(created, now, len, 1, large), if large then Expected(100, 1, now - created) else [])
  {
    InspectTransfer(EMPTY, now, created, len, true);
    assert EMPTY.exfils[(SOURCE, EXTERNAL) := Exfil(created, now, len, 1, false, len == DATA_EXFIL_THRESHOLD)]
        == Only(created, now, len, 1, len == DATA_EXFIL_THRESHOLD).exfils;
    hide Inspect;
  }

  /** A transfer that resets a tracker whose window is over. */
  lemma Reopened(start: Time, last: Time, bytes: nat, now: Time, created: Time, len: nat, memory: bool)
    requires 0 < len <= DATA_EXFIL_THRESHOLD && now - start > DATA_EXFIL_WINDOW
    ensures var large := len == DATA_EXFIL_THRESHOLD;
            Inspect(Only(start, last, bytes, 1, false), Transfer(now, created, len, memory)) ==
              (Only(now, now, len, 1, large), if large then Expected(100, 1, 0) else [])
  {
    var d := Only(start, last, bytes, 1, false);
    InspectTransfer(d, now, created, len, memory);
    assert d.exfils[(SOURCE, EXTERNAL) := Exfil(now, now, len, 1, false, len == DATA_EXFIL_THRESHOLD)]
        == Only(now, now, len, 1, len == DATA_EXFIL_THRESHOLD).exfils;
    hide Inspect;
  }

  /** An old tracker is aged out. */
  lemma AgedOut(start: Time, last: Time, bytes: nat, now: Time)
    requires now - start > EXFIL_MAX_AGE
    ensures Age(Only(start, last, bytes, 1, false), Ageing(now, now, now)) == EMPTY
  {
  }

  lemma ThreeAlerts(d: Detector, a: Packet, b: Packet, c: Packet, ages: seq<bool>)
    requires |ages| == 3
    ensures var x := Inspect(Swept(d, a, ages[0]), a);
            var y := Inspect(Swept(x.0, b, ages[1]), b);
            var z := Inspect(Swept(y.0, c, ages[2]), c);
            Alerts(d, [a, b, c], ages) == [x.1, y.1, z.1]
  {
    hide Inspect, Swept;
    var x := Inspect(Swept(d, a, ages[0]), a);
    var y := Inspect(Swept(x.0, b, ages[1]), b);
    assert [a, b, c][1..] == [b, c] && [b, c][1..] == [c] && [c][1..] == [];
    assert ages[1..][0] == ages[1] && ages[1..][1..][0] == ages[2];
    assert Alerts(y.0, [c], ages[1..][1..]) == [Inspect(Swept(y.0, c, ages[2]), c).1] + [];
    assert Alerts(x.0, [b, c], ages[1..]) == [y.1] + Alerts(y.0, [c], ages[1..][1..]);
  }

  /**
   If the clock moves between the two readings, an aged-out tracker is created again one second after the moment at
   which its old record would have been reset, and a later transfer still falls into its window.
   */
  lemma VisibleByClock(gap: nat, failures: bool)
    requires gap > 0
    ensures !Invisible(gap, failures)
  {
    var half := 50 * MEGABYTE;
    var a, b, c := Transfer(0, 0, 1, true), Transfer(2000, 2001, half, true), Transfer(2601, 2601, half, true);
    TransferFrom(0, 0, 0, 1, true, gap, failures);
    TransferFrom(0, 2000, 2001, half, true, gap, failures);
    TransferFrom(2001, 2601, 2601, half, true, gap, failures);
    Opened(0, 0, 1);
    AgedOut(0, 0, 1, 2000);
    Opened(2000, 2001, half);
    Continued(2001, 2000, 2601, 2601, half, half, true);
    Reopened(0, 0, 1, 2000, 2001, half, true);
    Reopened(2000, 2000, half, 2601, 2601, half, true);
    AlertSeen();
    assert b.ageAt == Ageing(2000, 2000, 2000);
    hide *;
    ClockOf(a, b, c, gap, failures);
    TwoViews(a, b, c);
    assert Alerts(EMPTY, [a, b, c], [false, true, false])[2] != Alerts(EMPTY, [a, b, c], Never(3))[2];
    Seen([a, b, c], [false, true, false], gap, failures);
  }

  lemma AlertSeen()
    ensures forall mb, packets, seconds :: Expected(mb, packets, seconds) != []
  {
  }

  lemma TransferFrom(t: Time, now: Time, created: Time, len: nat, memory: bool, gap: nat, failures: bool)
    requires t <= now <= created <= now + gap && (memory || failures)
    ensures var p := Transfer(now, created, len, memory);
            PacketFrom(t, p) && PacketWithin(p, gap, failures) && p.exfilAt.created == created
  {
  }

  /** The run seen by the detector that ages before the second packet, and by the one that never ages. */
  lemma TwoViews(a: Packet, b: Packet, c: Packet)
    ensures var x := Inspect(EMPTY, a);
            var y, y' := Inspect(Age(x.0, b.ageAt), b), Inspect(x.0, b);
            && Alerts(EMPTY, [a, b, c], [false, true, false]) == [x.1, y.1, Inspect(y.0, c).1]
            && Alerts(EMPTY, [a, b, c], Never(3)) == [x.1, y'.1, Inspect(y'.0, c).1]
  {
    ThreeAlerts(EMPTY, a, b, c, [false, true, false]);
    ThreeAlerts(EMPTY, a, b, c, Never(3));
    hide Inspect, Age;
  }

  lemma Seen(packets: seq<Packet>, ages: seq<bool>, gap: nat, failures: bool)
    requires ClockFrom(0, packets) && |ages| == |packets| && AllWithin(packets, gap, failures)
    requires Alerts(EMPTY, packets, ages) != Alerts(EMPTY, packets, Never(|packets|))
    ensures !Invisible(gap, failures)
  {
  }

  lemma ClockOf(a: Packet, b: Packet, c: Packet, gap: nat, failures: bool)
    requires PacketFrom(0, a) && PacketFrom(a.exfilAt.created, b) && PacketFrom(b.exfilAt.created, c)
    requires PacketWithin(a, gap, failures) && PacketWithin(b, gap, failures) && PacketWithin(c, gap, failures)
    ensures ClockFrom(0, [a, b, c]) && AllWithin([a, b, c], gap, failures)
  {
    hide PacketFrom, PacketWithin;
    assert [a, b, c][1..] == [b, c] && [b, c][1..] == [c] && [c][1..] == [];
    assert ClockFrom(b.exfilAt.created, [c]);
    assert ClockFrom(a.exfilAt.created, [b, c]);
  }

  /** If memory can be missing, an aged-out tracker is not created again, and its packet goes unseen. */
  lemma VisibleByMemory(gap: nat)
    ensures !Invisible(gap, true)
  {
    var a, c := Transfer(0, 0, 1, true), Transfer(2000, 2000, 1, true);
    var b := Transfer(2000, 2000, DATA_EXFIL_THRESHOLD, false);
    TransferFrom(0, 0, 0, 1, true, gap, true);
    TransferFrom(0, 2000, 2000, DATA_EXFIL_THRESHOLD, false, gap, true);
    TransferFrom(2000, 2000, 2000, 1, true, gap, true);
    Opened(0, 0, 1);
    AgedOut(0, 0, 1, 2000);
    Unseen(2000, 2000, DATA_EXFIL_THRESHOLD);
    Reopened(0, 0, 1, 2000, 2000, DATA_EXFIL_THRESHOLD, false);
    AlertSeen();
    assert b.ageAt == Ageing(2000, 2000, 2000);
    hide *;
    ClockOf(a, b, c, gap, true);
    TwoViews(a, b, c);
    assert Alerts(EMPTY, [a, b, c], [false, true, false])[1] != Alerts(EMPTY, [a, b, c], Never(3))[1];
    Seen([a, b, c], [false, true, false], gap, true);
  }

  /** Ageing is invisible in all runs if and only if second readings agree with the first and memory never fails. */
  lemma AgeingInvisibleExactly(gap: nat, failures: bool)
    ensures Invisible(gap, failures) <==> gap == 0 && !failures
  {
    if gap > 0 {
      VisibleByClock(gap, failures);
    } else if failures {
      VisibleByMemory(gap);
    } else {
      forall t: Time, packets, ages: seq<bool> |
          ClockFrom(t, packets) && |ages| == |packets| && AllWithin(packets, 0, false)
        ensures Alerts(EMPTY, packets, ages) == Alerts(EMPTY, packets, Never(|packets|))
      {
        SteadyHarmless(EMPTY, packets);
        AgeingInvisible(t, packets, ages);
      }
    }
  }
}
