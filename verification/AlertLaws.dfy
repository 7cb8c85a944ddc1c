/** All alerts of a run, on the raw packets. */
module AlertLaws {
  import opened FailureLaws
  import opened PortScans
  import opened ScanLaws
  import opened Trackers
  import opened TransferLaws
  import opened WindowAlerts

  /**
   The alerts of packet i are those that three histories call for: its source's TCP packets, its target's refusals and
   its pair's payload.
   */
  lemma AlertLaw(t: Time, packets: seq<Packet>, ages: seq<bool>, i: nat)
    requires |ages| == |packets| && i < |packets| && Unaffected(t, packets, ages)
    ensures var p, target := packets[i], (packets[i].dst, packets[i].dstPort);
            var refused := FailureVerdicts(RefusalsOf(packets[..i], target), p, p.responses);
            Alerts(EMPTY, packets, ages)[i] == ScanVerdicts(packets, i) + refused + TransferAlerts(packets, i)
  {
    hide *;
    var p, before := packets[i], packets[..i];
    ScanLaw(t, packets, ages, i);
    TransferLaw(t, packets, ages, i);
    FailureHistory(before, (p.dst, p.dstPort));
    RefusalsOfOnly(before, (p.dst, p.dstPort));
    BruteVerdicts(RefusalsOf(before, (p.dst, p.dstPort)), p, p.responses);
  }

  /** Ageing drops a tracker after 300, 600 and 1800 seconds without use, or since its window began. */
  lemma AgeingLimits(d: Detector, at: Ageing, s: Ip, k: Target, m: Pair)
    ensures s in Age(d, at).scans <==> s in d.scans && at.scans - d.scans[s].lastSeen <= 300
    ensures k in Age(d, at).brutes <==> k in d.brutes && at.brutes - d.brutes[k].windowStart <= 600
    ensures m in Age(d, at).exfils <==> m in d.exfils && at.exfils - d.exfils[m].windowStart <= 1800
    ensures s in Age(d, at).scans ==> Age(d, at).scans[s] == d.scans[s]
    ensures k in Age(d, at).brutes ==> Age(d, at).brutes[k] == d.brutes[k]
    ensures m in Age(d, at).exfils ==> Age(d, at).exfils[m] == d.exfils[m]
  {
  }
}
