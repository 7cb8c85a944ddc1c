/**
 When brute force is reported, on the raw responses: a target's history of statuses 401 and 403, and the fifth of them
 since its window was opened.
 */
module FailureLaws {
  import opened FixedWindows
  import opened Options
  import opened PortScans
  import opened Trackers
  import opened WindowAlerts

  /** The responses with status 401 or 403, in order. */
  function Refusals(responses: seq<Response>): seq<Response> {
    if responses == [] then []
    else
      var r := responses[|responses| - 1];
      Refusals(responses[..|responses| - 1]) + if r.status == 401 || r.status == 403 then [r] else []
  }

  /** Those that a target sent, over all packets. */
  function RefusalsOf(packets: seq<Packet>, k: Target): seq<Response> {
    if packets == [] then []
    else
      var p := packets[|packets| - 1];
      RefusalsOf(packets[..|packets| - 1], k) + if (p.dst, p.dstPort) == k then Refusals(p.responses) else []
  }

  function RefusalMoments(f: seq<Response>): (ms: seq<Moment>)
    ensures |ms| == |f|
  {
    seq(|f|, i requires 0 <= i < |f| => f[i].at)
  }

  function CountOf(f: seq<Response>, status: int): nat {
    if f == [] then 0
    else CountOf(f[..|f| - 1], status) + if f[|f| - 1].status == status then 1 else 0
  }

  /** The window of a target after its refusals `f`. */
  function FailureWindow(f: seq<Response>): Option<Attempts> {
    var o := OpeningOf(RefusalMoments(f), 600);
    if o.None? then None
    else Some(Attempts(o.value.start, CountOf(f[o.value.index..], 401), CountOf(f[o.value.index..], 403)))
  }

  lemma CountSnoc(f: seq<Response>, r: Response, status: int)
    ensures CountOf(f + [r], status) == CountOf(f, status) + if r.status == status then 1 else 0
  {
    assert (f + [r])[..|f|] == f;
  }

  predicate AllRefusals(f: seq<Response>) {
    forall i :: 0 <= i < |f| ==> f[i].status == 401 || f[i].status == 403
  }

  lemma {:induction false} CountsAll(f: seq<Response>)
    requires AllRefusals(f)
    ensures CountOf(f, 401) + CountOf(f, 403) == |f|
  {
    if f != [] { CountsAll(f[..|f| - 1]); }
  }

  lemma RefusalMomentsSnoc(f: seq<Response>, r: Response)
    ensures RefusalMoments(f + [r]) == RefusalMoments(f) + [r.at]
  {
  }

  lemma AttemptsFrom(f: seq<Response>, r: Response, i: nat, start: Time)
    requires i <= |f| && (r.status == 401 || r.status == 403)
    ensures var w := Attempts(start, CountOf(f[i..], 401), CountOf(f[i..], 403));
            && Attempts(start, CountOf((f + [r])[i..], 401), CountOf((f + [r])[i..], 403)) == OneMore(w, r.status)
            && (i == |f| ==> w == Attempts(start, 0, 0))
  {
    SuffixSnoc(f, r, i);
    CountSnoc(f[i..], r, 401);
    CountSnoc(f[i..], r, 403);
  }

  /** The window in force for one more refusal, and what it makes of it. */
  lemma FailureWindowSnoc(f: seq<Response>, r: Response)
    requires r.status == 401 || r.status == 403
    ensures var o, w := OpeningOf(RefusalMoments(f + [r]), 600), AttemptsBefore(FailureWindow(f), r.at);
            && (o.None? <==> w.None?)
            && (o.None? ==> FailureWindow(f).None?)
            && (o.Some? ==>
                  w.value.start == o.value.start && FailureWindow(f + [r]) == Some(OneMore(w.value, r.status)))
  {
    RefusalMomentsSnoc(f, r);
    OpeningSnoc(RefusalMoments(f), r.at, 600);
    var o := OpeningOf(RefusalMoments(f + [r]), 600);
    hide OpeningOf, RefusalMoments, CountOf, OneMore;
    if o.Some? { AttemptsFrom(f, r, o.value.index, o.value.start); }
  }

  lemma AttemptSnoc(f: seq<Response>, r: Response)
    ensures Attempt(FailureWindow(f), r)
         == FailureWindow(f + if r.status == 401 || r.status == 403 then [r] else [])
  {
    if r.status == 401 || r.status == 403 {
      FailureWindowSnoc(f, r);
    } else {
      assert f + [] == f;
    }
    hide FailureWindow, AttemptsBefore, OneMore;
  }

  lemma {:induction false} AfterRefusals(f: seq<Response>, responses: seq<Response>)
    ensures AfterAll(FailureWindow(f), responses) == FailureWindow(f + Refusals(responses))
    decreases |responses|
  {
    if responses == [] {
      assert f + [] == f;
    } else {
      var front, r := responses[..|responses| - 1], responses[|responses| - 1];
      hide FailureWindow, Attempt;
      AfterRefusals(f, front);
      AttemptSnoc(f + Refusals(front), r);
      assert (f + Refusals(front)) + [r] == f + (Refusals(front) + [r]);
      assert (f + Refusals(front)) + [] == f + (Refusals(front) + []);
    }
  }

  /** A target's window is made of its refusals since it was opened. */
  lemma {:induction false} FailureHistory(packets: seq<Packet>, k: Target)
    ensures AttemptsOf(packets, k) == FailureWindow(RefusalsOf(packets, k))
  {
    if packets == [] {
      assert RefusalMoments([]) == [];
    } else {
      var front, p := packets[..|packets| - 1], packets[|packets| - 1];
      FailureHistory(front, k);
      hide FailureWindow, AfterAll;
      AfterRefusals(RefusalsOf(front, k), p.responses);
      assert RefusalsOf(front, k) + [] == RefusalsOf(front, k);
    }
  }

  /** The alert for the last of a target's refusals: it is the fifth since the window was opened. */
  function FailureVerdict(f: seq<Response>, target: Ip, port: Port): seq<Alert>
    requires f != []
  {
    var o, last := OpeningOf(RefusalMoments(f), 600), f[|f| - 1];
    if o.None? || |f| - o.value.index != 5 then []
    else
      var since := f[o.value.index..];
      [BruteAlert(target, port, 5, CountOf(since, 401), CountOf(since, 403), last.at.now - o.value.start)]
  }

  /** The alerts for a packet's responses, when `f` was refused before. */
  function FailureVerdicts(f: seq<Response>, p: Packet, responses: seq<Response>): seq<Alert>
    decreases |responses|
  {
    if responses == [] then []
    else
      var front, r := responses[..|responses| - 1], responses[|responses| - 1];
      FailureVerdicts(f, p, front)
      + if r.status == 401 || r.status == 403 then FailureVerdict(f + Refusals(front) + [r], p.dst, p.dstPort) else []
  }

  lemma OnlyRefusals(f: seq<Response>)
    requires AllRefusals(f)
    ensures forall j: nat :: j <= |f| ==> CountOf(f[j..], 401) + CountOf(f[j..], 403) == |f| - j
  {
    forall j: nat | j <= |f| ensures CountOf(f[j..], 401) + CountOf(f[j..], 403) == |f| - j {
      CountsAll(f[j..]);
    }
  }

  lemma BruteVerdict(f: seq<Response>, p: Packet, r: Response)
    requires AllRefusals(f)
    ensures BruteAlertFor(FailureWindow(f), p, r)
         == if r.status == 401 || r.status == 403 then FailureVerdict(f + [r], p.dst, p.dstPort) else []
  {
    if r.status == 401 || r.status == 403 {
      FailureWindowSnoc(f, r);
      OnlyRefusals(f + [r]);
      assert (f + [r])[|f|] == r;
      hide OpeningOf, RefusalMoments, CountOf, AttemptsBefore;
    }
  }

  lemma {:induction false} RefusalsOnly(responses: seq<Response>)
    ensures AllRefusals(Refusals(responses))
  {
    if responses != [] { RefusalsOnly(responses[..|responses| - 1]); }
  }

  lemma {:induction false} RefusalsOfOnly(packets: seq<Packet>, k: Target)
    ensures AllRefusals(RefusalsOf(packets, k))
  {
    if packets != [] {
      RefusalsOfOnly(packets[..|packets| - 1], k);
      RefusalsOnly(packets[|packets| - 1].responses);
    }
  }

  lemma {:induction false} BruteVerdicts(f: seq<Response>, p: Packet, responses: seq<Response>)
    requires AllRefusals(f)
    ensures ExpectedBrute(FailureWindow(f), p, responses) == FailureVerdicts(f, p, responses)
    decreases |responses|
  {
    if responses != [] {
      var front, r := responses[..|responses| - 1], responses[|responses| - 1];
      RefusalsOnly(front);
      assert AllRefusals(f + Refusals(front));
      hide FailureWindow, FailureVerdict, BruteAlertFor, AfterAll, Refusals, AllRefusals;
      BruteVerdicts(f, p, front);
      AfterRefusals(f, front);
      BruteVerdict(f + Refusals(front), p, r);
    }
  }

  /**
   The brute-force alerts of packet i: one for each of its responses with status 401 or 403 that is the target's fifth
   since the window was opened, windows lasting 600 seconds.
   */
  lemma FailureLaw(t: Time, packets: seq<Packet>, ages: seq<bool>, i: nat)
    requires |ages| == |packets| && i < |packets| && Unaffected(t, packets, ages)
    ensures var p, before, found := packets[i], packets[..i], Alerts(EMPTY, packets, ages)[i];
            found == ScanAlerts(found) + FailureVerdicts(RefusalsOf(before, (p.dst, p.dstPort)), p, p.responses)
                     + ExpectedExfil(MovedOf(before, (p.src, p.dst)), p)
  {
    var p, before := packets[i], packets[..i];
    hide *;
    AlertsExact(t, packets, ages, i);
    FailureHistory(before, (p.dst, p.dstPort));
    RefusalsOfOnly(before, (p.dst, p.dstPort));
    BruteVerdicts(RefusalsOf(before, (p.dst, p.dstPort)), p, p.responses);
  }

  // ----- the trackers themselves -----

  /** A target has a tracker if and only if a window has been opened for it; it counts in 32 bits. */
  lemma TargetState(packets: seq<Packet>, k: Target)
    ensures var d, w := After(packets), FailureWindow(RefusalsOf(packets, k));
            && (k in d.brutes <==> w.Some?)
            && (w.Some? ==>
                  var v := d.brutes[k];
                  && v.windowStart == w.value.start && v.failed == w.value.Total() % 0x1_0000_0000
                  && v.count401 == w.value.count401 % 0x1_0000_0000 && v.count403 == w.value.count403 % 0x1_0000_0000
                  && (v.alerted <==> w.value.Total() >= 5))
  {
    AfterWindows(packets);
    FailureHistory(packets, k);
    assert BruteAt(After(packets), k, AttemptsOf(packets, k));
    hide After, AttemptsOf, FailureWindow, RefusalsOf;
  }

  /** A target's tracker, if there is one, was last used at the end of the history `f`. */
  predicate UsedLast(d: Detector, k: Target, f: seq<Response>) {
    k in d.brutes ==> f != [] && d.brutes[k].lastAttempt == f[|f| - 1].at.now
  }

  lemma StepRefused(d: Detector, p: Packet, r: Response, f: seq<Response>)
    requires UsedLast(d, (p.dst, p.dstPort), f)
    ensures UsedLast(BruteStep(d, p, r).0, (p.dst, p.dstPort),
                     f + if r.status == 401 || r.status == 403 then [r] else [])
  {
    assert f + [] == f;
    hide CurrentBrute;
  }

  lemma {:induction false} StepsRefused(d: Detector, p: Packet, responses: seq<Response>, f: seq<Response>)
    requires UsedLast(d, (p.dst, p.dstPort), f)
    ensures UsedLast(BruteSteps(d, p, responses).0, (p.dst, p.dstPort), f + Refusals(responses))
    decreases |responses|
  {
    if responses == [] {
      assert f + [] == f;
    } else {
      var front, r := responses[..|responses| - 1], responses[|responses| - 1];
      hide UsedLast, BruteStep;
      StepsRefused(d, p, front, f);
      StepRefused(BruteSteps(d, p, front).0, p, r, f + Refusals(front));
      assert (f + Refusals(front)) + [r] == f + (Refusals(front) + [r]);
      assert (f + Refusals(front)) + [] == f + (Refusals(front) + []);
    }
  }

  /** A packet's inspection and one target's tracker. */
  lemma InspectBrutes(d: Detector, p: Packet, k: Target, f: seq<Response>)
    requires UsedLast(d, k, f)
    ensures UsedLast(Inspect(d, p).0, k, f + if (p.dst, p.dstPort) == k then Refusals(p.responses) else [])
  {
    var a := ScanStep(d, p).0;
    var b := BruteSteps(a, p, p.responses).0;
    ScanOnly(d, p);
    ExfilOnly(b, p);
    OthersKept(a, p, p.responses);
    assert k != (p.dst, p.dstPort) ==> (k in b.brutes - {(p.dst, p.dstPort)} <==> k in b.brutes);
    assert k != (p.dst, p.dstPort) ==> (k in a.brutes - {(p.dst, p.dstPort)} <==> k in a.brutes);
    if (p.dst, p.dstPort) == k { StepsRefused(a, p, p.responses, f); }
    assert f + [] == f;
    hide ScanStep, BruteSteps, ExfilStep, Refusals;
  }

  /** A tracker was last used when its target's last refusal was inspected. */
  lemma {:induction false} LastRefusal(packets: seq<Packet>, k: Target)
    ensures UsedLast(After(packets), k, RefusalsOf(packets, k))
  {
    if packets != [] {
      var front, p := packets[..|packets| - 1], packets[|packets| - 1];
      LastRefusal(front, k);
      hide UsedLast, Inspect;
      InspectBrutes(After(front), p, k, RefusalsOf(front, k));
    }
  }
}
