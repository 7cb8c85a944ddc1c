/**
 The rule engine's alert list: newest first, bounded, with consecutive numbers and running statistics.
 */
module AlertLog {

  /** Alert numbers and the alert count are 32 bits wide. */
  const WIDTH := 0x1_0000_0000
  const SEVERITIES := 5

  datatype Alert = Alert(id: nat, rule: nat, severity: nat)

  datatype Log = Log(alerts: seq<Alert>, count: nat, lastId: nat, generated: nat, bySeverity: seq<nat>)

  /** What happens to the engine: a rule fires (with or without memory for the alert), or the list is cleared. */
  datatype Event = Fire(rule: nat, severity: nat) | FireFails | Clear

  const EMPTY := Log([], 0, 0, 0, [0, 0, 0, 0, 0])

  /** Dropping the oldest of at least two alerts once the count exceeds the limit. */
  function Limit(log: Log, maxAlerts: nat): Log {
    if log.count > maxAlerts && |log.alerts| > 1 then
      log.(alerts := log.alerts[..|log.alerts| - 1], count := log.count - 1)
    else log
  }

  function Counted(bySeverity: seq<nat>, severity: nat): seq<nat> {
    if severity < |bySeverity| then bySeverity[severity := bySeverity[severity] + 1] else bySeverity
  }

  function Step(log: Log, e: Event, maxAlerts: nat): Log {
    match e
    case Fire(rule, severity) =>
      var id := (log.lastId + 1) % WIDTH;
      var longer := Log([Alert(id, rule, severity)] + log.alerts, (log.count + 1) % WIDTH, id, log.generated,
                        log.bySeverity);
      Limit(longer, maxAlerts).(generated := log.generated + 1, bySeverity := Counted(log.bySeverity, severity))
    case FireFails => log
    case Clear => log.(alerts := [], count := 0)
  }

  function Run(events: seq<Event>, maxAlerts: nat): Log {
    if events == [] then EMPTY
    else Step(Run(events[..|events| - 1], maxAlerts), events[|events| - 1], maxAlerts)
  }

  // ----- what the list should hold -----

  /** Alerts ever raised. */
  function Total(events: seq<Event>): nat {
    if events == [] then 0 else Total(events[..|events| - 1]) + if events[|events| - 1].Fire? then 1 else 0
  }

  /** Every alert raised since the last clear, newest first, each numbered by its place among all alerts. */
  function Since(events: seq<Event>): seq<Alert> {
    if events == [] then []
    else
      var earlier := Since(events[..|events| - 1]);
      match events[|events| - 1]
      case Fire(rule, severity) => [Alert(Total(events) % WIDTH, rule, severity)] + earlier
      case FireFails => earlier
      case Clear => []
  }

  function Kept(maxAlerts: nat): nat { if maxAlerts == 0 then 1 else maxAlerts }

  function Newest(alerts: seq<Alert>, n: nat): seq<Alert> { if |alerts| <= n then alerts else alerts[..n] }

  // ----- retention -----

  lemma {:induction false} Numbering(events: seq<Event>, maxAlerts: nat)
    ensures Run(events, maxAlerts).lastId == Total(events) % WIDTH
    ensures Run(events, maxAlerts).generated == Total(events)
  {
    if events != [] { Numbering(events[..|events| - 1], maxAlerts); }
  }

  /** One alert more keeps the newest ones. */
  lemma NewestStep(all: seq<Alert>, a: Alert, n: nat)
    requires n >= 1
    ensures Newest([a] + all, n) ==
            var longer := [a] + Newest(all, n);
            if |longer| > n then longer[..|longer| - 1] else longer
  {
  }

  /** One more event leaves the list the newest alerts, given that it was and given the next number. */
  lemma KeepsNewest(log: Log, all: seq<Alert>, e: Event, maxAlerts: nat)
    requires maxAlerts < WIDTH - 1
    requires log.alerts == Newest(all, Kept(maxAlerts)) && log.count == |log.alerts|
    ensures var next := Step(log, e, maxAlerts);
            next.alerts == Newest(Extended(all, e, log.lastId), Kept(maxAlerts)) && next.count == |next.alerts|
  {
    if e.Fire? { NewestStep(all, Alert((log.lastId + 1) % WIDTH, e.rule, e.severity), Kept(maxAlerts)); }
  }

  /** The alerts since the last clear, after one more event. */
  function Extended(all: seq<Alert>, e: Event, lastId: nat): seq<Alert> {
    match e
    case Fire(rule, severity) => [Alert((lastId + 1) % WIDTH, rule, severity)] + all
    case FireFails => all
    case Clear => []
  }

  lemma SinceStep(events: seq<Event>, maxAlerts: nat)
    requires events != []
    ensures var front, last := events[..|events| - 1], events[|events| - 1];
            && Since(events) == Extended(Since(front), last, Run(front, maxAlerts).lastId)
            && Run(events, maxAlerts) == Step(Run(front, maxAlerts), last, maxAlerts)
  {
    hide Step;
    Numbering(events[..|events| - 1], maxAlerts);
  }

  /** Below the largest limit, the list is the most recent alerts and the count is its length. */
  lemma {:induction false} Retention(events: seq<Event>, maxAlerts: nat)
    requires maxAlerts < 0xffff_ffff
    ensures Run(events, maxAlerts).alerts == Newest(Since(events), Kept(maxAlerts))
    ensures Run(events, maxAlerts).count == |Run(events, maxAlerts).alerts|
  {
    if events != [] {
      hide Run, Since, Step, Newest;
      var front := events[..|events| - 1];
      Retention(front, maxAlerts);
      KeepsNewest(Run(front, maxAlerts), Since(front), events[|events| - 1], maxAlerts);
      SinceStep(events, maxAlerts);
    }
  }

  /** With the largest limit the count wraps before it exceeds the limit, so nothing is ever dropped. */
  lemma {:induction false} LargestLimit(events: seq<Event>)
    ensures Run(events, WIDTH - 1).alerts == Since(events)
    ensures Run(events, WIDTH - 1).count == |Since(events)| % WIDTH
  {
    if events != [] {
      hide Run, Since, Step;
      var front := events[..|events| - 1];
      LargestLimit(front);
      KeepsAll(Run(front, WIDTH - 1), Since(front), events[|events| - 1]);
      SinceStep(events, WIDTH - 1);
    }
  }

  lemma KeepsAll(log: Log, all: seq<Alert>, e: Event)
    requires log.alerts == all && log.count == |all| % WIDTH
    ensures var next := Step(log, e, WIDTH - 1);
            next.alerts == Extended(all, e, log.lastId) && next.count == |next.alerts| % WIDTH
  {
  }

  /**
   The list is the most recent max(1, limit) alerts since the last clear, newest first, if and only if the
   limit is not the largest 32-bit number or that many alerts have not been raised yet.
   */
  lemma RetentionExact(events: seq<Event>, maxAlerts: nat)
    requires maxAlerts <= 0xffff_ffff
    ensures Run(events, maxAlerts).alerts == Newest(Since(events), Kept(maxAlerts))
            <==> maxAlerts < 0xffff_ffff || |Since(events)| <= maxAlerts
  {
    if maxAlerts < WIDTH - 1 {
      Retention(events, maxAlerts);
    } else {
      LargestLimit(events);
    }
  }

  lemma {:induction false} SinceNumbers(events: seq<Event>, i: nat)
    requires i < |Since(events)|
    ensures i < Total(events) && Since(events)[i].id == (Total(events) - i) % WIDTH
  {
    var front := events[..|events| - 1];
    match events[|events| - 1]
    case Fire(_, _) => if i > 0 { SinceNumbers(front, i - 1); }
    case FireFails => SinceNumbers(front, i);
    case Clear =>
  }

  /** The numbers in the list are consecutive, downwards from the number of alerts ever raised. */
  lemma ConsecutiveIds(events: seq<Event>, maxAlerts: nat, i: nat)
    requires maxAlerts <= 0xffff_ffff && i < |Run(events, maxAlerts).alerts|
    ensures i < Total(events) && Run(events, maxAlerts).alerts[i].id == (Total(events) - i) % 0x1_0000_0000
  {
    if maxAlerts < WIDTH - 1 {
      Retention(events, maxAlerts);
    } else {
      LargestLimit(events);
    }
    SinceNumbers(events, i);
  }

  // ----- statistics -----

  function Fired(events: seq<Event>, severity: nat): nat {
    if events == [] then 0
    else
      var last := events[|events| - 1];
      Fired(events[..|events| - 1], severity) + if last.Fire? && last.severity == severity then 1 else 0
  }

  function Unclassified(events: seq<Event>): nat {
    if events == [] then 0
    else
      var last := events[|events| - 1];
      Unclassified(events[..|events| - 1]) + if last.Fire? && last.severity >= SEVERITIES then 1 else 0
  }

  lemma {:induction false} SeverityCounts(events: seq<Event>, maxAlerts: nat)
    ensures |Run(events, maxAlerts).bySeverity| == 5
    ensures forall s :: 0 <= s < 5 ==> Run(events, maxAlerts).bySeverity[s] == Fired(events, s)
  {
    if events != [] { SeverityCounts(events[..|events| - 1], maxAlerts); }
  }

  function Sum(s: seq<nat>): nat { if s == [] then 0 else Sum(s[..|s| - 1]) + s[|s| - 1] }

  lemma {:induction false} SumBump(s: seq<nat>, i: nat)
    requires i < |s|
    ensures Sum(s[i := s[i] + 1]) == Sum(s) + 1
  {
    var t := s[i := s[i] + 1];
    if i < |s| - 1 {
      SumBump(s[..|s| - 1], i);
      assert t[..|t| - 1] == s[..|s| - 1][i := s[i] + 1];
    } else {
      assert t[..|t| - 1] == s[..|s| - 1];
    }
  }

  /** Per-severity counts add up to the alerts generated, short of those whose severity has no counter. */
  lemma {:induction false} CountsConserved(events: seq<Event>, maxAlerts: nat)
    ensures Sum(Run(events, maxAlerts).bySeverity) + Unclassified(events) == Run(events, maxAlerts).generated
  {
    if events == [] {
      SumZeros();
    } else {
      var front := events[..|events| - 1];
      CountsConserved(front, maxAlerts);
      SeverityCounts(front, maxAlerts);
      var counts := Run(front, maxAlerts).bySeverity;
      match events[|events| - 1]
      case Fire(_, severity) => if severity < SEVERITIES { SumBump(counts, severity); }
      case FireFails =>
      case Clear =>
    }
  }

  lemma SumZeros()
    ensures Sum([0, 0, 0, 0, 0]) == 0
  {
    assert [0, 0, 0, 0, 0][..4] == [0, 0, 0, 0] && [0, 0, 0, 0][..3] == [0, 0, 0] && [0, 0, 0][..2] == [0, 0];
    assert Sum([0, 0]) == 0;
  }

  // ----- the object -----

  class Engine {
    var alerts: seq<Alert>
    var alertCount: nat
    var alertIdCounter: nat
    const maxAlerts: nat
    var alertsGenerated: nat
    var alertsBySeverity: seq<nat>

    function View(): Log
      reads this
    {
      Log(alerts, alertCount, alertIdCounter, alertsGenerated, alertsBySeverity)
    }

    constructor (limit: nat)
      ensures View() == EMPTY && maxAlerts == limit
    {
      alerts, alertCount, alertIdCounter := [], 0, 0;
      maxAlerts := limit;
      alertsGenerated, alertsBySeverity := 0, [0, 0, 0, 0, 0];
    }

    /** Walks to the oldest alert and unlinks it, unless it is the only one. */
    method RemoveOldest()
      requires alertCount > 0
      modifies this`alerts, this`alertCount
      ensures |old(alerts)| > 1 ==> alerts == old(alerts)[..|old(alerts)| - 1] && alertCount == old(alertCount) - 1
      ensures |old(alerts)| <= 1 ==> alerts == old(alerts) && alertCount == old(alertCount)
    {
      var curr, prev := 0, -1;
      while curr + 1 < |alerts|
        invariant prev == curr - 1 && (curr < |alerts| || curr == 0)
      {
        prev := curr;
        curr := curr + 1;
      }
      if prev >= 0 {
        alerts := alerts[..prev + 1];
        alertCount := alertCount - 1;
      }
    }

    /** Creates an alert; nothing happens if there is no memory for it. */
    method CreateAlert(rule: nat, severity: nat, enoughMemory: bool)
      requires |alertsBySeverity| == SEVERITIES
      modifies this
      ensures View() == Step(old(View()), if enoughMemory then Fire(rule, severity) else FireFails, maxAlerts)
      ensures |alertsBySeverity| == SEVERITIES
    {
      if !enoughMemory {
        return;
      }
      alertIdCounter := (alertIdCounter + 1) % WIDTH;
      alerts := [Alert(alertIdCounter, rule, severity)] + alerts;
      alertCount := (alertCount + 1) % WIDTH;
      if alertCount > maxAlerts {
        RemoveOldest();
      }
      alertsGenerated := alertsGenerated + 1;
      if severity < SEVERITIES {
        alertsBySeverity := alertsBySeverity[severity := alertsBySeverity[severity] + 1];
      }
    }

    method ClearAlerts()
      modifies this
      ensures View() == Step(old(View()), Clear, maxAlerts)
      ensures alertsBySeverity == old(alertsBySeverity)
    {
      alerts := [];
      alertCount := 0;
    }
  }

  /** A whole run of the object ends in the state the run of events describes. */
  method Replay(events: seq<Event>, limit: nat) returns (engine: Engine)
    ensures fresh(engine) && engine.View() == Run(events, limit)
  {
    engine := new Engine(limit);
    for i := 0 to |events|
      invariant fresh(engine) && engine.maxAlerts == limit
      invariant engine.View() == Run(events[..i], limit) && |engine.alertsBySeverity| == SEVERITIES
    {
      assert events[..i + 1][..i] == events[..i];
      match events[i]
      case Fire(rule, severity) => engine.CreateAlert(rule, severity, true);
      case FireFails => engine.CreateAlert(0, 0, false);
      case Clear => engine.ClearAlerts();
    }
    assert events[..|events|] == events;
  }
}
