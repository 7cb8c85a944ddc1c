/**
 What timers promise: a map from timer to absolute expiry tick.  A tick runs exactly the handlers whose
 expiry it is; periodic timers are armed again from that tick.
 */
module TimerSpec {
  import WheelMath

  type TimerId = nat

  const TIMER_HZ := 1000
  const TIMER_MAX_TICKS := 0xffff_ffff
  /** `ndf_tick_t`: 32 bits. */
  type Tick32 = x: nat | x <= TIMER_MAX_TICKS

  const TIMER_MAX_SECS := TIMER_MAX_TICKS / TIMER_HZ

  datatype Timeval = Timeval(sec: int, usec: int)

  /** Division of C integers: towards zero. */
  function CDiv(a: int, b: int): int
    requires b > 0
  {
    if a >= 0 then a / b else -((-a) / b)
  }

  /** Out-of-range values, among them negative ones read as unsigned, give the maximum. */
  function TimevalToTicks(tv: Timeval): Tick32 {
    var ticks := tv.sec * TIMER_HZ + CDiv(tv.usec * TIMER_HZ, 1000000);
    if ticks < 0 || ticks >= TIMER_MAX_TICKS then TIMER_MAX_TICKS else ticks
  }

  function TicksToTimeval(t: Tick32): Timeval {
    Timeval(t / TIMER_HZ, t % TIMER_HZ * 1000000 / TIMER_HZ)
  }

  lemma TicksRoundTrip(t: Tick32)
    ensures TimevalToTicks(TicksToTimeval(t)) == t
  {
    var tv := TicksToTimeval(t);
    assert tv.usec == t % TIMER_HZ * 1000;
    assert tv.usec * TIMER_HZ == t % TIMER_HZ * 1000000;
  }

  // ----- the specification state -----

  datatype Setting = Setting(delay: Tick32, isPeriod: bool)

  datatype Clock = Clock(now: nat, expiry: map<TimerId, nat>, settings: map<TimerId, Setting>)

  /** Arm a timer that is not pending: refused when the delay is out of range, at least one tick. */
  function Arm(c: Clock, id: TimerId, ticks: Tick32, isPeriod: bool): Clock {
    if ticks >= TIMER_MAX_TICKS then c.(settings := c.settings[id := Setting(ticks, isPeriod)])
    else
      var d: Tick32 := if ticks == 0 then 1 else ticks;
      c.(settings := c.settings[id := Setting(d, isPeriod)], expiry := c.expiry[id := c.now + d])
  }

  function Disarm(c: Clock, id: TimerId): Clock {
    c.(expiry := c.expiry - {id})
  }

  /** The timers whose handlers the tick at time `t` must run. */
  function Due(expiry: map<TimerId, nat>, t: nat): set<TimerId> {
    set id | id in expiry && expiry[id] == t
  }

  /** A fired timer stays armed if it is periodic and its handler did not stop it. */
  predicate Rearms(settings: map<TimerId, Setting>, stops: set<TimerId>, id: TimerId) {
    id in settings && settings[id].isPeriod && id !in stops
  }

  /** Expiries after the handlers of `fired` have run at time `t`. */
  function Settle(expiry: map<TimerId, nat>, fired: set<TimerId>, t: nat,
                  settings: map<TimerId, Setting>, stops: set<TimerId>): map<TimerId, nat>
  {
    map id | id in expiry && (id !in fired || Rearms(settings, stops, id)) ::
      if id in fired then t + settings[id].delay else expiry[id]
  }

  function Tick(c: Clock, stops: set<TimerId>): Clock {
    var t := c.now + 1;
    Clock(t, Settle(c.expiry, Due(c.expiry, t), t, c.settings, stops), c.settings)
  }

  // ----- runs -----

  datatype Call =
    | Schedule(id: TimerId, tv: Timeval, isPeriod: bool)
    | Cancel(id: TimerId)
    | Reset(id: TimerId)
    | Update(id: TimerId, tv: Timeval)
    | Advance(stops: set<TimerId>)

  /** The program schedules only timers that are not pending, and resets only timers scheduled before. */
  predicate Allowed(c: Clock, call: Call) {
    match call
    case Schedule(id, _, _) => id !in c.expiry
    case Reset(id) => id in c.settings
    case Update(id, _) => id in c.settings
    case _ => true
  }

  function Step(c: Clock, call: Call): Clock
    requires Allowed(c, call)
  {
    match call
    case Schedule(id, tv, isPeriod) =>
      if tv.sec >= TIMER_MAX_SECS then c else Arm(c, id, TimevalToTicks(tv), isPeriod)
    case Cancel(id) => Disarm(c, id)
    case Reset(id) => Arm(Disarm(c, id), id, c.settings[id].delay, c.settings[id].isPeriod)
    case Update(id, tv) => Arm(Disarm(c, id), id, TimevalToTicks(tv), c.settings[id].isPeriod)
    case Advance(stops) => Tick(c, stops)
  }

  predicate AllAllowed(c: Clock, calls: seq<Call>)
    decreases |calls|
  {
    calls == [] || (Allowed(c, calls[0]) && AllAllowed(Step(c, calls[0]), calls[1..]))
  }

  function Run(c: Clock, calls: seq<Call>): Clock
    requires AllAllowed(c, calls)
    decreases |calls|
  {
    if calls == [] then c else Run(Step(c, calls[0]), calls[1..])
  }

  /** Which timers fired, call by call. */
  function Log(c: Clock, calls: seq<Call>): (log: seq<set<TimerId>>)
    requires AllAllowed(c, calls)
    ensures |log| == |calls|
    decreases |calls|
  {
    if calls == [] then []
    else
      [if calls[0].Advance? then Due(c.expiry, c.now + 1) else {}] + Log(Step(c, calls[0]), calls[1..])
  }

  function Ticks(calls: seq<Call>): nat {
    if calls == [] then 0 else (if calls[0].Advance? then 1 else 0) + Ticks(calls[1..])
  }

  /** `calls` neither cancel nor reschedule `id`. */
  ghost predicate LeavesAlone(calls: seq<Call>, id: TimerId) {
    forall i :: 0 <= i < |calls| && !calls[i].Advance? ==> calls[i].id != id
  }

  ghost predicate NeverStops(calls: seq<Call>, id: TimerId) {
    forall i :: 0 <= i < |calls| && calls[i].Advance? ==> id !in calls[i].stops
  }

  lemma StepLeaves(c: Clock, call: Call, id: TimerId)
    requires Allowed(c, call) && id in c.expiry && !(call.Advance? && c.expiry[id] == c.now + 1)
    requires !call.Advance? ==> call.id != id
    ensures var c' := Step(c, call);
            && id in c'.expiry && c'.expiry[id] == c.expiry[id]
            && c'.now == c.now + (if call.Advance? then 1 else 0)
            && (id in c.settings ==> id in c'.settings && c'.settings[id] == c.settings[id])
  {
  }

  /** A pending timer left alone fires at the tick of its expiry, and at no tick before. */
  lemma {:induction false} FiresOnTime(c: Clock, calls: seq<Call>, id: TimerId, i: nat)
    requires AllAllowed(c, calls) && LeavesAlone(calls, id)
    requires id in c.expiry && c.expiry[id] > c.now
    requires i < |calls| && calls[i].Advance? && c.now + Ticks(calls[..i + 1]) <= c.expiry[id]
    ensures id in Log(c, calls)[i] <==> c.now + Ticks(calls[..i + 1]) == c.expiry[id]
    decreases |calls|
  {
    var first, rest := calls[0], calls[1..];
    assert calls[..i + 1][0] == first && calls[..i + 1][1..] == rest[..i];
    if i == 0 {
      assert Ticks(rest[..0]) == 0;
    } else {
      assert rest[..i] == rest[..i - 1 + 1];
      TicksLast(rest[..i]);
      StepLeaves(c, first, id);
      FiresOnTime(Step(c, first), rest, id, i - 1);
    }
  }

  lemma {:induction false} TicksLast(calls: seq<Call>)
    requires calls != [] && calls[|calls| - 1].Advance?
    ensures Ticks(calls) >= 1
    decreases |calls|
  {
    if |calls| > 1 { TicksLast(calls[1..]); }
  }

  /** Scheduling with a delay of d ticks runs the handler on exactly the d-th following tick. */
  lemma ScheduleExact(c: Clock, id: TimerId, tv: Timeval, isPeriod: bool, calls: seq<Call>, i: nat)
    requires id !in c.expiry && tv.sec < TIMER_MAX_SECS && 1 <= TimevalToTicks(tv) < TIMER_MAX_TICKS
    requires AllAllowed(Step(c, Schedule(id, tv, isPeriod)), calls) && LeavesAlone(calls, id)
    requires i < |calls| && calls[i].Advance? && Ticks(calls[..i + 1]) <= TimevalToTicks(tv)
    ensures id in Log(Step(c, Schedule(id, tv, isPeriod)), calls)[i] <==> Ticks(calls[..i + 1]) == TimevalToTicks(tv)
  {
    FiresOnTime(Step(c, Schedule(id, tv, isPeriod)), calls, id, i);
  }

  /** A periodic timer that is left alone fires exactly at the multiples of its interval, for ever. */
  lemma {:induction false} PeriodicNeverDrifts(c: Clock, calls: seq<Call>, id: TimerId, base: nat, k: nat, i: nat)
    requires AllAllowed(c, calls) && LeavesAlone(calls, id) && NeverStops(calls, id)
    requires id in c.expiry && id in c.settings && c.settings[id].isPeriod
    requires var p := c.settings[id].delay;
             p >= 1 && base + k * p <= c.now < c.expiry[id] == base + (k + 1) * p
    requires i < |calls| && calls[i].Advance?
    ensures id in Log(c, calls)[i] <==>
            (c.now + Ticks(calls[..i + 1]) - base) % c.settings[id].delay == 0
    decreases |calls|
  {
    var p := c.settings[id].delay;
    var first, rest := calls[0], calls[1..];
    assert calls[..i + 1][0] == first && calls[..i + 1][1..] == rest[..i];
    var c' := Step(c, first);
    var fires := first.Advance? && c.expiry[id] == c.now + 1;
    if fires {
      assert Rearms(c.settings, first.stops, id);
      assert id in c'.expiry && c'.expiry[id] == c.now + 1 + p;
      assert base + (k + 2) * p == base + (k + 1) * p + p;
    } else {
      StepLeaves(c, first, id);
    }
    if i == 0 {
      assert Ticks(rest[..0]) == 0;
      MultipleWithin(c.now + 1 - base, p, k);
    } else {
      assert rest[..i] == rest[..i - 1 + 1];
      PeriodicNeverDrifts(c', rest, id, base, if fires then k + 1 else k, i - 1);
    }
  }

  /** So a timer scheduled with interval p fires on exactly the ticks p, 2p, 3p, ... that follow. */
  lemma PeriodicExact(c: Clock, id: TimerId, tv: Timeval, calls: seq<Call>, i: nat)
    requires id !in c.expiry && tv.sec < TIMER_MAX_SECS && 1 <= TimevalToTicks(tv) < TIMER_MAX_TICKS
    requires AllAllowed(Step(c, Schedule(id, tv, true)), calls)
    requires LeavesAlone(calls, id) && NeverStops(calls, id) && i < |calls| && calls[i].Advance?
    ensures id in Log(Step(c, Schedule(id, tv, true)), calls)[i] <==>
            Ticks(calls[..i + 1]) % TimevalToTicks(tv) == 0
  {
    PeriodicNeverDrifts(Step(c, Schedule(id, tv, true)), calls, id, c.now, 0, i);
  }

  /** Between k and k+1 intervals, only the end is a multiple. */
  lemma MultipleWithin(x: int, p: nat, k: nat)
    requires p >= 1 && k * p < x <= (k + 1) * p
    ensures x % p == 0 <==> x == (k + 1) * p
  {
    var r := x - k * p;
    assert (k + 1) * p == k * p + p;
    if r < p {
      assert x == k * p + r;
      WheelMath.DivModUnique(x, p, k, r);
    } else {
      WheelMath.DivModUnique(x, p, k + 1, 0);
    }
  }
}
