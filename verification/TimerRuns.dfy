/**
 Runs of calls and ticks whose handlers call the timer interface: what becomes of one timer that no call and no
 handler names, while everything else may be started, cancelled, reset and updated.
 */
module TimerRuns {
  import opened Options
  import opened Sequences
  import opened TimerHandlers
  import opened TimerSpec
  import WheelMath

  /** A call between ticks, or a tick. */
  datatype Deed = Asked(request: Request) | Ticked(hs: Handlers)

  /** On a carry tick of a wheel of `n` slots a lap can be lost. */
  function CarryLap(n: nat, t: nat): nat
    requires n > 0
  {
    if t % n == 0 then n else 0
  }

  /** The tick from `c` to `d` on a wheel of `n` slots serves `order`. */
  ghost predicate TickOn(n: nat, c: Clock, hs: Handlers, order: seq<TimerId>, d: Clock)
    requires n > 0
  {
    exists k :: 0 <= k <= |order| && LapTick(c, hs, order[..k], order[k..], d, CarryLap(n, c.now + 1))
  }

  lemma TickParts(n: nat, c: Clock, hs: Handlers, order: seq<TimerId>, d: Clock) returns (k: nat, m: Clock)
    requires n > 0 && TickOn(n, c, hs, order, d)
    ensures k <= |order| && Part(Begin(c), order[..k], hs, CarryLap(n, c.now + 1), m) && Part(m, order[k..], hs, 0, d)
  {
    hide FireAll, DueInTurn, Part;
    k :| 0 <= k <= |order| && LapTick(c, hs, order[..k], order[k..], d, CarryLap(n, c.now + 1));
    m := FireAll(Begin(c), order[..k], hs, CarryLap(n, c.now + 1));
  }

  ghost predicate DeedTo(n: nat, c: Clock, deed: Deed, order: seq<TimerId>, d: Clock)
    requires n > 0
  {
    match deed
    case Asked(r) => order == [] && d == Ask(c, r, 0)
    case Ticked(hs) => TickOn(n, c, hs, order, d)
  }

  /** The run from `clocks[0]`: deed i leads to `clocks[i + 1]` and serves `log[i]`. */
  ghost predicate Trace(n: nat, clocks: seq<Clock>, deeds: seq<Deed>, log: seq<seq<TimerId>>)
    requires n > 0
  {
    && |clocks| == |deeds| + 1 && |log| == |deeds|
    && forall i :: 0 <= i < |deeds| ==> DeedTo(n, clocks[i], deeds[i], log[i], clocks[i + 1])
  }

  // ----- one timer -----

  /** All that a clock says about one timer. */
  datatype Seen = Seen(now: nat, expiry: Option<nat>, setting: Option<Setting>)

  function Look(c: Clock, id: TimerId): Seen {
    Seen(c.now, if id in c.expiry then Some(c.expiry[id]) else None,
         if id in c.settings then Some(c.settings[id]) else None)
  }

  /** It fires: a periodic timer stays armed unless its handler answers that it is to stop. */
  function Rung(s: Seen, stop: bool): Seen
    requires s.setting.Some?
  {
    s.(expiry := if s.setting.value.isPeriod && !stop then Some(s.now + s.setting.value.delay) else None)
  }

  /** No handler names the timer. */
  predicate Alone(hs: Handlers, id: TimerId) { forall x :: x in hs ==> AloneIn(hs[x].requests, id) }

  predicate AloneIn(requests: seq<Request>, id: TimerId) {
    forall i :: 0 <= i < |requests| ==> requests[i].id != id
  }

  lemma AskOther(c: Clock, r: Request, lap: nat, id: TimerId)
    requires r.id != id
    ensures Look(Ask(c, r, lap), id) == Look(c, id)
  {
    hide TimevalToTicks;
  }

  lemma {:induction false} AskAllOther(c: Clock, requests: seq<Request>, lap: nat, id: TimerId)
    requires AloneIn(requests, id)
    ensures Look(AskAll(c, requests, lap), id) == Look(c, id)
  {
    if requests != [] {
      var front, last := requests[..|requests| - 1], requests[|requests| - 1];
      AskAllOther(c, front, lap, id);
      AskOther(AskAll(c, front, lap), last, lap, id);
      hide Ask, Look;
    }
  }

  lemma FireLook(c: Clock, x: TimerId, h: Handler, lap: nat, id: TimerId)
    requires AloneIn(h.requests, id) && id in c.settings && 1 <= c.settings[id].delay < TIMER_MAX_TICKS
    ensures Look(Fire(c, x, h, lap), id) == if x == id then Rung(Look(c, id), h.stop) else Look(c, id)
  {
    AskAllOther(Disarm(c, x), h.requests, lap, id);
    hide AskAll;
  }

  /** No handler served names the timer. */
  predicate AloneServed(order: seq<TimerId>, hs: Handlers, id: TimerId) {
    forall i :: 0 <= i < |order| ==> AloneIn(HandlerOf(hs, order[i]).requests, id)
  }

  lemma AloneAll(order: seq<TimerId>, hs: Handlers, id: TimerId)
    requires Alone(hs, id)
    ensures AloneServed(order, hs, id)
  {
  }

  /** In one part of a tick: served once and rung, or left as it was. */
  lemma {:induction false} PartLook(c: Clock, order: seq<TimerId>, hs: Handlers, lap: nat, id: TimerId)
    requires DueInTurn(c, order, hs, lap) && AloneServed(order, hs, id)
    requires id in c.settings && 1 <= c.settings[id].delay < TIMER_MAX_TICKS
    ensures NoRepeat(order) && (id in order ==> IsDue(c, id, lap))
    ensures Look(FireAll(c, order, hs, lap), id)
         == if id in order then Rung(Look(c, id), HandlerOf(hs, id).stop) else Look(c, id)
  {
    ServedOnce(c, order, hs, lap);
    if order != [] {
      hide Fire, IsDue;
      var front, last := order[..|order| - 1], order[|order| - 1];
      assert forall i :: 0 <= i < |front| ==> front[i] == order[i];
      PartLook(c, front, hs, lap, id);
      assert order == front + [last];
      assert order[|order| - 1] == last && AloneIn(HandlerOf(hs, last).requests, id);
      FireLook(FireAll(c, front, hs, lap), last, HandlerOf(hs, last), lap, id);
    }
  }

  /** What a tick makes of the timer. */
  function Next(s: Seen, stop: bool): Seen
    requires s.setting.Some?
  {
    var t := s.(now := s.now + 1);
    if s.expiry == Some(s.now + 1) then Rung(t, stop) else t
  }

  predicate Ready(s: Seen) { s.setting.Some? && 1 <= s.setting.value.delay < TIMER_MAX_TICKS }

  lemma LapLook(c: Clock, hs: Handlers, first: seq<TimerId>, second: seq<TimerId>, d: Clock, lap: nat, id: TimerId)
    requires LapTick(c, hs, first, second, d, lap) && Alone(hs, id) && Ready(Look(c, id))
    ensures Look(d, id) == Next(Look(c, id), HandlerOf(hs, id).stop)
    ensures id in first || id in second <==> Look(c, id).expiry == Some(c.now + 1)
    ensures NoRepeat(first) && NoRepeat(second) && !(id in first && id in second)
  {
    var m := FireAll(Begin(c), first, hs, lap);
    hide FireAll, DueInTurn, Alone, NoRepeat;
    AloneAll(first, hs, id);
    AloneAll(second, hs, id);
    hide AloneServed;
    PartLook(Begin(c), first, hs, lap, id);
    PartLook(m, second, hs, 0, id);
    assert !IsDue(m, id, lap) && !IsDue(d, id, 0);
  }

  /** The timer is not served twice. */
  predicate AtMostOnce(order: seq<TimerId>, id: TimerId) {
    forall i, j :: 0 <= i < j < |order| ==> !(order[i] == id && order[j] == id)
  }

  lemma JoinOnce(first: seq<TimerId>, second: seq<TimerId>, id: TimerId)
    requires NoRepeat(first) && NoRepeat(second) && !(id in first && id in second)
    ensures AtMostOnce(first + second, id) && (id in first + second <==> id in first || id in second)
  {
    forall i, j | 0 <= i < j < |first + second| && i < |first| <= j
      ensures !((first + second)[i] == id && (first + second)[j] == id)
    {
      assert first[i] in first && second[j - |first|] in second;
    }
  }

  lemma Rejoined<T>(s: seq<T>, k: nat)
    requires k <= |s|
    ensures s[..k] + s[k..] == s
  {
  }

  /** On a tick with or without a carry: a timer left alone is served, once, if and only if the tick is its expiry. */
  lemma TickLook(n: nat, c: Clock, hs: Handlers, order: seq<TimerId>, d: Clock, id: TimerId)
    requires n > 0 && TickOn(n, c, hs, order, d) && Alone(hs, id) && Ready(Look(c, id))
    ensures Look(d, id) == Next(Look(c, id), HandlerOf(hs, id).stop)
    ensures id in order <==> Look(c, id).expiry == Some(c.now + 1)
    ensures AtMostOnce(order, id)
  {
    var k :| 0 <= k <= |order| && LapTick(c, hs, order[..k], order[k..], d, CarryLap(n, c.now + 1));
    hide *;
    LapLook(c, hs, order[..k], order[k..], d, CarryLap(n, c.now + 1), id);
    JoinOnce(order[..k], order[k..], id);
    Rejoined(order, k);
  }

  // ----- runs -----

  /** No call and no handler of the run names the timer. */
  ghost predicate LeftAlone(deeds: seq<Deed>, id: TimerId) {
    forall i :: 0 <= i < |deeds| ==> DeedAlone(deeds[i], id)
  }

  predicate DeedAlone(deed: Deed, id: TimerId) {
    match deed
    case Asked(r) => r.id != id
    case Ticked(hs) => Alone(hs, id)
  }

  function After(s: Seen, deed: Deed, id: TimerId): Seen
    requires s.setting.Some?
  {
    if deed.Ticked? then Next(s, HandlerOf(deed.hs, id).stop) else s
  }

  lemma DeedLook(n: nat, c: Clock, deed: Deed, order: seq<TimerId>, d: Clock, id: TimerId)
    requires n > 0 && DeedTo(n, c, deed, order, d) && DeedAlone(deed, id) && Ready(Look(c, id))
    ensures Look(d, id) == After(Look(c, id), deed, id)
    ensures id in order <==> deed.Ticked? && Look(c, id).expiry == Some(c.now + 1)
    ensures AtMostOnce(order, id)
  {
    match deed
    case Asked(_) =>
    case Ticked(hs) => hide TickOn, Alone; TickLook(n, c, hs, order, d, id);
  }

  /** A pending timer named by no one fires in the tick of its expiry, and in no tick before. */
  lemma FiresAcross(n: nat, clocks: seq<Clock>, deeds: seq<Deed>, log: seq<seq<TimerId>>, id: TimerId, i: nat)
    requires n > 0 && Trace(n, clocks, deeds, log) && LeftAlone(deeds, id) && Ready(Look(clocks[0], id))
    requires id in clocks[0].expiry && clocks[0].expiry[id] > clocks[0].now
    requires i < |deeds| && deeds[i].Ticked? && clocks[i].now < clocks[0].expiry[id]
    ensures id in log[i] <==> clocks[i].now + 1 == clocks[0].expiry[id]
    ensures AtMostOnce(log[i], id)
  {
    WaitsAcross(n, clocks, deeds, log, id, i);
    hide *;
    DeedLook(n, clocks[i], deeds[i], log[i], clocks[i + 1], id);
  }

  lemma {:induction false} WaitsAcross(n: nat, clocks: seq<Clock>, deeds: seq<Deed>, log: seq<seq<TimerId>>,
                                       id: TimerId, i: nat)
    requires n > 0 && Trace(n, clocks, deeds, log) && LeftAlone(deeds, id) && Ready(Look(clocks[0], id))
    requires id in clocks[0].expiry && clocks[0].expiry[id] > clocks[0].now
    requires i < |deeds|
    ensures DeedTo(n, clocks[i], deeds[i], log[i], clocks[i + 1]) && DeedAlone(deeds[i], id)
    ensures clocks[i].now < clocks[0].expiry[id] ==>
              Look(clocks[i], id) == Look(clocks[0], id).(now := clocks[i].now)
  {
    hide DeedTo, DeedAlone;
    if i > 0 {
      WaitsAcross(n, clocks, deeds, log, id, i - 1);
      ClockGoesOn(n, clocks[i - 1], deeds[i - 1], log[i - 1], clocks[i]);
      if clocks[i].now < clocks[0].expiry[id] {
        DeedLook(n, clocks[i - 1], deeds[i - 1], log[i - 1], clocks[i], id);
      }
    }
  }

  lemma ClockGoesOn(n: nat, c: Clock, deed: Deed, order: seq<TimerId>, d: Clock)
    requires n > 0 && DeedTo(n, c, deed, order, d)
    ensures d.now == c.now + if deed.Ticked? then 1 else 0
  {
    match deed
    case Asked(r) =>
      AskKeeps(c, r, 0, 0);
    case Ticked(hs) =>
      var k, m := TickParts(n, c, hs, order, d);
      hide FireAll, DueInTurn;
      ServedOnce(Begin(c), order[..k], hs, CarryLap(n, c.now + 1));
      ServedOnce(m, order[k..], hs, 0);
  }

  /** Its handler never answers that it is to stop. */
  ghost predicate KeepsGoing(deeds: seq<Deed>, id: TimerId) {
    forall i :: 0 <= i < |deeds| && deeds[i].Ticked? ==> !HandlerOf(deeds[i].hs, id).stop
  }

  /** In the cycle that began with `e`: k intervals on, and the one before is over. */
  ghost predicate InCycle(s: Seen, e: nat, p: Tick32, k: nat) {
    && s.setting == Some(Setting(p, true)) && s.expiry == Some(e + k * p) && s.now < e + k * p
    && (k > 0 ==> e + (k - 1) * p <= s.now)
  }

  lemma CycleStep(s: Seen, e: nat, p: Tick32, k: nat) returns (k': nat)
    requires 1 <= p < TIMER_MAX_TICKS && InCycle(s, e, p, k)
    ensures InCycle(Next(s, false), e, p, k')
    ensures s.expiry == Some(s.now + 1) <==> s.now + 1 >= e && (s.now + 1 - e) % p == 0
  {
    k' := if s.now + 1 == e + k * p then k + 1 else k;
    assert (k + 1) * p == k * p + p;
    if k > 0 {
      assert (k - 1) * p + p == k * p;
      MultipleWithin(s.now + 1 - e, p, k - 1);
    } else if s.now + 1 == e {
      WheelMath.DivModUnique(0, p, 0, 0);
    }
  }

  lemma {:induction false} CycleAcross(n: nat, clocks: seq<Clock>, deeds: seq<Deed>, log: seq<seq<TimerId>>,
                                       id: TimerId, i: nat) returns (k: nat)
    requires n > 0 && Trace(n, clocks, deeds, log) && LeftAlone(deeds, id) && KeepsGoing(deeds, id)
    requires Ready(Look(clocks[0], id)) && clocks[0].settings[id].isPeriod
    requires id in clocks[0].expiry && clocks[0].expiry[id] > clocks[0].now
    requires i < |deeds|
    ensures DeedTo(n, clocks[i], deeds[i], log[i], clocks[i + 1]) && DeedAlone(deeds[i], id)
    ensures InCycle(Look(clocks[i], id), clocks[0].expiry[id], clocks[0].settings[id].delay, k)
  {
    hide DeedTo, DeedAlone;
    if i == 0 {
      k := 0;
    } else {
      k := CycleAcross(n, clocks, deeds, log, id, i - 1);
      DeedLook(n, clocks[i - 1], deeds[i - 1], log[i - 1], clocks[i], id);
      if deeds[i - 1].Ticked? {
        hide InCycle, Next;
        k := CycleStep(Look(clocks[i - 1], id), clocks[0].expiry[id], clocks[0].settings[id].delay, k);
      }
    }
  }

  /** A periodic timer named by no one fires at its expiry and at every interval after it, and in no other tick. */
  lemma PeriodicAcross(n: nat, clocks: seq<Clock>, deeds: seq<Deed>, log: seq<seq<TimerId>>, id: TimerId, i: nat)
    requires n > 0 && Trace(n, clocks, deeds, log) && LeftAlone(deeds, id) && KeepsGoing(deeds, id)
    requires Ready(Look(clocks[0], id)) && clocks[0].settings[id].isPeriod
    requires id in clocks[0].expiry && clocks[0].expiry[id] > clocks[0].now
    requires i < |deeds| && deeds[i].Ticked?
    ensures var e, p, t := clocks[0].expiry[id], clocks[0].settings[id].delay, clocks[i].now + 1;
            id in log[i] <==> t >= e && (t - e) % p == 0
    ensures AtMostOnce(log[i], id)
  {
    var k := CycleAcross(n, clocks, deeds, log, id, i);
    var e, p := clocks[0].expiry[id], clocks[0].settings[id].delay;
    hide DeedTo, DeedAlone, InCycle, Trace, LeftAlone, KeepsGoing;
    DeedLook(n, clocks[i], deeds[i], log[i], clocks[i + 1], id);
    var _ := CycleStep(Look(clocks[i], id), e, p, k);
  }

  // ----- runs whose handlers only answer -----

  function DeedOf(call: Call): Deed {
    match call
    case Schedule(id, tv, isPeriod) => Asked(Start(id, tv, isPeriod))
    case Cancel(id) => Asked(Stop(id))
    case Reset(id) => Asked(Request.Reset(id))
    case Update(id, tv) => Asked(Request.Update(id, tv))
    case Advance(stops) => Ticked(Answers(stops))
  }

  ghost predicate AllStored(c: Clock) { forall id :: id in c.expiry ==> Stored(c, id) }

  lemma AdvanceStep(n: nat, c: Clock, stops: set<TimerId>, order: seq<TimerId>, d: Clock)
    requires n > 1 && AllStored(c) && TickOn(n, c, Answers(stops), order, d)
    ensures d == Tick(c, stops) && AllStored(d) && NoRepeat(order) && Elements(order) == Due(c.expiry, c.now + 1)
  {
    var hs, lap := Answers(stops), CarryLap(n, c.now + 1);
    var k :| 0 <= k <= |order| && LapTick(c, hs, order[..k], order[k..], d, lap);
    AnswersPlain(stops, c.settings, lap);
    hide LapTick, AllShort, TickTo;
    Rejoined(order, k);
    ExactTick(c, hs, order[..k], order[k..], d, lap);
    TickPlain(c, stops, order, d);
  }

  lemma CallStep(n: nat, c: Clock, call: Call, order: seq<TimerId>, d: Clock)
    requires n > 1 && Allowed(c, call) && AllStored(c) && DeedTo(n, c, DeedOf(call), order, d)
    ensures d == Step(c, call) && AllStored(d) && NoRepeat(order)
    ensures Elements(order) == if call.Advance? then Due(c.expiry, c.now + 1) else {}
  {
    if call.Advance? {
      hide *;
      AdvanceStep(n, c, call.stops, order, d);
    } else {
      hide TimevalToTicks;
    }
  }

  function DeedsOf(calls: seq<Call>): seq<Deed> {
    if calls == [] then [] else [DeedOf(calls[0])] + DeedsOf(calls[1..])
  }

  lemma TraceTail(n: nat, clocks: seq<Clock>, deeds: seq<Deed>, log: seq<seq<TimerId>>)
    requires n > 0 && deeds != [] && Trace(n, clocks, deeds, log)
    ensures Trace(n, clocks[1..], deeds[1..], log[1..])
    ensures DeedTo(n, clocks[0], deeds[0], log[0], clocks[1])
  {
    hide DeedTo;
    var cs, ds, ls := clocks[1..], deeds[1..], log[1..];
    forall i | 0 <= i < |ds| ensures DeedTo(n, cs[i], ds[i], ls[i], cs[i + 1]) {
      assert cs[i] == clocks[i + 1] && cs[i + 1] == clocks[i + 1 + 1];
      assert DeedTo(n, clocks[i + 1], deeds[i + 1], log[i + 1], clocks[i + 1 + 1]);
    }
  }

  /** What is served, each timer once, is what the specification lists. */
  ghost predicate Fires(log: seq<seq<TimerId>>, spec: seq<set<TimerId>>) {
    |log| == |spec| && forall i :: 0 <= i < |log| ==> NoRepeat(log[i]) && Elements(log[i]) == spec[i]
  }

  lemma FiresCons(order: seq<TimerId>, log: seq<seq<TimerId>>, due: set<TimerId>, spec: seq<set<TimerId>>)
    requires NoRepeat(order) && Elements(order) == due && Fires(log, spec)
    ensures Fires([order] + log, [due] + spec)
  {
  }

  lemma TraceShape(n: nat, clocks: seq<Clock>, deeds: seq<Deed>, log: seq<seq<TimerId>>)
    requires n > 0 && Trace(n, clocks, deeds, log)
    ensures |clocks| == |deeds| + 1 && |log| == |deeds|
  {
  }

  /** Such a run fires, call by call, exactly the timers the specification lists, each once. */
  lemma {:induction false} PlainRun(n: nat, clocks: seq<Clock>, calls: seq<Call>, log: seq<seq<TimerId>>)
    requires n > 1 && Trace(n, clocks, DeedsOf(calls), log)
    requires AllStored(clocks[0]) && AllAllowed(clocks[0], calls)
    ensures Fires(log, Log(clocks[0], calls))
    ensures |clocks| == |DeedsOf(calls)| + 1 && clocks[|clocks| - 1] == Run(clocks[0], calls)
    decreases |calls|
  {
    if calls != [] {
      hide Fires, NoRepeat, Elements, Step, DeedTo, AllStored, Due, Allowed, Trace;
      TraceShape(n, clocks, DeedsOf(calls), log);
      TraceTail(n, clocks, DeedsOf(calls), log);
      CallStep(n, clocks[0], calls[0], log[0], clocks[1]);
      PlainRun(n, clocks[1..], calls[1..], log[1..]);
      FiresCons(log[0], log[1..], if calls[0].Advance? then Due(clocks[0].expiry, clocks[0].now + 1) else {},
                Log(clocks[1], calls[1..]));
      assert log == [log[0]] + log[1..];
    }
  }

  /** The state before the first call. */
  const START := Clock(0, map[], map[])

  /** Some run from `start` serves `log`. */
  ghost predicate Runs(n: nat, start: Clock, deeds: seq<Deed>, log: seq<seq<TimerId>>)
    requires n > 0
  {
    exists clocks: seq<Clock> :: Trace(n, clocks, deeds, log) && clocks[0] == start
  }

  lemma TraceRuns(n: nat, clocks: seq<Clock>, deeds: seq<Deed>, log: seq<seq<TimerId>>)
    requires n > 1 && Trace(n, clocks, deeds, log) && clocks[0] == START
    ensures Runs(n, START, deeds, log)
    ensures forall calls: seq<Call> :: deeds == DeedsOf(calls) && AllAllowed(START, calls) ==>
              Fires(log, Log(START, calls))
  {
    assert AllStored(clocks[0]);
    hide Trace, DeedsOf, AllAllowed, Fires, Log, Run;
    forall calls: seq<Call> | deeds == DeedsOf(calls) && AllAllowed(START, calls)
      ensures Fires(log, Log(START, calls))
    {
      PlainRun(n, clocks, calls, log);
    }
  }
}
