/**
 Runs in which a timer is named: by a call between ticks, or by one handler that resets or updates it while it runs.
 From then on it fires as if it had been scheduled at that moment, but for the lap that may be lost on a carry tick.
 */
module TimerRequests {
  import opened Options
  import opened Sequences
  import opened TimerHandlers
  import opened TimerRuns
  import opened TimerSpec

  // ----- a timer that is not pending -----

  /** A timer that is not pending and that no one names never fires. */
  lemma {:induction false} NeverAcross(n: nat, clocks: seq<Clock>, deeds: seq<Deed>, log: seq<seq<TimerId>>,
                                       id: TimerId, i: nat)
    requires n > 0 && Trace(n, clocks, deeds, log) && LeftAlone(deeds, id) && Ready(Look(clocks[0], id))
    requires id !in clocks[0].expiry && i < |deeds|
    ensures id !in log[i] && id !in clocks[i].expiry && id !in clocks[i + 1].expiry
    ensures Ready(Look(clocks[i], id)) && Ready(Look(clocks[i + 1], id))
  {
    hide DeedTo, DeedAlone;
    if i > 0 { NeverAcross(n, clocks, deeds, log, id, i - 1); }
    assert DeedTo(n, clocks[i], deeds[i], log[i], clocks[i + 1]) && DeedAlone(deeds[i], id);
    DeedLook(n, clocks[i], deeds[i], log[i], clocks[i + 1], id);
  }

  lemma AloneTail(deeds: seq<Deed>, id: TimerId)
    requires deeds != [] && LeftAlone(deeds, id)
    ensures LeftAlone(deeds[1..], id) && DeedAlone(deeds[0], id)
  {
    hide DeedAlone;
    assert forall i :: 0 <= i < |deeds[1..]| ==> deeds[1..][i] == deeds[i + 1];
  }

  /** A one-shot timer, or one whose handler answers that it is to stop, fires for the last time. */
  lemma LastAcross(n: nat, clocks: seq<Clock>, deeds: seq<Deed>, log: seq<seq<TimerId>>, id: TimerId, i: nat)
    requires n > 0 && Trace(n, clocks, deeds, log) && LeftAlone(deeds, id) && Ready(Look(clocks[0], id))
    requires deeds != [] && deeds[0].Ticked? && Look(clocks[0], id).expiry == Some(clocks[0].now + 1)
    requires !clocks[0].settings[id].isPeriod || HandlerOf(deeds[0].hs, id).stop
    requires i < |deeds|
    ensures id in log[i] <==> i == 0
  {
    TraceShape(n, clocks, deeds, log);
    TraceTail(n, clocks, deeds, log);
    AloneTail(deeds, id);
    DeedLook(n, clocks[0], deeds[0], log[0], clocks[1], id);
    hide Trace, LeftAlone, DeedTo, DeedAlone;
    if i > 0 { NeverAcross(n, clocks[1..], deeds[1..], log[1..], id, i - 1); }
  }

  // ----- a timer that one request names -----

  /** Request j of the handler names the timer, and no other request does. */
  predicate AsksOnce(requests: seq<Request>, j: nat, id: TimerId) {
    && j < |requests| && requests[j].id == id
    && forall i :: 0 <= i < |requests| && i != j ==> requests[i].id != id
  }

  predicate ArmsAnew(r: Request) { r.Reset? || r.Update? }

  /** The delay that a reset or an update asks for. */
  function NewDelay(s: Seen, r: Request): Tick32
    requires ArmsAnew(r) && s.setting.Some?
  {
    if r.Reset? then s.setting.value.delay else TimevalToTicks(r.tv)
  }

  /** The timer after a reset or an update at time `s.now`, `lost` ticks early. */
  function Anew(s: Seen, p: Tick32, lost: nat): Seen
    requires s.setting.Some? && lost <= p
  {
    Seen(s.now, Some(s.now + p - lost), Some(Setting(p, s.setting.value.isPeriod)))
  }

  function Lost(p: nat, lap: nat): nat { if 0 < lap <= p then lap else 0 }

  predicate Usable(s: Seen, r: Request) {
    ArmsAnew(r) && s.setting.Some? && 1 <= NewDelay(s, r) < TIMER_MAX_TICKS
  }

  /** A reset arms the timer with its stored delay, an update with the new one; the period flag stays. */
  lemma AskAnew(c: Clock, r: Request, lap: nat)
    requires Usable(Look(c, r.id), r)
    ensures var s := Look(c, r.id);
            Look(Ask(c, r, lap), r.id) == Anew(s, NewDelay(s, r), Lost(NewDelay(s, r), lap))
  {
    hide TimevalToTicks;
  }

  lemma {:induction false} AskAllAnew(c: Clock, requests: seq<Request>, j: nat, lap: nat, id: TimerId)
    requires AsksOnce(requests, j, id) && Usable(Look(c, id), requests[j])
    ensures var s := Look(c, id);
            Look(AskAll(c, requests, lap), id) == Anew(s, NewDelay(s, requests[j]), Lost(NewDelay(s, requests[j]), lap))
  {
    var front, last := requests[..|requests| - 1], requests[|requests| - 1];
    hide Ask, Look, Anew, Lost, Usable, NewDelay;
    assert forall i :: 0 <= i < |front| ==> front[i] == requests[i];
    if j == |front| {
      AskAllOther(c, front, lap, id);
      AskAnew(AskAll(c, front, lap), last, lap);
    } else {
      AskAllAnew(c, front, j, lap, id);
      AskOther(AskAll(c, front, lap), last, lap, id);
    }
  }

  lemma FireAnew(c: Clock, x: TimerId, h: Handler, j: nat, lap: nat, id: TimerId)
    requires x != id && AsksOnce(h.requests, j, id) && Usable(Look(c, id), h.requests[j])
    ensures var s := Look(c, id);
            Look(Fire(c, x, h, lap), id) == Anew(s, NewDelay(s, h.requests[j]), Lost(NewDelay(s, h.requests[j]), lap))
  {
    assert Look(Disarm(c, x), id) == Look(c, id);
    hide AskAll, AsksOnce, Usable, NewDelay, Anew, Lost;
    AskAllAnew(Disarm(c, x), h.requests, j, lap, id);
  }

  /** Of all handlers only that of `x` names the timer, with request j. */
  ghost predicate OnlyAsker(hs: Handlers, x: TimerId, j: nat, id: TimerId) {
    && x in hs && x != id && AsksOnce(hs[x].requests, j, id)
    && forall y :: y in hs && y != x ==> AloneIn(hs[y].requests, id)
  }

  lemma OthersAlone(order: seq<TimerId>, hs: Handlers, x: TimerId, j: nat, id: TimerId)
    requires OnlyAsker(hs, x, j, id) && x !in order
    ensures AloneServed(order, hs, id)
  {
    forall i | 0 <= i < |order| ensures AloneIn(HandlerOf(hs, order[i]).requests, id) {
      assert order[i] in order;
    }
  }

  /** A part of a tick in which that handler runs. */
  lemma {:induction false} PartAnew(c: Clock, order: seq<TimerId>, hs: Handlers, lap: nat, x: TimerId, j: nat,
                                    id: TimerId)
    requires DueInTurn(c, order, hs, lap) && OnlyAsker(hs, x, j, id) && x in order
    requires Ready(Look(c, id)) && Usable(Look(c, id), hs[x].requests[j])
    ensures var s, r := Look(c, id), hs[x].requests[j];
            Look(FireAll(c, order, hs, lap), id) == Anew(s, NewDelay(s, r), Lost(NewDelay(s, r), lap))
  {
    ServedOnce(c, order, hs, lap);
    var front, last := order[..|order| - 1], order[|order| - 1];
    assert order == front + [last];
    var m := FireAll(c, front, hs, lap);
    assert FireAll(c, order, hs, lap) == Fire(m, last, HandlerOf(hs, last), lap);
    assert DueInTurn(c, front, hs, lap) && IsDue(m, last, lap);
    if last == x {
      hide *;
      LastUnique(front, last);
      OthersAlone(front, hs, x, j, id);
      AskerOf(hs, x, j, id);
      PartLook(c, front, hs, lap, id);
      RungKeeps(Look(c, id), Look(m, id), hs[x].requests[j], HandlerOf(hs, id).stop);
      FireAnew(m, x, hs[x], j, lap, id);
      AnewSame(Look(c, id), Look(m, id), hs[x].requests[j], lap);
    } else {
      hide *;
      PartAnew(c, front, hs, lap, x, j, id);
      NotDueAnew(Look(c, id), m, hs[x].requests[j], lap, id);
      AskerOf(hs, x, j, id);
      OtherHandler(hs, x, j, id, last);
      AnewReady(Look(c, id), Look(m, id), hs[x].requests[j], lap);
      FireLook(m, last, HandlerOf(hs, last), lap, id);
    }
  }

  lemma LastUnique(front: seq<TimerId>, last: TimerId)
    requires NoRepeat(front + [last])
    ensures last !in front && NoRepeat(front)
  {
    assert forall i :: 0 <= i < |front| ==> (front + [last])[i] == front[i];
    assert (front + [last])[|front|] == last;
  }

  lemma AskerOf(hs: Handlers, x: TimerId, j: nat, id: TimerId)
    requires OnlyAsker(hs, x, j, id)
    ensures x != id && x in hs && HandlerOf(hs, x) == hs[x] && AsksOnce(hs[x].requests, j, id)
  {
  }

  lemma OtherHandler(hs: Handlers, x: TimerId, j: nat, id: TimerId, y: TimerId)
    requires OnlyAsker(hs, x, j, id) && y != x
    ensures AloneIn(HandlerOf(hs, y).requests, id)
  {
  }

  lemma RungKeeps(s: Seen, t: Seen, r: Request, stop: bool)
    requires Usable(s, r) && (t == s || t == Rung(s, stop))
    ensures Usable(t, r)
  {
    hide TimevalToTicks;
  }

  lemma AnewSame(s: Seen, t: Seen, r: Request, lap: nat)
    requires Usable(s, r) && Usable(t, r) && t.now == s.now && t.setting == s.setting
    ensures Anew(t, NewDelay(t, r), Lost(NewDelay(t, r), lap)) == Anew(s, NewDelay(s, r), Lost(NewDelay(s, r), lap))
  {
    hide TimevalToTicks;
  }

  lemma AnewReady(s: Seen, t: Seen, r: Request, lap: nat)
    requires Usable(s, r) && t == Anew(s, NewDelay(s, r), Lost(NewDelay(s, r), lap))
    ensures Ready(t)
  {
    hide TimevalToTicks;
  }

  /** Once armed anew it is not due in the same part of the tick. */
  lemma NotDueAnew(s: Seen, m: Clock, r: Request, lap: nat, id: TimerId)
    requires Usable(s, r) && Look(m, id) == Anew(s, NewDelay(s, r), Lost(NewDelay(s, r), lap)) && s.now == m.now
    ensures !IsDue(m, id, lap) && Ready(Look(m, id))
  {
    hide TimevalToTicks;
  }

  /** In one part of a tick a timer that no handler served names is served if and only if it is due. */
  lemma PartServes(c: Clock, order: seq<TimerId>, hs: Handlers, lap: nat, m: Clock, id: TimerId)
    requires Part(c, order, hs, lap, m) && AloneServed(order, hs, id) && Ready(Look(c, id))
    ensures id in order <==> IsDue(c, id, lap)
    ensures Look(m, id) == if id in order then Rung(Look(c, id), HandlerOf(hs, id).stop) else Look(c, id)
  {
    hide DueInTurn, FireAll, AloneServed;
    PartLook(c, order, hs, lap, id);
    assert !IsDue(m, id, lap);
  }

  /** The lap that counts for the requests of the handler of `x`, which is due at the tick to come. */
  function LapOf(n: nat, c: Clock, x: TimerId): nat
    requires n > 0 && x in c.settings
  {
    if (c.now + 1) % n == 0 && c.settings[x].delay < n then n else 0
  }

  /** What the tick leaves of a timer that was armed anew in it. */
  function AfterAnew(s: Seen, p: Tick32, lap: nat, stop: bool): Seen
    requires s.setting.Some?
  {
    var a := Anew(s.(now := s.now + 1), p, Lost(p, lap));
    if p == lap then Rung(a, stop) else a
  }

  lemma AloneAsker(hs: Handlers, x: TimerId, order: seq<TimerId>)
    requires Alone(hs, x)
    ensures AloneServed(order, hs, x)
  {
  }

  /** The handler runs in the second part of the tick, or in the only one: no lap is lost. */
  lemma SecondAnew(b: Clock, first: seq<TimerId>, m: Clock, second: seq<TimerId>, d: Clock, hs: Handlers, lap: nat,
                   x: TimerId, j: nat, id: TimerId)
    requires Part(b, first, hs, lap, m) && Part(m, second, hs, 0, d) && OnlyAsker(hs, x, j, id)
    requires x !in first && x in second && Ready(Look(b, id)) && Usable(Look(b, id), hs[x].requests[j])
    ensures var s := Look(b, id); Look(d, id) == Anew(s, NewDelay(s, hs[x].requests[j]), 0)
  {
    var r := hs[x].requests[j];
    hide FireAll, DueInTurn, OnlyAsker;
    OthersAlone(first, hs, x, j, id);
    PartServes(b, first, hs, lap, m, id);
    hide *;
    RungKeeps(Look(b, id), Look(m, id), r, HandlerOf(hs, id).stop);
    StillReady(Look(b, id), Look(m, id), HandlerOf(hs, id).stop);
    SecondPart(m, second, d, hs, x, j, id);
    AnewSame(Look(b, id), Look(m, id), r, 0);
    NoneLost(NewDelay(Look(b, id), r), NewDelay(Look(m, id), r));
  }

  lemma NoneLost(p: Tick32, q: Tick32)
    ensures Lost(p, 0) == 0 == Lost(q, 0)
  {
  }

  lemma StillReady(s: Seen, t: Seen, stop: bool)
    requires Ready(s) && (t == s || t == Rung(s, stop))
    ensures Ready(t) && t.now == s.now && t.setting == s.setting
  {
  }

  lemma SecondPart(m: Clock, second: seq<TimerId>, d: Clock, hs: Handlers, x: TimerId, j: nat, id: TimerId)
    requires Part(m, second, hs, 0, d) && OnlyAsker(hs, x, j, id) && x in second
    requires Ready(Look(m, id)) && Usable(Look(m, id), hs[x].requests[j])
    ensures var s, r := Look(m, id), hs[x].requests[j]; Look(d, id) == Anew(s, NewDelay(s, r), Lost(NewDelay(s, r), 0))
  {
    hide FireAll, DueInTurn, OnlyAsker, Usable, NewDelay, Anew, Lost;
    PartAnew(m, second, hs, 0, x, j, id);
  }

  /** The handler runs in the first part of the tick. */
  lemma FirstAnew(b: Clock, first: seq<TimerId>, m: Clock, second: seq<TimerId>, d: Clock, hs: Handlers, lap: nat,
                  x: TimerId, j: nat, id: TimerId)
    requires Part(b, first, hs, lap, m) && Part(m, second, hs, 0, d) && OnlyAsker(hs, x, j, id)
    requires x in first && x !in second && Ready(Look(b, id)) && Usable(Look(b, id), hs[x].requests[j]) && b.now > 0
    ensures var s, stop := Look(b, id), HandlerOf(hs, id).stop;
            Look(d, id) == AfterAnew(s.(now := b.now - 1), NewDelay(s, hs[x].requests[j]), lap, stop)
  {
    var s, r := Look(b, id), hs[x].requests[j];
    var p := NewDelay(s, r);
    hide FireAll, DueInTurn, OnlyAsker, Usable, NewDelay;
    PartAnew(b, first, hs, lap, x, j, id);
    AnewReady(s, Look(m, id), r, lap);
    OthersAlone(second, hs, x, j, id);
    PartServes(m, second, hs, 0, d, id);
    DelayPositive(s, r);
  }

  lemma DelayPositive(s: Seen, r: Request)
    requires Usable(s, r)
    ensures 1 <= NewDelay(s, r)
  {
    hide TimevalToTicks;
  }

  /**
   In a tick with any handlers, where the handler of a timer that is due resets or updates another one and no one else
   names either: that one comes up its delay after the tick, whether it was pending or has just fired.  A lap is lost
   if the handler runs in the first part of a carry tick and the delay reaches the lap; a delay of exactly one lap
   makes it fire in the same tick.
   */
  lemma TickAnew(n: nat, c: Clock, hs: Handlers, order: seq<TimerId>, d: Clock, x: TimerId, j: nat, id: TimerId)
    requires n > 0 && TickOn(n, c, hs, order, d) && OnlyAsker(hs, x, j, id) && Alone(hs, x)
    requires Ready(Look(c, x)) && Look(c, x).expiry == Some(c.now + 1)
    requires Ready(Look(c, id)) && Usable(Look(c, id), hs[x].requests[j])
    ensures Look(d, id)
         == AfterAnew(Look(c, id), NewDelay(Look(c, id), hs[x].requests[j]), LapOf(n, c, x), HandlerOf(hs, id).stop)
  {
    var k, m := TickParts(n, c, hs, order, d);
    var b, lap, first, second := Begin(c), CarryLap(n, c.now + 1), order[..k], order[k..];
    assert Look(b, id) == Look(c, id).(now := c.now + 1) && Look(b, x) == Look(c, x).(now := c.now + 1);
    assert IsDue(b, x, lap) <==> lap == 0 || LapOf(n, c, x) == n;
    assert Usable(Look(b, id), hs[x].requests[j])
        && NewDelay(Look(b, id), hs[x].requests[j]) == NewDelay(Look(c, id), hs[x].requests[j]);
    AloneAsker(hs, x, first);
    AloneAsker(hs, x, second);
    hide FireAll, DueInTurn, OnlyAsker, AloneServed, Part, TickOn, Usable, Alone, NewDelay, TimevalToTicks;
    PartServes(b, first, hs, lap, m, x);
    StillReady(Look(b, x), Look(m, x), HandlerOf(hs, x).stop);
    PartServes(m, second, hs, 0, d, x);
    if x in first {
      FirstAnew(b, first, m, second, d, hs, lap, x, j, id);
    } else {
      SecondAnew(b, first, m, second, d, hs, lap, x, j, id);
    }
  }

  // ----- runs -----

  /** Once the first deed has armed a timer for tick `e`, and no one names it afterwards, it fires in that tick. */
  lemma FiresLater(n: nat, clocks: seq<Clock>, deeds: seq<Deed>, log: seq<seq<TimerId>>, id: TimerId, e: nat, i: nat)
    requires n > 0 && deeds != [] && Trace(n, clocks, deeds, log) && LeftAlone(deeds[1..], id)
    requires Ready(Look(clocks[1], id)) && Look(clocks[1], id).expiry == Some(e) && clocks[1].now < e
    requires 0 < i < |deeds| && deeds[i].Ticked? && clocks[i].now < e
    ensures id in log[i] <==> clocks[i].now + 1 == e
    ensures AtMostOnce(log[i], id)
  {
    TraceShape(n, clocks, deeds, log);
    TraceTail(n, clocks, deeds, log);
    hide Trace, LeftAlone, Ready, AtMostOnce;
    FiresAcross(n, clocks[1..], deeds[1..], log[1..], id, i - 1);
  }

  /** A reset or an update between ticks: the timer fires its delay after the call. */
  lemma CallAcross(n: nat, clocks: seq<Clock>, deeds: seq<Deed>, log: seq<seq<TimerId>>, i: nat)
    requires n > 0 && deeds != [] && Trace(n, clocks, deeds, log) && deeds[0].Asked?
    requires Usable(Look(clocks[0], deeds[0].request.id), deeds[0].request)
    requires LeftAlone(deeds[1..], deeds[0].request.id) && 0 < i < |deeds| && deeds[i].Ticked?
    ensures var r := deeds[0].request;
            var e := clocks[0].now + NewDelay(Look(clocks[0], r.id), r);
            clocks[i].now < e ==> (r.id in log[i] <==> clocks[i].now + 1 == e)
  {
    var r := deeds[0].request;
    var e := clocks[0].now + NewDelay(Look(clocks[0], r.id), r);
    TraceTail(n, clocks, deeds, log);
    assert clocks[1] == Ask(clocks[0], r, 0);
    hide Trace, LeftAlone, Ask, TimevalToTicks;
    AskAnew(clocks[0], r, 0);
    if clocks[i].now < e { FiresLater(n, clocks, deeds, log, r.id, e, i); }
  }

  /** A reset or an update by a handler: the timer fires its delay after that tick, less a lap that may be lost. */
  lemma HandlerAcross(n: nat, clocks: seq<Clock>, deeds: seq<Deed>, log: seq<seq<TimerId>>, x: TimerId, j: nat,
                      id: TimerId, i: nat)
    requires n > 0 && deeds != [] && Trace(n, clocks, deeds, log) && deeds[0].Ticked?
    requires OnlyAsker(deeds[0].hs, x, j, id) && Alone(deeds[0].hs, x)
    requires Ready(Look(clocks[0], x)) && Look(clocks[0], x).expiry == Some(clocks[0].now + 1)
    requires Ready(Look(clocks[0], id)) && Usable(Look(clocks[0], id), deeds[0].hs[x].requests[j])
    requires LeftAlone(deeds[1..], id) && 0 < i < |deeds| && deeds[i].Ticked?
    ensures var c, p := clocks[0], NewDelay(Look(clocks[0], id), deeds[0].hs[x].requests[j]);
            var lost := if (c.now + 1) % n == 0 && c.settings[x].delay < n <= p then n else 0;
            var e := c.now + 1 + p - lost;
            p != lost && clocks[i].now < e ==> (id in log[i] <==> clocks[i].now + 1 == e)
  {
    var c, p := clocks[0], NewDelay(Look(clocks[0], id), deeds[0].hs[x].requests[j]);
    var lost := if (c.now + 1) % n == 0 && c.settings[x].delay < n <= p then n else 0;
    var e := c.now + 1 + p - lost;
    TraceTail(n, clocks, deeds, log);
    assert Lost(p, LapOf(n, c, x)) == lost;
    DelayPositive(Look(clocks[0], id), deeds[0].hs[x].requests[j]);
    DelayBelow(Look(clocks[0], id), deeds[0].hs[x].requests[j]);
    hide Trace, LeftAlone, TickOn, OnlyAsker, Alone, NewDelay, Usable, TimevalToTicks;
    TickAnew(n, c, deeds[0].hs, log[0], clocks[1], x, j, id);
    if p != lost && clocks[i].now < e { FiresLater(n, clocks, deeds, log, id, e, i); }
  }

  lemma DelayBelow(s: Seen, r: Request)
    requires Usable(s, r)
    ensures NewDelay(s, r) < TIMER_MAX_TICKS
  {
    hide TimevalToTicks;
  }
}
