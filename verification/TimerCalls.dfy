/**
 What single calls of the timer interface promise about all that follows: when a timer fires after a reset, an update
 or a refused call, and that it never does after it was cancelled, stopped or done.
 */
module TimerCalls {
  import opened TimerSpec

  // ----- times and ticks -----

  /** A time is that many whole milliseconds, unless there are too many for 32 bits or it is negative. */
  lemma TicksOfTime(tv: Timeval)
    requires 0 <= tv.usec < 1000000
    ensures var micros, ticks := tv.sec * 1000000 + tv.usec, TimevalToTicks(tv);
            if 0 <= micros < 4294967295000 then ticks * 1000 <= micros < ticks * 1000 + 1000
            else ticks == 4294967295
  {
    assert tv.usec * TIMER_HZ / 1000000 == tv.usec / 1000;
  }

  // ----- timers that are not pending -----

  lemma StepAbsent(c: Clock, call: Call, id: TimerId)
    requires Allowed(c, call) && id !in c.expiry && (!call.Advance? ==> call.id != id)
    ensures id !in Step(c, call).expiry
  {
  }

  /** A timer that is not pending and is left alone never fires. */
  lemma {:induction false} Silent(c: Clock, calls: seq<Call>, id: TimerId, i: nat)
    requires AllAllowed(c, calls) && LeavesAlone(calls, id) && id !in c.expiry && i < |calls|
    ensures id !in Log(c, calls)[i]
    decreases |calls|
  {
    if i > 0 {
      hide Step, Allowed, Due;
      StepAbsent(c, calls[0], id);
      Silent(Step(c, calls[0]), calls[1..], id, i - 1);
    }
  }

  /** A cancelled timer never fires again by itself. */
  lemma CancelSilent(c: Clock, id: TimerId, calls: seq<Call>, i: nat)
    requires AllAllowed(Step(c, Cancel(id)), calls) && LeavesAlone(calls, id) && i < |calls|
    ensures id !in Log(Step(c, Cancel(id)), calls)[i]
  {
    Silent(Step(c, Cancel(id)), calls, id, i);
  }

  /** A timer fires for the last time if it is not periodic, or if its handler answers that it is to stop. */
  lemma FiresLast(c: Clock, calls: seq<Call>, id: TimerId, i: nat)
    requires AllAllowed(c, calls) && LeavesAlone(calls, id) && calls != [] && calls[0].Advance? && i < |calls|
    requires id in c.expiry && c.expiry[id] == c.now + 1 && id in c.settings
    requires !c.settings[id].isPeriod || id in calls[0].stops
    ensures id in Log(c, calls)[i] <==> i == 0
  {
    if i > 0 {
      assert id !in Step(c, calls[0]).expiry;
      Silent(Step(c, calls[0]), calls[1..], id, i - 1);
    }
  }

  /** A one-shot timer left alone fires in the tick of its expiry, and in no other. */
  lemma {:induction false} FiresOnlyOnce(c: Clock, calls: seq<Call>, id: TimerId, i: nat)
    requires AllAllowed(c, calls) && LeavesAlone(calls, id) && i < |calls| && calls[i].Advance?
    requires id in c.expiry && c.expiry[id] > c.now && id in c.settings && !c.settings[id].isPeriod
    ensures id in Log(c, calls)[i] <==> c.now + Ticks(calls[..i + 1]) == c.expiry[id]
    decreases |calls|
  {
    var first, rest := calls[0], calls[1..];
    assert calls[..i + 1][0] == first && calls[..i + 1][1..] == rest[..i];
    if i == 0 { assert Ticks(rest[..0]) == 0; }
    if first.Advance? && c.expiry[id] == c.now + 1 {
      FiresLast(c, calls, id, i);
      if i > 0 {
        assert rest[..i][i - 1] == calls[i];
        TicksLast(rest[..i]);
      }
    } else if i > 0 {
      assert rest[..i] == rest[..i - 1 + 1];
      StepLeaves(c, first, id);
      FiresOnlyOnce(Step(c, first), rest, id, i - 1);
    }
  }

  // ----- timers armed by a call -----

  /** The call arms the timer `d` ticks from the time of the call, with this period flag. */
  predicate Arms(c: Clock, call: Call, id: TimerId, d: nat, isPeriod: bool) {
    && Allowed(c, call) && Step(c, call).now == c.now
    && id in Step(c, call).expiry && Step(c, call).expiry[id] == c.now + d
    && id in Step(c, call).settings && Step(c, call).settings[id].delay == d
    && Step(c, call).settings[id].isPeriod == isPeriod
  }

  /** Whatever arms a timer for `d` ticks makes it fire on the d-th tick after it, or on every d-th one. */
  lemma ArmedFires(c: Clock, call: Call, id: TimerId, d: nat, isPeriod: bool, calls: seq<Call>, i: nat)
    requires Arms(c, call, id, d, isPeriod) && d >= 1 && AllAllowed(Step(c, call), calls) && LeavesAlone(calls, id)
    requires i < |calls| && calls[i].Advance?
    ensures !isPeriod ==> (id in Log(Step(c, call), calls)[i] <==> Ticks(calls[..i + 1]) == d)
    ensures isPeriod && NeverStops(calls, id) ==>
              (id in Log(Step(c, call), calls)[i] <==> Ticks(calls[..i + 1]) % d == 0)
    ensures Ticks(calls[..i + 1]) <= d ==> (id in Log(Step(c, call), calls)[i] <==> Ticks(calls[..i + 1]) == d)
  {
    var s := Step(c, call);
    hide Step, Allowed;
    if isPeriod && NeverStops(calls, id) { FiresEvery(s, calls, id, d, i); }
    hide *;
    if !isPeriod { FiresOnlyOnce(s, calls, id, i); }
    if Ticks(calls[..i + 1]) <= d { FiresOnTime(s, calls, id, i); }
  }

  lemma FiresEvery(c: Clock, calls: seq<Call>, id: TimerId, d: nat, i: nat)
    requires AllAllowed(c, calls) && LeavesAlone(calls, id) && NeverStops(calls, id)
    requires id in c.expiry && id in c.settings && c.settings[id].isPeriod
    requires d >= 1 && c.settings[id].delay == d && c.expiry[id] == c.now + d
    requires i < |calls| && calls[i].Advance?
    ensures id in Log(c, calls)[i] <==> Ticks(calls[..i + 1]) % d == 0
  {
    assert 0 * d == 0 && (0 + 1) * d == d;
    hide *;
    PeriodicNeverDrifts(c, calls, id, c.now, 0, i);
  }

  /** A reset timer fires its stored delay after the reset, and keeps delay and period flag. */
  lemma ResetExact(c: Clock, id: TimerId, calls: seq<Call>, i: nat)
    requires id in c.settings && 1 <= c.settings[id].delay < TIMER_MAX_TICKS
    requires AllAllowed(Step(c, Reset(id)), calls) && LeavesAlone(calls, id) && i < |calls| && calls[i].Advance?
    ensures var d, t := c.settings[id].delay, Ticks(calls[..i + 1]);
            && Arms(c, Reset(id), id, d, c.settings[id].isPeriod)
            && (t <= d ==> (id in Log(Step(c, Reset(id)), calls)[i] <==> t == d))
            && (!c.settings[id].isPeriod ==> (id in Log(Step(c, Reset(id)), calls)[i] <==> t == d))
            && (c.settings[id].isPeriod && NeverStops(calls, id) ==>
                  (id in Log(Step(c, Reset(id)), calls)[i] <==> t % d == 0))
  {
    ArmedFires(c, Reset(id), id, c.settings[id].delay, c.settings[id].isPeriod, calls, i);
  }

  /** An updated timer fires its new delay after the update, and keeps its period flag. */
  lemma UpdateExact(c: Clock, id: TimerId, tv: Timeval, calls: seq<Call>, i: nat)
    requires id in c.settings && 1 <= TimevalToTicks(tv) < TIMER_MAX_TICKS
    requires AllAllowed(Step(c, Update(id, tv)), calls) && LeavesAlone(calls, id) && i < |calls| && calls[i].Advance?
    ensures var d, t := TimevalToTicks(tv), Ticks(calls[..i + 1]);
            && Arms(c, Update(id, tv), id, d, c.settings[id].isPeriod)
            && (t <= d ==> (id in Log(Step(c, Update(id, tv)), calls)[i] <==> t == d))
            && (!c.settings[id].isPeriod ==> (id in Log(Step(c, Update(id, tv)), calls)[i] <==> t == d))
            && (c.settings[id].isPeriod && NeverStops(calls, id) ==>
                  (id in Log(Step(c, Update(id, tv)), calls)[i] <==> t % d == 0))
  {
    hide TimevalToTicks;
    ArmedFires(c, Update(id, tv), id, TimevalToTicks(tv), c.settings[id].isPeriod, calls, i);
  }

  /** A delay below one tick counts as one tick. */
  lemma ShortestDelay(c: Clock, id: TimerId, tv: Timeval, isPeriod: bool)
    requires id !in c.expiry && 0 <= tv.sec * 1000000 + tv.usec < 1000 && 0 <= tv.usec < 1000000
    ensures Arms(c, Schedule(id, tv, isPeriod), id, 1, isPeriod)
  {
    TicksOfTime(tv);
  }

  /** Any other time of fewer than 4294967 whole seconds is accepted, in whole milliseconds. */
  lemma AcceptedDelay(c: Clock, id: TimerId, tv: Timeval, isPeriod: bool)
    requires id !in c.expiry && 0 <= tv.sec < 4294967 && 0 <= tv.usec < 1000000
    requires 1000 <= tv.sec * 1000000 + tv.usec
    ensures Arms(c, Schedule(id, tv, isPeriod), id, (tv.sec * 1000000 + tv.usec) / 1000, isPeriod)
  {
    TicksOfTime(tv);
    hide TimevalToTicks;
  }

  /** A delay of 2^32-1 ticks or more, or a negative one, arms nothing. */
  lemma RefusedDelay(c: Clock, id: TimerId, tv: Timeval, isPeriod: bool)
    requires id !in c.expiry && 0 <= tv.usec < 1000000
    requires tv.sec * 1000000 + tv.usec < 0 || 4294967295000 <= tv.sec * 1000000 + tv.usec
    ensures Step(c, Schedule(id, tv, isPeriod)).expiry == c.expiry
    ensures Step(c, Schedule(id, tv, isPeriod)).now == c.now
  {
    TicksOfTime(tv);
  }
}
