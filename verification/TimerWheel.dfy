/**
 Ticks and calls of the two-level timing wheel: scheduling, expiring and dropping timers, the draining of a slot,
 and the scheduler object.  Every step acts on the specified clock as `TimerSpec` and `TimerHandlers` say.
 */
module TimerWheel {
  import opened Sequences
  import opened WheelMath
  import opened TimerSpec
  import opened TimerHandlers
  import opened TimerRuns
  import opened WheelState
  import opened Words

  /** The specification state that a wheel stands for. */
  function ViewOf(st: State): Clock {
    Clock(st.turns.t0, st.expiry, SettingsOf(st.timers))
  }

  // ----- scheduling and cancelling, in any phase of a tick -----

  /** A step that leaves clocks alone, keeps the invariant, and puts nothing under a cursor. */
  ghost predicate Quiet(a: State, b: State) {
    && Inv(a) && Inv(b) && InRange(a) && InRange(b)
    && b.n == a.n && b.cursors == a.cursors && b.turns == a.turns
    && Waiting(b, 0) == Waiting(a, 0) && Waiting(b, 1) == Waiting(a, 1)
  }

  /** A record filled in before linking. */
  function Configured(st: State, id: TimerId, delay: Tick32, isPeriod: bool): State {
    var t := if id in st.timers then st.timers[id].(delay := delay, isPeriod := isPeriod)
             else Timer(delay, 0, isPeriod, Link.Unlinked);
    st.(timers := st.timers[id := t])
  }

  lemma ConfiguredQuiet(st: State, id: TimerId, delay: Tick32, isPeriod: bool)
    requires Inv(st) && !IsPending(st, id)
    ensures var r := Configured(st, id, delay, isPeriod);
            && Quiet(st, r) && id in r.timers && !IsPending(r, id) && r.timers[id].delay == delay
            && SettingsOf(r.timers) == SettingsOf(st.timers)[id := Setting(delay, isPeriod)]
  {
    InvRange(st);
    var t := Configured(st, id, delay, isPeriod).timers[id];
    assert t.link == Link.Unlinked && id !in st.expiry;
    ListsResetting(st.n, st.slots, st.timers, id, t);
    ArmedResetting(st.n, st.turns, st.timers, st.turn, st.expiry, id, t);
    hide Lists, Armed, SizeOk, CursorsAt;
  }

  /** `__ndf_timer_sched` on a timer that is not pending. */
  function Scheduled(st: State, id: TimerId, ticks: Tick32, isPeriod: bool): State
    requires InRange(st) && st.n >= 2
  {
    var c := Configured(st, id, if ticks == 0 then 1 else ticks, isPeriod);
    if ticks >= TIMER_MAX_TICKS then c
    else
      var ch := PlaceChoice(st.n, st.turns, c.timers[id]);
      LinkAt(c, id, ch.record, ch.turn, ch.expiry)
  }

  /** In any phase of a tick, scheduling is quiet, and its expiry is what `ArmedFor` says. */
  lemma ScheduledQuiet(st: State, id: TimerId, ticks: Tick32, isPeriod: bool)
    requires Inv(st) && !IsPending(st, id)
    ensures InRange(st) && st.n >= 2
    ensures var r := Scheduled(st, id, ticks, isPeriod);
            var d: Tick32 := if ticks == 0 then 1 else ticks;
            && Quiet(st, r) && SettingsOf(r.timers) == SettingsOf(st.timers)[id := Setting(d, isPeriod)]
            && r.expiry == if ticks >= TIMER_MAX_TICKS then st.expiry
                           else st.expiry[id := ArmedFor(st.n, st.turns.t0, st.turns.t1, st.turns.t0 % st.n, d)]
  {
    InvRange(st);
    var d: Tick32 := if ticks == 0 then 1 else ticks;
    var c := Configured(st, id, d, isPeriod);
    ConfiguredQuiet(st, id, d, isPeriod);
    assert SizeOk(st.n);
    hide Lists, Armed, SizeOk, CursorsAt, PlacedRecord, OnTurn, SettingsOf;
    if ticks < TIMER_MAX_TICKS {
      PlaceChoiceGood(st.n, st.turns, c.timers[id]);
      LinkKeeps(c, id, PlaceChoice(st.n, st.turns, c.timers[id]));
    }
  }

  /** A timer armed now with a delay of at least `lap` ticks comes up that many ticks early. */
  predicate OffBy(st: State, lap: nat) {
    st.n >= 2 && (lap == 0 || lap == st.n) && st.turns.t0 == st.turns.t1 * st.n + lap + st.turns.t0 % st.n
  }

  /** In every phase linking a timer means arming it in the specification. */
  lemma ArmMeaning(st: State, id: TimerId, ticks: Tick32, isPeriod: bool, lap: nat)
    requires Inv(st) && !IsPending(st, id) && OffBy(st, lap)
    ensures InRange(st) && st.n >= 2
    ensures var r := Scheduled(st, id, ticks, isPeriod);
            Quiet(st, r) && ViewOf(r) == ArmLap(ViewOf(st), id, ticks, isPeriod, lap)
  {
    hide Inv, SettingsOf, Scheduled, Quiet;
    ScheduledQuiet(st, id, ticks, isPeriod);
    ArmedNow(st, if ticks == 0 then 1 else ticks, lap);
    hide ArmedFor, OffBy;
    QuietTurns(st, Scheduled(st, id, ticks, isPeriod));
  }

  lemma ArmedNow(st: State, d: nat, lap: nat)
    requires OffBy(st, lap)
    ensures st.n >= 2 && lap != 1
    ensures ArmedFor(st.n, st.turns.t0, st.turns.t1, st.turns.t0 % st.n, d)
         == if 0 < lap <= d then st.turns.t0 + d - lap else st.turns.t0 + d
  {
  }

  lemma QuietTurns(a: State, b: State)
    requires Quiet(a, b)
    ensures b.turns == a.turns
  {
    hide Inv, Waiting;
  }

  /** A step within a phase: the counters stand still, and neither slot under a cursor gets longer. */
  ghost predicate Served(a: State, b: State) {
    && Inv(a) && Inv(b) && InRange(a) && InRange(b)
    && b.n == a.n && b.cursors == a.cursors && b.turns == a.turns
    && Waiting(b, 0) <= Waiting(a, 0) && Waiting(b, 1) <= Waiting(a, 1)
  }

  lemma UnlinkShorter(st: State, id: TimerId)
    requires InRange(st) && id in st.timers && InSlot(st.n, st.timers[id].link)
    requires var k := st.timers[id].link; |Without(st.slots[k.level][k.slot], id)| <= |st.slots[k.level][k.slot]|
    ensures InRange(Unlink(st, id))
    ensures forall level :: 0 <= level < LEVEL_DEPTH ==> Waiting(Unlink(st, id), level) <= Waiting(st, level)
  {
  }

  lemma UnlinkView(st: State, id: TimerId)
    requires InRange(st) && id in st.timers && InSlot(st.n, st.timers[id].link)
    ensures ViewOf(Unlink(st, id)) == Disarm(ViewOf(st), id) && !IsPending(Unlink(st, id), id)
    ensures var u := Unlink(st, id); u.n == st.n && u.cursors == st.cursors && u.turns == st.turns
  {
    SettingsKept(st.timers, id, st.timers[id].(link := Link.Unlinked));
    hide SettingsOf;
  }

  lemma UnlinkServes(st: State, id: TimerId)
    requires Inv(st) && IsPending(st, id)
    ensures InRange(st) && InSlot(st.n, st.timers[id].link)
    ensures Served(st, Unlink(st, id)) && ViewOf(Unlink(st, id)) == Disarm(ViewOf(st), id)
    ensures !IsPending(Unlink(st, id), id)
  {
    InvRange(st);
    ListsDelete(st.n, st.slots, st.timers, id);
    hide *;
    UnlinkInv(st, id);
    UnlinkShorter(st, id);
    UnlinkView(st, id);
    ServedFrom(st, Unlink(st, id));
  }

  lemma ServedFrom(a: State, b: State)
    requires Inv(a) && Inv(b) && InRange(a) && InRange(b) && b.n == a.n && b.cursors == a.cursors && b.turns == a.turns
    requires forall level :: 0 <= level < LEVEL_DEPTH ==> Waiting(b, level) <= Waiting(a, level)
    ensures Served(a, b)
  {
    hide Inv;
  }

  lemma CancelMeaning(st: State, id: TimerId)
    requires Inv(st)
    ensures InRange(st)
    ensures if IsPending(st, id) then
              && InSlot(st.n, st.timers[id].link)
              && Served(st, Unlink(st, id)) && ViewOf(Unlink(st, id)) == Disarm(ViewOf(st), id)
              && !IsPending(Unlink(st, id), id)
            else ViewOf(st) == Disarm(ViewOf(st), id)
  {
    InvRange(st);
    hide Inv, Served, Unlink;
    if IsPending(st, id) {
      UnlinkServes(st, id);
    } else {
      assert id !in st.expiry;
      assert st.expiry - {id} == st.expiry;
    }
  }

  lemma ServedTwice(a: State, b: State, c: State)
    requires Served(a, b) && Served(b, c)
    ensures Served(a, c)
  {
    hide Inv, Waiting;
  }

  lemma QuietServes(a: State, b: State)
    requires Quiet(a, b)
    ensures Served(a, b)
  {
    hide Inv, Waiting;
  }

  // ----- dropping -----

  /** A step that takes one timer out of the slot under the cursor of `level`. */
  ghost predicate Takes(a: State, b: State, level: nat)
    requires level < LEVEL_DEPTH
  {
    && Inv(a) && Inv(b) && InRange(a) && InRange(b)
    && b.n == a.n && b.cursors == a.cursors && b.turns == a.turns
    && Waiting(b, level) == Waiting(a, level) - 1 && SettingsOf(b.timers) == SettingsOf(a.timers)
  }

  lemma UnlinkTakes(st: State, id: TimerId, level: nat)
    requires Inv(st) && InRange(st) && level < LEVEL_DEPTH && IsPending(st, id)
    requires st.timers[id].link == Linked(level, st.cursors[level])
    ensures InSlot(st.n, st.timers[id].link) && Takes(st, Unlink(st, id), level)
    ensures !IsPending(Unlink(st, id), id) && Unlink(st, id).expiry == st.expiry - {id}
    ensures Unlink(st, id).timers[id].delay == st.timers[id].delay
  {
    InvRange(st);
    UnlinkInv(st, id);
    UnlinkWaiting(st, id, level);
    SettingsKept(st.timers, id, st.timers[id].(link := Link.Unlinked));
  }

  lemma PendingDelay(st: State, id: TimerId)
    requires Inv(st) && IsPending(st, id)
    ensures 1 <= st.timers[id].delay < TIMER_MAX_TICKS
  {
  }

  lemma ExpiredUnlink(st: State, id: TimerId, e: nat)
    requires InRange(st) && id in st.timers && InSlot(st.n, st.timers[id].link)
    ensures var u := Unlink(st, id);
            && u.n == st.n && u.turns == st.turns
            && SettingsOf(u.timers)[id := Setting(st.timers[id].delay, st.timers[id].isPeriod)] == SettingsOf(u.timers)
            && u.expiry[id := e] == st.expiry[id := e]
  {
    SettingsSame(Unlink(st, id).timers, id);
  }

  lemma TakesThenQuiet(a: State, b: State, c: State, level: nat)
    requires level < LEVEL_DEPTH && Takes(a, b, level) && Quiet(b, c) && SettingsOf(c.timers) == SettingsOf(b.timers)
    ensures Takes(a, c, level)
  {
    hide Inv, Waiting, SettingsOf;
  }

  /** A level-1 timer whose turn has come but whose remainder has not run out drops to a lower level. */
  function Dropped(st: State, id: TimerId): State
    requires InRange(st) && st.n >= 2 && id in st.timers && InSlot(st.n, st.timers[id].link) && id in st.expiry
  {
    var u := Unlink(st, id);
    var c := DropChoice(st.n, st.turns, u.timers[id], st.expiry[id]);
    LinkAt(u, id, c.record, c.turn, c.expiry)
  }

  lemma DroppedTakes(st: State, id: TimerId)
    requires Inv(st) && InRange(st) && IsPending(st, id) && st.timers[id].left > 0
    requires st.timers[id].link == Linked(1, st.cursors[1])
    requires id in st.turn && st.turn[id] == st.turns.t1 && st.turns.t0 == st.turns.t1 * st.n
    ensures InSlot(st.n, st.timers[id].link) && st.n >= 2 && id in st.expiry
    ensures Takes(st, Dropped(st, id), 1) && Dropped(st, id).expiry == st.expiry
  {
    InvRange(st);
    UnlinkTakes(st, id, 1);
    var u, t, e := Unlink(st, id), st.timers[id], st.expiry[id];
    var c := DropChoice(st.n, st.turns, u.timers[id], e);
    DropChoiceGood(st.n, st.turns, t, st.turn[id], e);
    LinkOfUnlinked(st.n, st.turns, t, e);
    ExpiredUnlink(st, id, e);
    var r := Dropped(st, id);
    assert r == LinkAt(u, id, c.record, c.turn, c.expiry) && c.expiry == e && r.expiry == u.expiry[id := e];
    assert GoodChoice(st.n, st.turns, u.timers[id], c);
    assert id in u.timers && st.expiry[id := e] == st.expiry && u.n == st.n && InRange(u) && Inv(u);
    assert r.n == u.n && r.cursors == u.cursors && r.turns == u.turns;
    hide *;
    LinkKeeps(u, id, c);
    QuietFrom(u, r);
    TakesThenQuiet(st, u, r, 1);
  }

  lemma QuietFrom(a: State, b: State)
    requires Inv(a) && Inv(b) && InRange(a) && InRange(b) && b.n == a.n && b.cursors == a.cursors && b.turns == a.turns
    requires forall level :: 0 <= level < LEVEL_DEPTH ==> Waiting(b, level) == Waiting(a, level)
    ensures Quiet(a, b)
  {
  }

  /** Unlinking first does not change where a timer drops. */
  lemma LinkOfUnlinked(n: nat, ts: Turns, t: Timer, e: nat)
    requires n >= 2
    ensures DropChoice(n, ts, t.(link := Link.Unlinked), e) == DropChoice(n, ts, t, e)
  {
  }

  // ----- draining a slot -----

  /** The counters while the slot under the cursor of `level` is drained: level 1 has not moved before its turn. */
  ghost predicate Phase(st: State, level: nat) {
    && st.n >= 2 && st.turns.draining == level
    && (level == 0 ==>
          st.turns.t0 == st.turns.t1 * st.n + if st.turns.t0 % st.n == 0 then st.n else st.turns.t0 % st.n)
    && (level == 1 ==> st.turns.t0 == st.turns.t1 * st.n && st.turns.t0 % st.n == 0)
  }

  /** Between ticks. */
  ghost predicate Between(st: State) {
    && Inv(st) && st.turns.draining == LEVEL_DEPTH
    && st.turns.t0 == st.turns.t1 * st.n + st.turns.t0 % st.n
  }

  /** A timer in the slot under the cursor of `level` is on its turn. */
  lemma CurrentTurn(st: State, level: nat, id: TimerId)
    requires Inv(st) && InRange(st) && level < LEVEL_DEPTH && Phase(st, level)
    requires id in st.slots[level][st.cursors[level]]
    ensures IsPending(st, id) && id in st.expiry && id in st.turn && InSlot(st.n, st.timers[id].link)
    ensures st.timers[id].link == Linked(level, st.cursors[level])
    ensures st.turn[id] == if level == 0 then st.turns.t0 else st.turns.t1
    ensures st.expiry[id] == st.turns.t0 + st.timers[id].left
    ensures level == 0 ==> st.timers[id].left == 0
    ensures level == 0 && st.timers[id].delay >= st.n ==> st.turns.t0 % st.n != 0
  {
    assert SlotLists(st.timers, level, st.cursors[level], st.slots[level][st.cursors[level]]);
    assert OnTurn(st.n, st.turns, st.timers[id], st.turn[id], st.expiry[id]);
    SameSlot(if level == 0 then st.turns.t0 else st.turns.t1, st.turn[id], st.n);
  }

  /** A timer armed again while it expires comes up exactly its delay later, on every tick. */
  lemma RearmExact(st: State, level: nat, id: TimerId)
    requires Inv(st) && InRange(st) && level < LEVEL_DEPTH && Phase(st, level)
    requires id in st.slots[level][st.cursors[level]]
    ensures id in st.timers
    ensures ArmedFor(st.n, st.turns.t0, st.turns.t1, st.turns.t0 % st.n, st.timers[id].delay)
         == st.turns.t0 + st.timers[id].delay
  {
    CurrentTurn(st, level, id);
  }

  /** The lap lost while the slot under the cursor of `level` is drained. */
  function LapAt(st: State, level: nat): nat
    requires st.n > 0
  {
    if level == 0 then CarryLap(st.n, st.turns.t0) else 0
  }

  lemma PhaseLap(st: State, level: nat)
    requires level < LEVEL_DEPTH && Phase(st, level)
    ensures st.n >= 2 && OffBy(st, LapAt(st, level))
  {
  }

  /**
   A handler that starts another timer while level 0 is drained on a carry tick gets the delay it asked for if and
   only if that is below the wheel size; a longer one comes out a whole lap early.
   */
  lemma ScheduledOnCarry(st: State, id: TimerId, ticks: Tick32, isPeriod: bool)
    requires Inv(st) && Phase(st, 0) && st.turns.t0 % st.n == 0 && !IsPending(st, id)
    requires 1 <= ticks < TIMER_MAX_TICKS
    ensures InRange(st) && id in Scheduled(st, id, ticks, isPeriod).expiry
    ensures var e := Scheduled(st, id, ticks, isPeriod).expiry[id];
            && (e == st.turns.t0 + ticks <==> ticks < st.n)
            && (ticks >= st.n ==> e == st.turns.t0 + ticks - st.n)
  {
    ScheduledQuiet(st, id, ticks, isPeriod);
    MulSucc(st.turns.t1, st.n);
    ArmedOnCarry(st.n, st.turns.t0, st.turns.t1, ticks);
  }

  /** An empty current slot means that nothing is on turn any more. */
  lemma DrainedClosed(st: State, level: nat)
    requires Inv(st) && InRange(st) && level < LEVEL_DEPTH && Phase(st, level) && Waiting(st, level) == 0
    ensures Inv(st.(turns := st.turns.(draining := LEVEL_DEPTH)))
  {
    var ts := st.turns.(draining := LEVEL_DEPTH);
    forall id | id in st.timers && st.timers[id].link.Linked?
      ensures OnTurn(st.n, ts, st.timers[id], st.turn[id], st.expiry[id])
    {
      assert OnTurn(st.n, st.turns, st.timers[id], st.turn[id], st.expiry[id]);
      assert Listed(st.n, st.slots, id, st.timers[id].link);
    }
  }

  /** One more turn of level 0. */
  function Advanced(st: State): State
    requires st.n >= 2
  {
    var ts := Turns(st.turns.t0 + 1, st.turns.t1, 0);
    st.(turns := ts, cursors := [ts.t0 % st.n, ts.t1 % st.n])
  }

  lemma AdvancedPhase(st: State)
    requires Between(st)
    ensures st.n >= 2 && Inv(Advanced(st)) && Phase(Advanced(st), 0)
  {
    var r := Advanced(st);
    NextSlot(st.turns.t0, st.n);
    ArmedTurns(st.n, st.turns, r.turns, st.timers, st.turn, st.expiry);
    hide Lists, Armed;
  }

  /** One more turn of level 1, on a carry. */
  function Carried(st: State): State
    requires st.n >= 2
  {
    var ts := Turns(st.turns.t0, st.turns.t1 + 1, 1);
    st.(turns := ts, cursors := [ts.t0 % st.n, ts.t1 % st.n])
  }

  lemma CarriedPhase(st: State)
    requires Inv(st) && st.n >= 2 && st.turns.draining == LEVEL_DEPTH
    requires st.turns.t0 % st.n == 0 && st.turns.t0 == st.turns.t1 * st.n + st.n
    ensures Inv(Carried(st)) && Phase(Carried(st), 1)
  {
    MulSucc(st.turns.t1, st.n);
    ArmedTurns(st.n, st.turns, Carried(st).turns, st.timers, st.turn, st.expiry);
    hide Lists, Armed;
  }

  lemma LaterTurn(n: nat, ts: Turns, t: Timer, turn: nat, e: nat)
    requires n >= 2 && OnTurn(n, ts, t, turn, e) && t.link.Linked? && ts.draining == LEVEL_DEPTH
    requires ts.t0 == ts.t1 * n + ts.t0 % n
    ensures e > ts.t0
  {
    DivMod(ts.t0, n);
    if t.link.level == 1 {
      MulMono(turn, ts.t1 + 1, n);
      MulSucc(ts.t1, n);
    }
  }

  /** Between ticks every pending timer lies in the future. */
  lemma PendingLater(st: State)
    requires Between(st)
    ensures forall id :: id in st.expiry ==> st.expiry[id] > st.turns.t0
  {
    hide Lists, OnTurn;
    forall id | id in st.expiry ensures st.expiry[id] > st.turns.t0 {
      LaterTurn(st.n, st.turns, st.timers[id], st.turn[id], st.expiry[id]);
    }
  }

  /** Delays of pending timers, as the specification stores them. */
  lemma PendingStored(st: State)
    requires Inv(st)
    ensures forall id :: id in st.expiry ==> Stored(ViewOf(st), id)
  {
    hide Lists;
    forall id | id in st.expiry ensures Stored(ViewOf(st), id) {
      PendingDelay(st, id);
    }
  }

  // ----- a tick on the wheel and in the specification -----

  /** Since this part of the tick began at `c`, exactly the timers `fired` have been served, each on its turn. */
  predicate Ticking(c: Clock, st: State, fired: seq<TimerId>, hs: Handlers, lap: nat) {
    DueInTurn(c, fired, hs, lap) && ViewOf(st) == FireAll(c, fired, hs, lap)
  }

  lemma TickingStep(c: Clock, a: State, b: State, fired: seq<TimerId>, hs: Handlers, lap: nat, id: TimerId)
    requires Ticking(c, a, fired, hs, lap) && IsDue(ViewOf(a), id, lap)
    requires ViewOf(b) == Fire(ViewOf(a), id, HandlerOf(hs, id), lap)
    ensures Ticking(c, b, fired + [id], hs, lap)
  {
    assert (fired + [id])[..|fired|] == fired;
    hide Fire;
  }

  /** A timer in the slot being drained with nothing left is due. */
  lemma HeadDue(st: State, level: nat, id: TimerId)
    requires Inv(st) && InRange(st) && level < LEVEL_DEPTH && Phase(st, level)
    requires id in st.slots[level][st.cursors[level]] && id in st.timers && st.timers[id].left == 0
    ensures IsPending(st, id) && st.timers[id].link == Linked(level, st.cursors[level]) && st.n >= 2
    ensures IsDue(ViewOf(st), id, LapAt(st, level))
  {
    CurrentTurn(st, level, id);
    hide Inv;
  }

  /** When the slot is empty, nothing is due in this part of the tick. */
  lemma DrainedDue(st: State, level: nat)
    requires Inv(st) && InRange(st) && level < LEVEL_DEPTH && Phase(st, level) && Waiting(st, level) == 0
    ensures st.n >= 2 && forall id :: !IsDue(ViewOf(st), id, LapAt(st, level))
  {
    forall id ensures !IsDue(ViewOf(st), id, LapAt(st, level)) {
      if id in st.expiry {
        assert OnTurn(st.n, st.turns, st.timers[id], st.turn[id], st.expiry[id]);
        assert Listed(st.n, st.slots, id, st.timers[id].link);
        MulSucc(st.turns.t1, st.n);
        if st.turn[id] > st.turns.t1 { MulMono(st.turn[id], st.turns.t1 + 1, st.n); }
      }
    }
  }

  /** Unlinking the head of the slot being drained. */
  lemma HeadUnlinked(st: State, level: nat, id: TimerId)
    requires Inv(st) && InRange(st) && level < LEVEL_DEPTH && IsPending(st, id)
    requires st.timers[id].link == Linked(level, st.cursors[level])
    ensures InSlot(st.n, st.timers[id].link) && Served(st, Unlink(st, id))
    ensures Waiting(Unlink(st, id), level) < Waiting(st, level)
    ensures ViewOf(Unlink(st, id)) == Disarm(ViewOf(st), id) && !IsPending(Unlink(st, id), id)
  {
    CancelMeaning(st, id);
    UnlinkWaiting(st, id, level);
    hide Inv, Waiting;
  }

  lemma WrapSum(a: nat, b: nat)
    ensures Wrap32(Wrap32(a) + b) == Wrap32(a + b)
  {
    ModAdd(a, b, TIMER_MAX_TICKS + 1);
  }

  /** What the two cursors read as after `now` ticks: the wheels' range, in 32 bits. */
  function ClockReading(n: nat, now: nat): Tick32
    requires n > 0
  {
    TwoDigits(now, n);
    Wrap32(now % (n * n))
  }

  /** The time after `now` ticks. */
  function Elapsed(now: nat): Timeval { Timeval(now / TIMER_HZ, now % TIMER_HZ * 1000) }

  /** The reading is the elapsed time if and only if 32 bits have not run out. */
  lemma ReadingExact(n: nat, now: nat)
    requires SizeOk(n)
    ensures TicksToTimeval(ClockReading(n, now)) == Elapsed(now) <==> now <= TIMER_MAX_TICKS
    ensures now <= TIMER_MAX_TICKS ==> ClockReading(n, now) == now
  {
    if now <= TIMER_MAX_TICKS { SmallMod(now, n * n); }
    hide Wrap32;
    ReadingTime(ClockReading(n, now), now);
  }

  lemma SmallMod(x: nat, m: nat)
    requires x < m
    ensures x % m == x
  {
  }

  lemma ReadingTime(t: Tick32, now: nat)
    ensures TicksToTimeval(t) == Elapsed(now) <==> t == now
  {
    assert TicksToTimeval(t) == Elapsed(t);
    DivMod(t, TIMER_HZ);
    DivMod(now, TIMER_HZ);
  }

  /** The two cursors, read as digits. */
  lemma CursorDigits(st: State)
    requires Inv(st) && st.turns.t0 == st.turns.t1 * st.n + st.turns.t0 % st.n
    ensures |st.cursors| == LEVEL_DEPTH && st.n >= 2 && 0 <= st.cursors[1] * st.n
    ensures Wrap32(st.cursors[1] * st.n + st.cursors[0]) == ClockReading(st.n, st.turns.t0)
  {
    hide Lists, Armed, Wrap32;
    DivMod(st.turns.t0, st.n);
    DivMod(st.turns.t1, st.n);
    DivModUnique(st.turns.t0, st.n, st.turns.t1, st.turns.t0 % st.n);
    TwoDigits(st.turns.t0, st.n);
    MulMono(st.turns.t1 % st.n, 0, st.n);
  }

  lemma DropExpiry(n: nat, ts: Turns, t: Timer, e: nat)
    requires n >= 2
    ensures DropChoice(n, ts, t, e).expiry == e
  {
  }

  lemma NotPending(st: State, id: TimerId)
    requires Between(st) && id !in st.expiry
    ensures !IsPending(st, id)
  {
    InvRange(st);
  }

  // ----- the levels of one tick -----

  lemma DropHead(b: State, level: nat, id: TimerId)
    requires Inv(b) && InRange(b) && level < LEVEL_DEPTH && Phase(b, level)
    requires id in b.slots[level][b.cursors[level]] && id in b.timers && b.timers[id].left > 0
    ensures b.timers[id].left <= 2 * b.n - 2
    ensures InSlot(b.n, b.timers[id].link) && b.n >= 2 && id in b.expiry
    ensures Takes(b, Dropped(b, id), level) && Dropped(b, id).expiry == b.expiry
  {
    CurrentTurn(b, level, id);
    assert OnTurn(b.n, b.turns, b.timers[id], b.turn[id], b.expiry[id]);
    DroppedTakes(b, id);
  }

  lemma DropView(a: State, b: State, level: nat)
    requires level < LEVEL_DEPTH && Takes(a, b, level) && b.expiry == a.expiry
    ensures ViewOf(b) == ViewOf(a) && Follows(a, b, level)
  {
    hide Inv, SettingsOf;
  }

  /** One timer fewer in the slot being drained, the counters standing still. */
  ghost predicate Follows(a: State, b: State, level: nat)
    requires level < LEVEL_DEPTH
  {
    && Inv(b) && InRange(a) && InRange(b) && Waiting(b, level) < Waiting(a, level)
    && b.n == a.n && b.cursors == a.cursors && b.turns == a.turns
  }

  lemma PhaseFollows(a: State, b: State, level: nat)
    requires level < LEVEL_DEPTH && Phase(a, level) && Follows(a, b, level)
    ensures Phase(b, level) && Inv(b) && InRange(b) && Waiting(b, level) < Waiting(a, level)
    ensures |b.cursors| == LEVEL_DEPTH == |b.slots| && b.cursors[level] < |b.slots[level]|
    ensures b.n == a.n && b.cursors == a.cursors && b.turns == a.turns
  {
    hide Inv;
  }

  /** The state in which the cursor of `level` moves on. */
  ghost predicate CanTurn(st: State, level: nat) {
    && (level == 0 ==> Between(st))
    && (level == 1 ==> Inv(st) && st.turns.draining == LEVEL_DEPTH && st.n >= 2
                       && st.turns.t0 % st.n == 0 && st.turns.t0 == st.turns.t1 * st.n + st.n)
  }

  /** The cursor of `level` has moved on, and nothing has been served yet. */
  function Turned(st: State, level: nat): State
    requires st.n >= 2
  {
    if level == 0 then Advanced(st) else Carried(st)
  }

  lemma TurnedPhase(a: State, level: nat)
    requires level < LEVEL_DEPTH && CanTurn(a, level)
    ensures a.n >= 2 && a.cursors == [a.turns.t0 % a.n, a.turns.t1 % a.n]
    ensures var b := Turned(a, level);
            && Inv(b) && Phase(b, level)
            && b.cursors == a.cursors[level := if a.cursors[level] + 1 >= a.n then 0 else a.cursors[level] + 1]
            && b.n == a.n && b.timers == a.timers && b.slots == a.slots && b.turn == a.turn && b.expiry == a.expiry
            && ViewOf(b) == if level == 0 then Begin(ViewOf(a)) else ViewOf(a)
  {
    hide Lists, Armed;
    if level == 0 {
      AdvancedPhase(a);
      NextSlot(a.turns.t0, a.n);
    } else {
      CarriedPhase(a);
      NextSlot(a.turns.t1, a.n);
    }
  }

  /** After a slot has been drained, either the next level turns or the tick is over. */
  lemma TurnDone(st: State, level: nat)
    requires level < LEVEL_DEPTH && Phase(st, level) && Inv(st) && InRange(st)
    requires Inv(st.(turns := st.turns.(draining := LEVEL_DEPTH)))
    ensures |st.cursors| == LEVEL_DEPTH
    ensures var r := st.(turns := st.turns.(draining := LEVEL_DEPTH));
            && ViewOf(r) == ViewOf(st)
            && if level == 0 && st.cursors[0] == 0 then CanTurn(r, 1) else Between(r)
  {
    hide Lists, Armed;
  }

  /** A tick that ends with its first part. */
  lemma NoSecondPart(c: Clock, hs: Handlers)
    requires forall id :: !IsDue(c, id, 0)
    ensures Part(c, [], hs, 0, c)
  {
  }

  /** When the levels are drained, the tick is one of the specification. */
  lemma TickDone(n: nat, c: Clock, hs: Handlers, first: seq<TimerId>, m: Clock, second: seq<TimerId>, st: State)
    requires n > 0 && Part(Begin(c), first, hs, CarryLap(n, c.now + 1), m)
    requires Between(st) && Part(m, second, hs, 0, ViewOf(st))
    ensures TickOn(n, c, hs, first + second, ViewOf(st))
  {
    PendingLater(st);
    var order := first + second;
    assert order[..|first|] == first && order[|first|..] == second;
    hide FireAll, DueInTurn, Inv, IsDue, CarryLap;
    assert LapTick(c, hs, order[..|first|], order[|first|..], ViewOf(st), CarryLap(n, c.now + 1));
  }

  lemma NothingAsked(c: Clock, requests: seq<Request>, lap: nat)
    ensures AskAll(c, requests[..0], lap) == c && requests[..|requests|] == requests
  {
  }

  lemma AskSnoc(c: Clock, requests: seq<Request>, i: nat, lap: nat)
    requires i < |requests|
    ensures AskAll(c, requests[..i + 1], lap) == Ask(AskAll(c, requests[..i], lap), requests[i], lap)
  {
    assert requests[..i + 1][..i] == requests[..i];
  }

  lemma ServedSame(a: State)
    requires Inv(a)
    ensures Served(a, a) && a.n >= 2
    ensures forall id :: id in a.expiry <==> IsPending(a, id)
  {
    InvRange(a);
    hide Inv;
  }

  lemma PlacedRecordIs(n: nat, ts: Turns, t: Timer, level: nat, off: nat, c0: nat, cl: nat, left: nat, r: Timer)
    requires n >= 2 && level == (if t.delay < n then 0 else 1) && off == (if t.delay < n then t.delay else t.delay / n)
    requires c0 == ts.t0 % n && cl == (if level == 0 then ts.t0 % n else ts.t1 % n)
    requires left == if level == 0 then 0 else t.delay % n + c0
    requires (cl + off) % n >= 0 && r == t.(left := left, link := Linked(level, (cl + off) % n))
    ensures r == PlaceChoice(n, ts, t).record
  {
  }

  class Scheduler {
    const n: nat
    var cursors: seq<nat>
    var wheels: Slots
    var timers: map<TimerId, Timer>
    ghost var turns: Turns
    ghost var turn: map<TimerId, nat>
    ghost var expiry: map<TimerId, nat>

    ghost function St(): State
      reads this
    {
      State(n, cursors, wheels, timers, turns, turn, expiry)
    }

    ghost predicate Valid()
      reads this
    {
      Between(St())
    }

    ghost function View(): Clock
      reads this
    {
      ViewOf(St())
    }

    constructor (size: nat)
      requires SizeOk(size)
      ensures Valid() && View() == Clock(0, map[], map[]) && n == size
    {
      n := size;
      cursors := [0, 0];
      DivModUnique(0, size, 0, 0);
      wheels := seq(LEVEL_DEPTH, _ => seq(size, _ => []));
      timers, turns, turn, expiry := map[], Turns(0, 0, LEVEL_DEPTH), map[], map[];
    }

    /** `list_add_tail` of a record that says where it goes. */
    method AddTail(id: TimerId, r: Timer, ghost tn: nat, ghost e: nat)
      requires InRange(St()) && InSlot(n, r.link)
      modifies this
      ensures St() == LinkAt(old(St()), id, r, tn, e)
    {
      wheels := Put(n, wheels, r.link.level, r.link.slot, wheels[r.link.level][r.link.slot] + [id]);
      timers := timers[id := r];
      turn, expiry := turn[id := tn], expiry[id := e];
    }

    /** `list_del`. */
    method Delete(id: TimerId)
      requires InRange(St()) && id in timers && InSlot(n, timers[id].link)
      modifies this
      ensures St() == Unlink(old(St()), id)
    {
      var k := timers[id].link;
      wheels := Put(n, wheels, k.level, k.slot, Without(wheels[k.level][k.slot], id));
      timers := timers[id := timers[id].(link := Link.Unlinked)];
      expiry := expiry - {id};
    }

    /** `get_level_ticks`. */
    method GetLevelTicks(level: nat) returns (ticks: nat)
      ensures ticks == LevelTicks(n, level)
    {
      ticks := 1;
      for l := 0 to level
        invariant ticks == LevelTicks(n, l)
      {
        ticks := ticks * n;
      }
    }

    /** The highest level, from `top` down, that `span` ticks reach, and by how many slots. */
    method ChooseLevel(span: nat, top: nat) returns (level: nat, off: nat)
      requires SizeOk(n) && 1 <= span < n * n && top < LEVEL_DEPTH && (span >= n ==> top == 1)
      ensures level == (if span < n then 0 else 1) && off == (if span < n then span else span / n)
    {
      LapBound(span, n);
      LevelTicksValues(n);
      level := top + 1;
      while level > 0
        invariant level <= top + 1 && (level <= 1 ==> span < n) && (level == 0 ==> false)
      {
        level := level - 1;
        var ticks := GetLevelTicks(level);
        off := span / ticks;
        if off > 0 { return; }
      }
    }

    /** What is left of a span below `level`, corrected by the lower cursors. */
    method Remainder(span: nat, level: nat) returns (left: nat)
      requires |cursors| == LEVEL_DEPTH && level < LEVEL_DEPTH && n >= 2
      ensures left == if level == 0 then 0 else span % n + cursors[0]
    {
      LevelTicksValues(n);
      var ticks := GetLevelTicks(level);
      left := span % ticks;
      for lower := level downto 0
        invariant left == span % ticks + if level == 1 && lower == 0 then cursors[0] else 0
      {
        var step := GetLevelTicks(lower);
        left := left + cursors[lower] * step;
      }
    }

    /** `__ndf_timer_sched`, in any phase of a tick. */
    method Sched(id: TimerId, tv: Timeval, isPeriod: bool) returns (ok: bool)
      requires Inv(St()) && !IsPending(St(), id)
      modifies this
      ensures InRange(old(St())) && n >= 2
      ensures St() == Scheduled(old(St()), id, TimevalToTicks(tv), isPeriod)
      ensures ok == (TimevalToTicks(tv) < TIMER_MAX_TICKS)
    {
      InvRange(St());
      ghost var c := Configured(St(), id, if TimevalToTicks(tv) == 0 then 1 else TimevalToTicks(tv), isPeriod);
      var delay := TimevalToTicks(tv);
      assert SizeOk(n) && cursors == [turns.t0 % n, turns.t1 % n];
      hide Inv, TimevalToTicks, PlacedRecord, ArmedFor;
      var d: Tick32 := if delay == 0 then 1 else delay;
      var t := if id in timers then timers[id].(delay := d, isPeriod := isPeriod)
               else Timer(d, 0, isPeriod, Link.Unlinked);
      timers := timers[id := t];
      assert St() == c;
      if delay >= TIMER_MAX_TICKS { return false; }
      var level, off := ChooseLevel(d, LEVEL_DEPTH - 1);
      var left := Remainder(d, level);
      DivMod(cursors[level] + off, n);
      ghost var ch := PlaceChoice(n, turns, t);
      var r := t.(left := left, link := Linked(level, (cursors[level] + off) % n));
      PlacedRecordIs(n, turns, t, level, off, cursors[0], cursors[level], left, r);
      AddTail(id, r, ch.turn, ch.expiry);
      ok := true;
    }

    /** `ndf_timer_cancel_nolock`, in any phase. */
    method Release(id: TimerId)
      requires Inv(St())
      modifies this
      ensures Served(old(St()), St()) && View() == Disarm(old(View()), id) && !IsPending(St(), id)
    {
      ghost var a := St();
      ServedSame(a);
      CancelMeaning(a, id);
      assert IsPending(a, id) <==> id in timers && timers[id].link.Linked?;
      hide *;
      if id in timers && timers[id].link.Linked? { Delete(id); }
    }

    /** Arms a timer that is not pending, in any phase. */
    method Attach(id: TimerId, tv: Timeval, isPeriod: bool, ghost lap: nat)
      requires Inv(St()) && OffBy(St(), lap) && !IsPending(St(), id)
      modifies this
      ensures Served(old(St()), St())
      ensures View() == ArmLap(old(View()), id, TimevalToTicks(tv), isPeriod, lap)
    {
      ghost var a := St();
      ArmMeaning(a, id, TimevalToTicks(tv), isPeriod, lap);
      QuietServes(a, Scheduled(a, id, TimevalToTicks(tv), isPeriod));
      hide *;
      var ok := Sched(id, tv, isPeriod);
    }

    /** The common part of reset and update: cancel, and arm again with the period flag of before. */
    method Rearm(id: TimerId, tv: Timeval, ghost lap: nat)
      requires Inv(St()) && OffBy(St(), lap) && id in timers
      modifies this
      ensures Served(old(St()), St()) && View() == ArmAnew(old(View()), id, TimevalToTicks(tv), lap)
    {
      ghost var a := St();
      assert View().settings[id] == Setting(timers[id].delay, timers[id].isPeriod);
      hide *;
      var isPeriod := timers[id].isPeriod;
      Release(id);
      ghost var u := St();
      ServedOffBy(a, u, lap);
      Attach(id, tv, isPeriod, lap);
      ServedTwice(a, u, St());
      ArmAnewIs(ViewOf(a), id, TimevalToTicks(tv), isPeriod, lap);
    }

    /** A request, in any phase. */
    method Serve(r: Request, ghost lap: nat)
      requires Inv(St()) && OffBy(St(), lap)
      modifies this
      ensures Served(old(St()), St()) && View() == Ask(old(View()), r, lap)
    {
      ghost var a := St();
      ServedSame(a);
      assert IsPending(a, r.id) <==> r.id in timers && timers[r.id].link.Linked?;
      assert r.id in View().settings <==> r.id in timers;
      assert r.id in timers ==> View().settings[r.id].delay == timers[r.id].delay;
      hide Inv, Served, ViewOf, IsPending, OffBy, TimevalToTicks, ArmLap, ArmAnew, Disarm;
      match r {
        case Start(id, tv, isPeriod) =>
          if id in timers && timers[id].link.Linked? { return; }
          if tv.sec >= TIMER_MAX_SECS { return; }
          Attach(id, tv, isPeriod, lap);
        case Stop(id) => Release(id);
        case Reset(id) =>
          if id !in timers { return; }
          TicksRoundTrip(timers[id].delay);
          Rearm(id, TicksToTimeval(timers[id].delay), lap);
        case Update(id, tv) =>
          if id !in timers { ArmAnewNone(View(), id, TimevalToTicks(tv), lap); return; }
          Rearm(id, tv, lap);
      }
    }

    /** All requests of a handler, in order. */
    method ServeAll(h: Handler, ghost lap: nat)
      requires Inv(St()) && OffBy(St(), lap)
      modifies this
      ensures Served(old(St()), St()) && View() == AskAll(old(View()), h.requests, lap)
    {
      ghost var u := St();
      ServedSame(u);
      NothingAsked(View(), h.requests, lap);
      hide *;
      for i := 0 to |h.requests|
        invariant Served(u, St()) && View() == AskAll(ViewOf(u), h.requests[..i], lap)
      {
        ghost var b := St();
        ServedOffBy(u, b, lap);
        AskSnoc(ViewOf(u), h.requests, i, lap);
        Serve(h.requests[i], lap);
        ServedTwice(u, b, St());
      }
    }

    /** A timer that is still periodic is armed again, through the conversions to time and back. */
    method Again(id: TimerId, ghost lap: nat)
      requires Inv(St()) && OffBy(St(), lap) && id in timers && !IsPending(St(), id)
      requires Exact(timers[id].delay, lap)
      modifies this
      ensures Served(old(St()), St())
      ensures View() == Arm(old(View()), id, old(timers[id].delay), old(timers[id].isPeriod))
    {
      TicksRoundTrip(timers[id].delay);
      hide Inv, Served, ViewOf, IsPending, OffBy, TimevalToTicks, Exact, Arm, TicksToTimeval;
      Attach(id, TicksToTimeval(timers[id].delay), timers[id].isPeriod, lap);
    }

    /** `timer_expire`: unlink, run the handler, and arm again if the timer is periodic by then. */
    method Expire(id: TimerId, h: Handler, ghost level: nat, ghost lap: nat)
      requires Inv(St()) && InRange(St()) && IsPending(St(), id) && level < LEVEL_DEPTH && OffBy(St(), lap)
      requires timers[id].link == Linked(level, cursors[level]) && IsDue(View(), id, lap) && Tidy(h, id)
      modifies this
      ensures Follows(old(St()), St(), level) && View() == Fire(old(View()), id, h, lap)
    {
      ghost var a := St();
      HeadUnlinked(a, level, id);
      assert id in View().settings;
      hide *;
      Delete(id);
      ghost var u := St();
      ServedOffBy(a, u, lap);
      ServeAll(h, lap);
      ghost var b := St();
      ServedOffBy(u, b, lap);
      FiredSoFar(a, u, b, id, h, lap);
      if !h.stop && timers[id].isPeriod {
        Again(id, lap);
      } else {
        ServedSame(b);
      }
      FollowsFrom(a, u, b, St(), level);
    }

    /** The record of a dropped timer: the highest level that its remainder reaches, and what is left then. */
    method DropRecord(t: Timer, ghost e: nat) returns (r: Timer)
      requires SizeOk(n) && cursors == [turns.t0 % n, turns.t1 % n] && 0 < t.left <= 2 * n - 2
      ensures r == DropChoice(n, turns, t, e).record
    {
      MulMono(n, 2, n);
      var lower, off := ChooseLevel(t.left, 1);
      LevelTicksValues(n);
      DivMod(t.left, n);
      DivMod(cursors[lower] + off, n);
      var ticks := GetLevelTicks(lower);
      r := t.(left := t.left % ticks, link := Linked(lower, (cursors[lower] + off) % n));
    }

    /** Drop a timer whose turn has come but whose remainder has not run out. */
    method Drop(id: TimerId)
      requires Inv(St()) && IsPending(St(), id) && 0 < timers[id].left <= 2 * n - 2
      modifies this
      ensures InRange(old(St())) && n >= 2 && InSlot(n, old(timers[id].link)) && id in old(expiry)
      ensures St() == Dropped(old(St()), id)
    {
      InvRange(St());
      assert SizeOk(n) && cursors == [turns.t0 % n, turns.t1 % n];
      hide Inv, Lists, Put, DropChoice, SizeOk;
      ghost var e := expiry[id];
      Delete(id);
      var r := DropRecord(timers[id], e);
      AddTail(id, r, DropChoice(n, turns, timers[id], e).turn, e);
      DropExpiry(n, turns, old(timers[id]).(link := Link.Unlinked), e);
    }

    /** Empty the slot under the cursor of `level`: expire what has no remainder, drop what has. */
    method DrainSlot(level: nat, hs: Handlers, ghost lap: nat) returns (fired: seq<TimerId>)
      requires Inv(St()) && level < LEVEL_DEPTH && Phase(St(), level) && AllTidy(hs)
      requires n > 0 && lap == LapAt(St(), level)
      modifies this
      ensures Inv(St()) && InRange(St()) && Waiting(St(), level) == 0 && Phase(St(), level)
      ensures Ticking(old(View()), St(), fired, hs, lap) && turns == old(turns) && lap == LapAt(St(), level)
    {
      fired := [];
      InvRange(St());
      ghost var c := View();
      TickingStarts(c, St(), hs, lap);
      hide *;
      while wheels[level][cursors[level]] != []
        invariant Inv(St()) && InRange(St()) && Phase(St(), level) && level < |cursors| && level < |wheels|
        invariant cursors[level] < |wheels[level]| && turns == old(turns) && n >= 2
        invariant Ticking(c, St(), fired, hs, lap) && lap == LapAt(St(), level)
        decreases Waiting(St(), level)
      {
        ghost var b := St();
        var id := wheels[level][cursors[level]][0];
        CurrentTurn(b, level, id);
        if timers[id].left == 0 {
          HeadDue(b, level, id);
          PhaseLap(b, level);
          TidyOf(hs, id);
          Expire(id, HandlerOf(hs, id), level, lap);
          TickingStep(c, b, St(), fired, hs, lap, id);
          fired := fired + [id];
        } else {
          DropHead(b, level, id);
          Drop(id);
          DropView(b, St(), level);
          TickingKept(c, b, St(), fired, hs, lap);
        }
        PhaseFollows(b, St(), level);
      }
    }

    ghost method CloseSlot()
      modifies this`turns
      ensures St() == old(St()).(turns := old(turns).(draining := LEVEL_DEPTH))
    {
      turns := turns.(draining := LEVEL_DEPTH);
    }

    /** The next slot of a level, with a carry past the last. */
    method MoveCursor(level: nat) returns (carry: bool)
      requires level < LEVEL_DEPTH && CanTurn(St(), level) && n > 0
      modifies this
      ensures old(St()).n >= 2 && St() == Turned(old(St()), level)
      ensures |cursors| == LEVEL_DEPTH && (carry <==> cursors[level] == 0)
    {
      ghost var a := St();
      TurnedPhase(a, level);
      hide *;
      var cursor := cursors[level] + 1;
      carry := cursor >= n;
      if carry { cursor := 0; }
      cursors := cursors[level := cursor];
      turns := Turned(a, level).turns;
    }

    /** One part of a tick, once the cursor of `level` has moved. */
    method RunPart(level: nat, hs: Handlers) returns (fired: seq<TimerId>)
      requires Inv(St()) && level < LEVEL_DEPTH && Phase(St(), level) && AllTidy(hs) && n > 0
      modifies this
      ensures Part(old(View()), fired, hs, LapAt(old(St()), level), View())
      ensures |cursors| == LEVEL_DEPTH && cursors == old(cursors)
      ensures if level == 0 && cursors[0] == 0 then CanTurn(St(), 1) else Between(St())
    {
      ghost var b, lap := St(), LapAt(St(), level);
      hide *;
      fired := DrainSlot(level, hs, lap);
      ghost var d := St();
      DrainedPart(ViewOf(b), d, level, fired, hs, lap);
      TurnDone(d, level);
      PhaseCursor(b, d, level);
      CloseSlot();
    }

    /** Move the cursor of `level` one slot on, and empty the slot it comes to. */
    method TurnLevel(level: nat, hs: Handlers) returns (carry: bool, fired: seq<TimerId>)
      requires level < LEVEL_DEPTH && CanTurn(St(), level) && n > 0 && AllTidy(hs)
      modifies this
      ensures if level == 0 && carry then CanTurn(St(), 1) else Between(St())
      ensures level == 0 ==> (carry <==> (old(View()).now + 1) % n == 0)
      ensures level == 0 ==> Part(Begin(old(View())), fired, hs, CarryLap(n, old(View()).now + 1), View())
      ensures level == 1 ==> Part(old(View()), fired, hs, 0, View())
    {
      ghost var a := St();
      TurnedPhase(a, level);
      TurnedLap(a, level);
      hide *;
      carry := MoveCursor(level);
      fired := RunPart(level, hs);
    }

    /** `rte_timer_tick_cb`: one tick, with handlers that may call the interface. */
    method RunTick(hs: Handlers) returns (fired: seq<TimerId>)
      requires Valid() && AllTidy(hs)
      modifies this
      ensures Valid() && n > 0 && TickOn(n, old(View()), hs, fired, View())
    {
      ghost var c := View();
      fired := [];
      TickStart(St());
      hide *;
      var level := 0;
      while level < LEVEL_DEPTH
        invariant level <= LEVEL_DEPTH && n > 0
        invariant level < LEVEL_DEPTH ==> CanTurn(St(), level)
        invariant level == 0 ==> fired == [] && View() == c
        invariant level == 1 ==> Part(Begin(c), fired, hs, CarryLap(n, c.now + 1), View())
        invariant level == LEVEL_DEPTH ==> Between(St()) && TickOn(n, c, hs, fired, View())
      {
        ghost var m, before := View(), fired;
        var carry, part;
        carry, part := TurnLevel(level, hs);
        fired := fired + part;
        if level == 0 {
          assert fired == part;
          if !carry {
            OnePart(n, c, hs, part, St());
          }
        } else {
          TickDone(n, c, hs, before, m, part, St());
        }
        level := if carry then level + 1 else LEVEL_DEPTH;
      }
    }

    /** A tick whose handlers only answer: exactly the timers that are due fire, each once. */
    method RunPlainTick(stops: set<TimerId>) returns (fired: seq<TimerId>)
      requires Valid()
      modifies this
      ensures Valid() && View() == Tick(old(View()), stops)
      ensures NoRepeat(fired) && Elements(fired) == Due(old(View()).expiry, old(View()).now + 1)
    {
      ghost var c := View();
      PendingStored(St());
      AnswersPlain(stops, c.settings, 0);
      TickStart(St());
      hide *;
      fired := RunTick(Answers(stops));
      AdvanceStep(n, c, stops, fired, View());
    }

    /** A call between ticks, or a tick. */
    method Perform(deed: Deed) returns (fired: seq<TimerId>)
      requires Valid() && DeedTidy(deed)
      modifies this
      ensures Valid() && n > 0 && DeedTo(n, old(View()), deed, fired, View())
    {
      ghost var a := St();
      TickStart(a);
      BetweenLap(a);
      hide Inv, Between, Served, OffBy, TickOn, ViewOf, Ask;
      fired := [];
      match deed {
        case Asked(r) =>
          Serve(r, 0);
          ServedBetween(a, St());
        case Ticked(hs) => fired := RunTick(hs);
      }
    }

    // ----- the interface between ticks -----

    method Schedule(id: TimerId, tv: Timeval, isPeriod: bool) returns (ok: bool)
      requires Valid() && id !in View().expiry
      modifies this
      ensures Valid() && View() == Step(old(View()), Call.Schedule(id, tv, isPeriod))
      ensures ok <==> tv.sec < TIMER_MAX_SECS && TimevalToTicks(tv) < TIMER_MAX_TICKS
    {
      NotPending(St(), id);
      if tv.sec >= TIMER_MAX_SECS { return false; }
      ArmBetween(St(), id, TimevalToTicks(tv), isPeriod);
      hide Inv, Scheduled, TimevalToTicks, SettingsOf, Between;
      ok := Sched(id, tv, isPeriod);
    }

    method Cancel(id: TimerId)
      requires Valid()
      modifies this
      ensures Valid() && View() == Disarm(old(View()), id)
    {
      ghost var a := St();
      BetweenLap(a);
      hide *;
      Release(id);
      ServedBetween(a, St());
    }

    method Reset(id: TimerId)
      requires Valid() && id in View().settings
      modifies this
      ensures Valid() && View() == Step(old(View()), Call.Reset(id))
    {
      TicksRoundTrip(timers[id].delay);
      Change(id, TicksToTimeval(timers[id].delay));
    }

    method Update(id: TimerId, tv: Timeval)
      requires Valid() && id in View().settings
      modifies this
      ensures Valid() && View() == Step(old(View()), Call.Update(id, tv))
    {
      Change(id, tv);
    }

    /** Cancel and arm again, between ticks. */
    method Change(id: TimerId, tv: Timeval)
      requires Valid() && id in View().settings
      modifies this
      ensures Valid()
      ensures View() == Arm(Disarm(old(View()), id), id, TimevalToTicks(tv), old(View()).settings[id].isPeriod)
    {
      ghost var a := St();
      BetweenLap(a);
      assert id in timers;
      hide Inv, Served, ViewOf, OffBy, TimevalToTicks, Arm, Disarm, Between;
      Rearm(id, tv, 0);
      ServedBetween(a, St());
    }

    /** The two cursors as one 32-bit count. */
    method SumTicks(ghost high: nat) returns (ticks: Tick32)
      requires |cursors| == LEVEL_DEPTH && high == cursors[1] * n
      ensures ticks == Wrap32(high + cursors[0])
    {
      LevelTicksValues(n);
      WrapSum(high, cursors[0]);
      assert Wrap32(0) == 0;
      hide Wrap32, LevelTicks;
      ticks := 0;
      for l := LEVEL_DEPTH downto 0
        invariant ticks == if l == 2 then Wrap32(0) else if l == 1 then Wrap32(high) else Wrap32(high + cursors[0])
      {
        var step := GetLevelTicks(l);
        WrapSum(0, high);
        ticks := Wrap32(ticks + cursors[l] * step);
      }
    }

    /** `__time_now`: what the cursors read; it is the elapsed time if and only if 32 bits have not run out. */
    method TimeNow() returns (now: Timeval)
      requires Valid()
      ensures n > 0 && now == TicksToTimeval(ClockReading(n, View().now))
      ensures now == Elapsed(View().now) <==> View().now <= TIMER_MAX_TICKS
    {
      InvRange(St());
      CursorDigits(St());
      ReadingExact(n, View().now);
      ghost var high := cursors[1] * n;
      hide *;
      var ticks := SumTicks(high);
      now := TicksToTimeval(ticks);
    }

    /** Whether a time has been reached, and the time still to wait if not. */
    static method Remaining(expire: Timeval, now: Timeval) returns (reached: bool, delta: Timeval)
      requires 0 <= expire.usec < 1000000 && 0 <= now.usec < 1000000
      ensures reached <==> Micros(expire) <= Micros(now)
      ensures !reached ==> Micros(delta) == Micros(expire) - Micros(now) && 0 <= delta.usec < 1000000
    {
      reached := expire.sec < now.sec || (expire.sec == now.sec && expire.usec <= now.usec);
      delta := if expire.usec >= now.usec then Timeval(expire.sec - now.sec, expire.usec - now.usec)
               else Timeval(expire.sec - now.sec - 1, expire.usec - now.usec + 1000000);
    }

    /** Arms a timer for the tick in which a wait ends, or the next tick, unless the wait is too long. */
    method ArmAfter(id: TimerId, delta: Timeval) returns (ok: bool)
      requires Valid() && id !in View().expiry && 0 < Micros(delta) && 0 <= delta.usec < 1000000
      modifies this
      ensures Valid() && View().now == old(View()).now
      ensures ok <==> Micros(delta) < TIMER_MAX_SECS * 1000000
      ensures View().expiry == if ok then WaitedFor(old(View()), id, Micros(delta)) else old(View()).expiry
    {
      ghost var c := View();
      DeltaTicks(c, id, delta);
      hide *;
      if delta.sec >= TIMER_MAX_SECS { return false; }
      ok := Schedule(id, delta, false);
    }

    /**
     `ndf_timer_sched_abs_nolock`: a time already reached on the clock's reading runs the handler at once; otherwise
     the timer is armed for the tick in which the remaining wait ends, or the next tick, unless the wait is too long.
     */
    method ScheduleAbs(id: TimerId, expire: Timeval) returns (ranNow: bool, ok: bool)
      requires Valid() && id !in View().expiry && 0 <= expire.usec < 1000000
      modifies this
      ensures Valid() && View().now == old(View()).now && n > 0
      ensures var wait := Micros(expire) - ClockReading(n, old(View()).now) * 1000;
              && (ranNow <==> wait <= 0)
              && (ok <==> wait < TIMER_MAX_SECS * 1000000)
              && View().expiry == if ranNow || !ok then old(View()).expiry else WaitedFor(old(View()), id, wait)
      ensures View().now <= TIMER_MAX_TICKS ==> ClockReading(n, View().now) == View().now
    {
      ghost var c := View();
      InvRange(St());
      ReadingExact(n, c.now);
      hide *;
      var now := TimeNow();
      ReadingMicros(ClockReading(n, c.now));
      var reached, delta := Remaining(expire, now);
      if reached {
        WaitOver(Micros(expire) - Micros(now));
        return true, true;
      }
      ranNow := false;
      ok := ArmAfter(id, delta);
    }
  }

  /** The expiries when a timer is armed after a wait of some microseconds. */
  function WaitedFor(c: Clock, id: TimerId, wait: int): map<TimerId, nat>
    requires wait > 0
  {
    c.expiry[id := c.now + if wait < 1000 then 1 else wait / 1000]
  }

  function Micros(tv: Timeval): int { tv.sec * 1000000 + tv.usec }

  lemma ReadingMicros(t: Tick32)
    ensures Micros(TicksToTimeval(t)) == t * 1000 && 0 <= TicksToTimeval(t).usec < 1000000
  {
  }

  lemma WaitOver(wait: int)
    requires wait <= 0
    ensures wait < TIMER_MAX_SECS * 1000000
  {
  }

  /** A remaining wait below the limit is that many whole ticks, and at least one. */
  lemma DeltaTicks(c: Clock, id: TimerId, delta: Timeval)
    requires id !in c.expiry && 0 < Micros(delta) && 0 <= delta.usec < 1000000
    ensures delta.sec < TIMER_MAX_SECS <==> Micros(delta) < TIMER_MAX_SECS * 1000000
    ensures Allowed(c, Call.Schedule(id, delta, false))
    ensures delta.sec < TIMER_MAX_SECS ==>
              var d, wait := Step(c, Call.Schedule(id, delta, false)), Micros(delta);
              && TimevalToTicks(delta) < TIMER_MAX_TICKS && d.now == c.now
              && d.expiry == WaitedFor(c, id, wait)
  {
    assert TimevalToTicks(delta) == if delta.sec < TIMER_MAX_SECS then Micros(delta) / 1000 else TimevalToTicks(delta);
    assert Micros(delta) / 1000 == 0 <==> Micros(delta) < 1000;
  }

  lemma ArmBetween(st: State, id: TimerId, ticks: Tick32, isPeriod: bool)
    requires Between(st) && !IsPending(st, id)
    ensures InRange(st) && st.n >= 2 && Inv(st)
    ensures var r := Scheduled(st, id, ticks, isPeriod);
            Between(r) && ViewOf(r) == Arm(ViewOf(st), id, ticks, isPeriod)
  {
    BetweenLap(st);
    ArmMeaning(st, id, ticks, isPeriod, 0);
    QuietBetween(st, Scheduled(st, id, ticks, isPeriod));
    hide Inv, Scheduled;
  }

  lemma QuietBetween(a: State, b: State)
    requires Between(a) && Quiet(a, b)
    ensures Between(b)
  {
    hide Lists, Armed;
  }

  lemma ServedBetween(a: State, b: State)
    requires Between(a) && Served(a, b)
    ensures Between(b)
  {
    hide Lists, Armed, Waiting;
  }

  /** Between ticks no lap is lost. */
  lemma BetweenLap(st: State)
    requires Between(st)
    ensures Inv(st) && OffBy(st, 0)
  {
    hide Lists, Armed;
  }

  lemma ArmAnewIs(c: Clock, id: TimerId, ticks: Tick32, isPeriod: bool, lap: nat)
    requires id in c.settings && c.settings[id].isPeriod == isPeriod
    ensures ArmAnew(c, id, ticks, lap) == ArmLap(Disarm(c, id), id, ticks, isPeriod, lap)
  {
  }

  lemma ArmAnewNone(c: Clock, id: TimerId, ticks: Tick32, lap: nat)
    requires id !in c.settings
    ensures ArmAnew(c, id, ticks, lap) == c
  {
  }

  predicate DeedTidy(deed: Deed) { deed.Ticked? ==> AllTidy(deed.hs) }

  lemma TickStart(st: State)
    requires Between(st)
    ensures CanTurn(st, 0) && st.n > 0
  {
    ServedSame(st);
  }

  lemma TickingStarts(c: Clock, st: State, hs: Handlers, lap: nat)
    requires ViewOf(st) == c
    ensures Ticking(c, st, [], hs, lap)
  {
  }

  lemma TickingKept(c: Clock, a: State, b: State, fired: seq<TimerId>, hs: Handlers, lap: nat)
    requires Ticking(c, a, fired, hs, lap) && ViewOf(b) == ViewOf(a)
    ensures Ticking(c, b, fired, hs, lap)
  {
  }

  lemma DrainedPart(c: Clock, st: State, level: nat, fired: seq<TimerId>, hs: Handlers, lap: nat)
    requires Inv(st) && InRange(st) && level < LEVEL_DEPTH && Phase(st, level) && Waiting(st, level) == 0
    requires st.n > 0 && lap == LapAt(st, level) && Ticking(c, st, fired, hs, lap)
    ensures Part(c, fired, hs, lap, ViewOf(st))
    ensures Inv(st.(turns := st.turns.(draining := LEVEL_DEPTH)))
  {
    DrainedDue(st, level);
    DrainedClosed(st, level);
    hide *;
    PartDone(c, st, fired, hs, lap);
  }

  lemma PartDone(c: Clock, st: State, fired: seq<TimerId>, hs: Handlers, lap: nat)
    requires Ticking(c, st, fired, hs, lap) && forall id :: !IsDue(ViewOf(st), id, lap)
    ensures Part(c, fired, hs, lap, ViewOf(st))
  {
  }

  /** What a part of a tick starts from, and the lap it loses. */
  lemma TurnedLap(a: State, level: nat)
    requires level < LEVEL_DEPTH && CanTurn(a, level)
    ensures a.n >= 2
    ensures level == 0 ==>
              && ViewOf(Turned(a, 0)) == Begin(ViewOf(a))
              && LapAt(Turned(a, 0), 0) == CarryLap(a.n, ViewOf(a).now + 1)
              && (Turned(a, 0).cursors[0] == 0 <==> (ViewOf(a).now + 1) % a.n == 0)
    ensures level == 1 ==> ViewOf(Turned(a, 1)) == ViewOf(a) && LapAt(Turned(a, 1), 1) == 0
  {
    hide Lists, Armed;
  }

  lemma OnePart(n: nat, c: Clock, hs: Handlers, fired: seq<TimerId>, st: State)
    requires n > 0 && (c.now + 1) % n != 0 && Between(st)
    requires Part(Begin(c), fired, hs, CarryLap(n, c.now + 1), ViewOf(st))
    ensures TickOn(n, c, hs, fired, ViewOf(st))
  {
    hide FireAll, DueInTurn, Inv, Between, TickOn;
    assert CarryLap(n, c.now + 1) == 0;
    NoSecondPart(ViewOf(st), hs);
    TickDone(n, c, hs, fired, ViewOf(st), [], st);
    assert fired + [] == fired;
  }

  lemma TidyOf(hs: Handlers, id: TimerId)
    requires AllTidy(hs)
    ensures Tidy(HandlerOf(hs, id), id)
  {
  }

  lemma PhaseCursor(b: State, d: State, level: nat)
    requires level < LEVEL_DEPTH && Inv(b) && Inv(d) && d.turns == b.turns && d.n == b.n
    ensures d.cursors == b.cursors
  {
  }

  lemma ServedOffBy(a: State, b: State, lap: nat)
    requires Served(a, b) && OffBy(a, lap)
    ensures Inv(b) && OffBy(b, lap)
  {
    hide Inv, Waiting;
  }

  /** When the handler is through: the timer's record, and what arming it again would mean. */
  lemma FiredSoFar(a: State, u: State, b: State, id: TimerId, h: Handler, lap: nat)
    requires Served(u, b) && ViewOf(u) == Disarm(ViewOf(a), id) && ViewOf(b) == AskAll(ViewOf(u), h.requests, lap)
    requires id in ViewOf(a).settings && IsDue(ViewOf(a), id, lap) && Tidy(h, id)
    ensures Inv(b) && (!h.stop ==> id in b.timers)
    ensures !h.stop && b.timers[id].isPeriod ==>
              && !IsPending(b, id) && Exact(b.timers[id].delay, lap)
              && Fire(ViewOf(a), id, h, lap) == Arm(ViewOf(b), id, b.timers[id].delay, true)
    ensures h.stop || !b.timers[id].isPeriod ==> Fire(ViewOf(a), id, h, lap) == ViewOf(b)
  {
    ServedSame(b);
    if !h.stop { OwnTimer(ViewOf(u), id, h.requests, lap); }
    hide Lists, Armed, Waiting, AskAll;
  }

  lemma FollowsFrom(a: State, u: State, b: State, r: State, level: nat)
    requires level < LEVEL_DEPTH && Served(a, u) && Served(u, b) && Served(b, r)
    requires Waiting(u, level) < Waiting(a, level)
    ensures Follows(a, r, level)
  {
    hide Inv;
  }

  /**
   Any run of calls and ticks, with handlers that call the interface, is a run of the specification; if the handlers
   only answer, it fires, call by call, exactly the timers the specification lists.
   */
  method Drive(size: nat, deeds: seq<Deed>) returns (log: seq<seq<TimerId>>)
    requires SizeOk(size) && forall i :: 0 <= i < |deeds| ==> DeedTidy(deeds[i])
    ensures size > 1 && Runs(size, START, deeds, log)
    ensures forall calls: seq<Call> :: deeds == DeedsOf(calls) && AllAllowed(START, calls) ==>
              Fires(log, Log(START, calls))
  {
    var w := new Scheduler(size);
    log := [];
    ghost var clocks := [START];
    for i := 0 to |deeds|
      invariant fresh(w) && w.Valid() && w.n == size && size > 1
      invariant |clocks| == i + 1 && clocks[0] == START && clocks[i] == w.View() && |log| == i
      invariant forall k :: 0 <= k < i ==> DeedTo(size, clocks[k], deeds[k], log[k], clocks[k + 1])
    {
      hide SizeOk, Between, ViewOf, DeedTo, DeedTidy;
      var fired := w.Perform(deeds[i]);
      log, clocks := log + [fired], clocks + [w.View()];
    }
    assert Trace(size, clocks, deeds, log) by { hide DeedTo; }
    hide *;
    TraceRuns(size, clocks, deeds, log);
  }

  /** A handler that starts timer 1 with a delay of `d` ticks. */
  function StartsAnother(d: Tick32): Handler { Handler([Start(1, TicksToTimeval(d), false)], false) }

  /**
   The lap is lost in a run from the start: timer 0 fires at tick n, and its handler starts timer 1 with a delay of
   at least n ticks.  Timer 1 is due at tick d instead of n + d; for d == n that is the same tick.
   */
  method LapLost(size: nat, d: Tick32) returns (w: Scheduler, fired: seq<TimerId>)
    requires SizeOk(size) && size <= d < TIMER_MAX_SECS * TIMER_HZ
    ensures fresh(w) && w.Valid() && w.View().now == size
    ensures fired == if d == size then [0, 1] else [0]
    ensures w.View().expiry == if d == size then map[] else map[1 := d]
  {
    w := new Scheduler(size);
    CarryCall(size, d);
    hide *;
    fired := w.RunPlainTick({});
    var ok := w.Schedule(0, TicksToTimeval(size - 1), false);
    for i := 1 to size - 1
      invariant fresh(w) && w.Valid() && w.n == size && w.View() == OneTimer(i, size)
    {
      QuietTick(i, size);
      fired := w.RunPlainTick({});
    }
    ghost var c := w.View();
    CarryTidy(d);
    fired := w.RunTick(map[0 := StartsAnother(d)]);
    CarryOutcome(size, d, c, fired, w.View());
  }

  /** Timer 0 waits for tick `n`. */
  ghost function OneTimer(now: nat, n: nat): Clock
    requires 1 <= n <= TIMER_MAX_TICKS
  {
    Clock(now, map[0 := n], map[0 := Setting(n - 1, false)])
  }

  lemma CarryCall(n: nat, d: Tick32)
    requires SizeOk(n) && n <= d < TIMER_MAX_SECS * TIMER_HZ
    ensures 2 < n <= TIMER_MAX_TICKS && 0 !in Tick(START, {}).expiry
    ensures Allowed(Tick(START, {}), Call.Schedule(0, TicksToTimeval(n - 1), false))
    ensures Step(Tick(START, {}), Call.Schedule(0, TicksToTimeval(n - 1), false)) == OneTimer(1, n)
  {
    TicksRoundTrip(n - 1);
    SizeAboveTwo(n);
    hide TimevalToTicks;
  }

  lemma SizeAboveTwo(n: nat)
    requires SizeOk(n)
    ensures n > 2
  {
    if n <= 2 { MulMono(2, n, n); }
  }

  lemma QuietTick(now: nat, n: nat)
    requires 1 <= now < n - 1 < TIMER_MAX_TICKS
    ensures Tick(OneTimer(now, n), {}) == OneTimer(now + 1, n)
  {
  }

  lemma CarryTidy(d: Tick32)
    ensures AllTidy(map[0 := StartsAnother(d)])
  {
  }

  /** What the handler leaves. */
  lemma CarryFire(n: nat, d: Tick32)
    requires SizeOk(n) && n <= d < TIMER_MAX_SECS * TIMER_HZ
    ensures Fire(OneTimer(n, n), 0, StartsAnother(d), n)
         == Clock(n, map[1 := d], map[0 := Setting(n - 1, false), 1 := Setting(d, false)])
  {
    TicksRoundTrip(d);
    var c, r := Disarm(OneTimer(n, n), 0), Start(1, TicksToTimeval(d), false);
    assert AskAll(c, [r], n) == Ask(c, r, n) by { assert [r][..0] == []; }
    assert c.expiry == map[];
    assert n + d - n == d;
  }

  /** A part in which only one timer is due serves it, and it alone. */
  lemma OnlyOne(c: Clock, order: seq<TimerId>, hs: Handlers, lap: nat, d: Clock, id: TimerId)
    requires Part(c, order, hs, lap, d) && IsDue(c, id, lap) && forall x :: IsDue(c, x, lap) ==> x == id
    ensures order == [id] && d == Fire(c, id, HandlerOf(hs, id), lap)
  {
    assert forall i :: 0 <= i < |order| ==> order[i] in order;
    assert |order| == 1 ==> order[..0] == [];
    ServedOnce(c, order, hs, lap);
    hide Fire;
  }

  lemma NoneDue(c: Clock, order: seq<TimerId>, hs: Handlers, lap: nat, d: Clock)
    requires Part(c, order, hs, lap, d) && forall x :: !IsDue(c, x, lap)
    ensures order == [] && d == c
  {
    assert order != [] ==> order[0] in order;
    ServedOnce(c, order, hs, lap);
  }

  lemma CarryFirst(n: nat, d: Tick32, first: seq<TimerId>, m: Clock)
    requires SizeOk(n) && n <= d < TIMER_MAX_SECS * TIMER_HZ
    requires Part(OneTimer(n, n), first, map[0 := StartsAnother(d)], n, m)
    ensures first == [0]
    ensures m == Clock(n, map[1 := d], map[0 := Setting(n - 1, false), 1 := Setting(d, false)])
  {
    hide Part, Fire, FireAll;
    OnlyOne(OneTimer(n, n), first, map[0 := StartsAnother(d)], n, m, 0);
    CarryFire(n, d);
  }

  lemma CarrySecond(n: nat, d: Tick32, m: Clock, hs: Handlers, second: seq<TimerId>, e: Clock)
    requires 1 <= n <= d && m == Clock(n, map[1 := d], map[0 := Setting(n - 1, false), 1 := Setting(d, false)])
    requires Part(m, second, hs, 0, e) && 1 !in hs
    ensures e.now == n && second == if d == n then [1] else []
    ensures e.expiry == if d == n then map[] else map[1 := d]
  {
    hide Part, Fire, FireAll;
    if d == n {
      OnlyOne(m, second, hs, 0, e, 1);
      FirePlain(m, 1, false);
    } else {
      NoneDue(m, second, hs, 0, e);
    }
  }

  lemma CarryOutcome(n: nat, d: Tick32, c: Clock, fired: seq<TimerId>, e: Clock)
    requires SizeOk(n) && n <= d < TIMER_MAX_SECS * TIMER_HZ && c == OneTimer(n - 1, n)
    requires TickOn(n, c, map[0 := StartsAnother(d)], fired, e)
    ensures e.now == n && fired == if d == n then [0, 1] else [0]
    ensures e.expiry == if d == n then map[] else map[1 := d]
  {
    var first, m := CarrySplit(n, d, c, fired, e);
    hide *;
    CarryFirst(n, d, first, m);
    CarrySecond(n, d, m, map[0 := StartsAnother(d)], fired[|first|..], e);
    Rejoined(fired, |first|);
  }

  lemma CarrySplit(n: nat, d: Tick32, c: Clock, fired: seq<TimerId>, e: Clock) returns (first: seq<TimerId>, m: Clock)
    requires 1 <= n <= TIMER_MAX_TICKS && c == OneTimer(n - 1, n)
    requires TickOn(n, c, map[0 := StartsAnother(d)], fired, e)
    ensures |first| <= |fired| && first == fired[..|first|]
    ensures Part(OneTimer(n, n), first, map[0 := StartsAnother(d)], n, m)
    ensures Part(m, fired[|first|..], map[0 := StartsAnother(d)], 0, e)
  {
    var hs := map[0 := StartsAnother(d)];
    CarryStarts(c, n);
    hide *;
    var k;
    k, m := TickParts(n, c, hs, fired, e);
    first := fired[..k];
  }

  lemma CarryStarts(c: Clock, n: nat)
    requires 1 <= n <= TIMER_MAX_TICKS && c == OneTimer(n - 1, n)
    ensures Begin(c) == OneTimer(n, n) && CarryLap(n, c.now + 1) == n
  {
    DivModUnique(n, n, 1, 0);
  }
}
