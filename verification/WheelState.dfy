/**
 The state of the two-level timing wheel.  Each level is a ring of slots, each slot a list of timers; a cursor per
 level advances with the ticks.  A timer beyond the reach of level 0 waits on level 1 with a remainder `left`,
 corrected by the lower cursor, and drops to a lower level when the level-1 cursor reaches its slot.
 The number of slots is symbolic.
 */
module WheelState {
  import opened WheelMath
  import opened TimerSpec
  import opened Sequences

  const LEVEL_DEPTH := 2

  /** Where the list pointers of a timer record lead. */
  datatype Link = Unlinked | Linked(level: nat, slot: nat)

  /** An `ndf_timer` record. */
  datatype Timer = Timer(delay: Tick32, left: nat, isPeriod: bool, link: Link)

  /** The fields that outlive an expiry. */
  function SettingsOf(timers: map<TimerId, Timer>): map<TimerId, Setting> {
    map id | id in timers :: Setting(timers[id].delay, timers[id].isPeriod)
  }

  lemma SettingsSame(timers: map<TimerId, Timer>, id: TimerId)
    requires id in timers
    ensures SettingsOf(timers)[id := Setting(timers[id].delay, timers[id].isPeriod)] == SettingsOf(timers)
  {
  }

  function LevelTicks(n: nat, level: nat): nat {
    if level == 0 then 1 else n * LevelTicks(n, level - 1)
  }

  /** What `list_del` does to a slot's list. */
  function Without(s: seq<TimerId>, id: TimerId): seq<TimerId> {
    if s == [] then [] else if s[0] == id then s[1..] else [s[0]] + Without(s[1..], id)
  }

  lemma {:induction false} WithoutMembers(s: seq<TimerId>, id: TimerId)
    requires NoRepeat(s) && id in s
    ensures NoRepeat(Without(s, id)) && forall x :: x in Without(s, id) <==> x in s && x != id
    ensures |Without(s, id)| == |s| - 1
  {
    var rest := s[1..];
    assert forall x :: x in s <==> x == s[0] || x in rest;
    assert s[0] !in rest;
    if s[0] != id {
      WithoutMembers(rest, id);
      assert forall i :: 0 <= i < |Without(rest, id)| ==> Without(rest, id)[i] in Without(rest, id);
    }
  }

  // ----- the slots -----

  type Slots = seq<seq<seq<TimerId>>>

  predicate Sized(n: nat, w: Slots) {
    |w| == LEVEL_DEPTH && forall l :: 0 <= l < LEVEL_DEPTH ==> |w[l]| == n
  }

  function Put(n: nat, w: Slots, level: nat, slot: nat, list: seq<TimerId>): (r: Slots)
    requires Sized(n, w) && level < LEVEL_DEPTH && slot < n
    ensures Sized(n, r)
  {
    w[level := w[level][slot := list]]
  }

  /** Slot (l, s) lists, once each, exactly the timers linked to it. */
  ghost predicate SlotLists(timers: map<TimerId, Timer>, l: nat, s: nat, list: seq<TimerId>) {
    && NoRepeat(list)
    && (forall id :: id in list ==> id in timers && timers[id].link == Linked(l, s))
  }

  ghost predicate Listed(n: nat, w: Slots, id: TimerId, k: Link)
    requires Sized(n, w)
  {
    k.Linked? ==> k.level < LEVEL_DEPTH && k.slot < n && id in w[k.level][k.slot]
  }

  ghost predicate Lists(n: nat, w: Slots, timers: map<TimerId, Timer>) {
    && Sized(n, w)
    && (forall l: nat, s: nat :: l < LEVEL_DEPTH && s < n ==> SlotLists(timers, l, s, w[l][s]))
    && (forall id :: id in timers ==> Listed(n, w, id, timers[id].link))
  }

  lemma ListsAdd(n: nat, w: Slots, timers: map<TimerId, Timer>, id: TimerId, t: Timer)
    requires Lists(n, w, timers) && id in timers && timers[id].link == Unlinked
    requires t.link.Linked? && t.link.level < LEVEL_DEPTH && t.link.slot < n
    ensures Lists(n, Put(n, w, t.link.level, t.link.slot, w[t.link.level][t.link.slot] + [id]), timers[id := t])
  {
    var w', timers' := Put(n, w, t.link.level, t.link.slot, w[t.link.level][t.link.slot] + [id]), timers[id := t];
    forall l: nat, s: nat | l < LEVEL_DEPTH && s < n ensures SlotLists(timers', l, s, w'[l][s]) {
      assert SlotLists(timers, l, s, w[l][s]);
    }
    forall x | x in timers' ensures Listed(n, w', x, timers'[x].link) {
      if x != id { assert Listed(n, w, x, timers[x].link); }
    }
  }

  lemma ListsDelete(n: nat, w: Slots, timers: map<TimerId, Timer>, id: TimerId)
    requires Lists(n, w, timers) && id in timers && timers[id].link.Linked?
    ensures var k := timers[id].link;
            && k.level < LEVEL_DEPTH && k.slot < n
            && |Without(w[k.level][k.slot], id)| == |w[k.level][k.slot]| - 1
            && Lists(n, Put(n, w, k.level, k.slot, Without(w[k.level][k.slot], id)),
                     timers[id := timers[id].(link := Unlinked)])
  {
    var k := timers[id].link;
    assert Listed(n, w, id, k) && SlotLists(timers, k.level, k.slot, w[k.level][k.slot]);
    WithoutMembers(w[k.level][k.slot], id);
    var w' := Put(n, w, k.level, k.slot, Without(w[k.level][k.slot], id));
    var timers' := timers[id := timers[id].(link := Unlinked)];
    forall l: nat, s: nat | l < LEVEL_DEPTH && s < n ensures SlotLists(timers', l, s, w'[l][s]) {
      assert SlotLists(timers, l, s, w[l][s]);
    }
    forall x | x in timers' ensures Listed(n, w', x, timers'[x].link) {
      if x != id { assert Listed(n, w, x, timers[x].link); }
    }
  }

  lemma ListsResetting(n: nat, w: Slots, timers: map<TimerId, Timer>, id: TimerId, t: Timer)
    requires Lists(n, w, timers) && t.link == (if id in timers then timers[id].link else Unlinked)
    ensures Lists(n, w, timers[id := t])
  {
    var timers' := timers[id := t];
    forall l: nat, s: nat | l < LEVEL_DEPTH && s < n ensures SlotLists(timers', l, s, w[l][s]) {
      assert SlotLists(timers, l, s, w[l][s]);
    }
    forall x | x in timers' ensures Listed(n, w, x, timers'[x].link) {
      if x in timers { assert Listed(n, w, x, timers[x].link); }
    }
  }

  // ----- turns -----

  /** Turn counters of the two levels, and the level whose current slot is being drained, if any. */
  datatype Turns = Turns(t0: nat, t1: nat, draining: nat)

  /** A pending timer's record agrees with its turn and its expiry. */
  predicate OnTurn(n: nat, ts: Turns, t: Timer, turn: nat, e: nat)
    requires n >= 2
  {
    t.link.Linked? ==>
      && t.link.level < LEVEL_DEPTH && t.link.slot == turn % n && 1 <= t.delay < TIMER_MAX_TICKS
      && (t.link.level == 0 ==>
            && t.left == 0 && e == turn && turn < ts.t0 + n
            && (if ts.draining == 0 then ts.t0 <= turn else ts.t0 < turn)
            && (t.delay >= n ==> t.link.slot != 0))
      && (t.link.level == 1 ==>
            && t.delay >= n && t.left <= 2 * n - 2 && e == turn * n + t.left && turn < ts.t1 + n
            && (if ts.draining == 1 then ts.t1 <= turn else ts.t1 < turn))
  }

  /** Each cursor is the turn counter of its level, modulo the size. */
  predicate CursorsAt(n: nat, cursors: seq<nat>, ts: Turns) {
    n >= 2 && cursors == [ts.t0 % n, ts.t1 % n]
  }

  predicate SizeOk(n: nat) {
    n >= 2 && n * n > TIMER_MAX_TICKS && 2 * n <= TIMER_MAX_TICKS + 1
  }

  /** The expiry map is that of the linked records. */
  ghost predicate Armed(n: nat, ts: Turns, timers: map<TimerId, Timer>, turn: map<TimerId, nat>,
                        expiry: map<TimerId, nat>)
    requires n >= 2
  {
    && (forall id :: id in timers && timers[id].link.Linked? ==>
          id in turn && id in expiry && OnTurn(n, ts, timers[id], turn[id], expiry[id]))
    && (forall id :: id in expiry ==> id in timers && timers[id].link.Linked?)
  }

  lemma ArmedAdd(n: nat, ts: Turns, timers: map<TimerId, Timer>, turn: map<TimerId, nat>, expiry: map<TimerId, nat>,
                 id: TimerId, t: Timer, tn: nat, e: nat)
    requires n >= 2 && Armed(n, ts, timers, turn, expiry) && t.link.Linked? && OnTurn(n, ts, t, tn, e)
    ensures Armed(n, ts, timers[id := t], turn[id := tn], expiry[id := e])
  {
  }

  lemma ArmedResetting(n: nat, ts: Turns, timers: map<TimerId, Timer>, turn: map<TimerId, nat>,
                       expiry: map<TimerId, nat>, id: TimerId, t: Timer)
    requires n >= 2 && Armed(n, ts, timers, turn, expiry) && t.link == Unlinked && id !in expiry
    ensures Armed(n, ts, timers[id := t], turn, expiry)
  {
  }

  lemma ArmedDelete(n: nat, ts: Turns, timers: map<TimerId, Timer>, turn: map<TimerId, nat>, expiry: map<TimerId, nat>,
                    id: TimerId, t: Timer)
    requires n >= 2 && Armed(n, ts, timers, turn, expiry) && t.link == Unlinked
    ensures Armed(n, ts, timers[id := t], turn, expiry - {id})
  {
  }

  /** Every pending timer is on turn under other counters too. */
  ghost predicate OnTurns(n: nat, ts: Turns, timers: map<TimerId, Timer>, turn: map<TimerId, nat>,
                          expiry: map<TimerId, nat>)
    requires n >= 2
  {
    forall id :: id in timers && timers[id].link.Linked? && id in turn && id in expiry ==>
      OnTurn(n, ts, timers[id], turn[id], expiry[id])
  }

  lemma ArmedTurns(n: nat, ts: Turns, next: Turns, timers: map<TimerId, Timer>, turn: map<TimerId, nat>,
                   expiry: map<TimerId, nat>)
    requires n >= 2 && Armed(n, ts, timers, turn, expiry) && OnTurns(n, next, timers, turn, expiry)
    ensures Armed(n, next, timers, turn, expiry)
  {
    hide OnTurn;
  }

  /** The tick at which a timer armed now with delay `d` expires, from the two turn counters and cursor 0. */
  function ArmedFor(n: nat, t0: nat, t1: nat, cursor0: nat, d: nat): nat {
    if d < n then t0 + d else t1 * n + cursor0 + d
  }

  /**
   On a carry tick, while level 0 is drained and cursor 1 has not yet moved, it is d ticks from now exactly
   when d is below the wheel size; a longer delay comes out a whole lap early.
   */
  lemma ArmedOnCarry(n: nat, t0: nat, t1: nat, d: nat)
    requires n >= 2 && t0 == (t1 + 1) * n
    ensures ArmedFor(n, t0, t1, 0, d) == t0 + d <==> d < n
    ensures d >= n ==> ArmedFor(n, t0, t1, 0, d) == t0 + d - n
  {
    assert (t1 + 1) * n == t1 * n + n;
  }

  /** The record of a timer placed `off` slots ahead of the cursor of its level. */
  function PlacedRecord(n: nat, ts: Turns, t: Timer, level: nat, off: nat): Timer
    requires n > 0
  {
    if level == 0 then t.(left := 0, link := Linked(0, (ts.t0 % n + off) % n))
    else t.(left := t.delay % n + ts.t0 % n, link := Linked(1, (ts.t1 % n + off) % n))
  }

  /** Placement on level 1: the turn, the remainder and the slot of a delay of at least one lap. */
  lemma PlaceHigh(n: nat, ts: Turns, t: Timer)
    requires SizeOk(n) && n <= t.delay < TIMER_MAX_TICKS
    ensures var off := t.delay / n;
            && 1 <= off
            && OnTurn(n, ts, PlacedRecord(n, ts, t, 1, off), ts.t1 + off, ArmedFor(n, ts.t0, ts.t1, ts.t0 % n, t.delay))
            && PlacedRecord(n, ts, t, 1, off).link.slot != ts.t1 % n
  {
    var d := t.delay;
    LapBound(d, n);
    DivMod(d, n);
    DivMod(ts.t0, n);
    ModAdd(ts.t1, d / n, n);
    if (ts.t1 + d / n) % n == ts.t1 % n { SameSlot(ts.t1, ts.t1 + d / n, n); }
    assert (ts.t1 + d / n) * n == ts.t1 * n + (d / n) * n;
  }

  /** Placement on level 0: the turn is the expiry itself. */
  lemma PlaceLow(n: nat, ts: Turns, t: Timer)
    requires SizeOk(n) && 1 <= t.delay < n && t.delay < TIMER_MAX_TICKS
    ensures OnTurn(n, ts, PlacedRecord(n, ts, t, 0, t.delay), ts.t0 + t.delay, ts.t0 + t.delay)
    ensures PlacedRecord(n, ts, t, 0, t.delay).link.slot != ts.t0 % n
  {
    ModAdd(ts.t0, t.delay, n);
    if (ts.t0 + t.delay) % n == ts.t0 % n { SameSlot(ts.t0, ts.t0 + t.delay, n); }
  }

  /** The record of a dropped timer: next lap on level 1 if a whole lap is left, else level 0. */
  function DroppedRecord(n: nat, ts: Turns, t: Timer): Timer
    requires n > 0
  {
    if t.left >= n then t.(left := t.left % n, link := Linked(1, (ts.t1 % n + t.left / n) % n))
    else t.(left := 0, link := Linked(0, (ts.t0 % n + t.left) % n))
  }

  lemma DropPlace(n: nat, ts: Turns, t: Timer, turn: nat, e: nat)
    requires SizeOk(n) && OnTurn(n, ts, t, turn, e) && t.link.Linked? && t.link.level == 1 && t.left > 0
    requires turn == ts.t1 && ts.t0 == turn * n
    ensures var r := DroppedRecord(n, ts, t);
            var tn := if t.left >= n then ts.t1 + t.left / n else ts.t0 + t.left;
            && OnTurn(n, ts, r, tn, e)
            && (t.left >= n ==> t.left / n == 1 && r.link.slot != ts.t1 % n)
            && (t.left < n ==> t.left / n == 0 && r.link.slot != ts.t0 % n)
  {
    if t.left >= n {
      DivModUnique(t.left, n, 1, t.left - n);
      ModAdd(ts.t1, 1, n);
      if (ts.t1 + 1) % n == ts.t1 % n { SameSlot(ts.t1, ts.t1 + 1, n); }
      assert (ts.t1 + 1) * n == ts.t1 * n + n;
    } else {
      DivModUnique(t.left, n, 0, t.left);
      DivModUnique(ts.t0, n, turn, 0);
      DivModUnique(ts.t0 + t.left, n, turn, t.left);
    }
  }

  lemma LevelTicksValues(n: nat)
    ensures LevelTicks(n, 0) == 1 && LevelTicks(n, 1) == n
  {
  }

  // ----- the state and its steps -----

  /** The wheel, with the turn counters and the turn and expiry of each pending timer beside it. */
  datatype State = State(n: nat, cursors: seq<nat>, slots: Slots, timers: map<TimerId, Timer>,
                         turns: Turns, turn: map<TimerId, nat>, expiry: map<TimerId, nat>)

  ghost predicate Inv(st: State) {
    && SizeOk(st.n) && CursorsAt(st.n, st.cursors, st.turns) && Lists(st.n, st.slots, st.timers)
    && Armed(st.n, st.turns, st.timers, st.turn, st.expiry)
  }

  predicate InRange(st: State) {
    |st.cursors| == LEVEL_DEPTH && st.cursors[0] < st.n && st.cursors[1] < st.n && Sized(st.n, st.slots)
  }

  /** How many timers the slot under a cursor lists. */
  function Waiting(st: State, level: nat): nat
    requires InRange(st) && level < LEVEL_DEPTH
  {
    |st.slots[level][st.cursors[level]]|
  }

  predicate IsPending(st: State, id: TimerId) {
    id in st.timers && st.timers[id].link.Linked?
  }

  predicate InSlot(n: nat, k: Link) {
    k.Linked? && k.level < LEVEL_DEPTH && k.slot < n
  }

  /** `list_add_tail` of `id`, whose record becomes `t`, coming up at turn `tn` of its level and at tick `e`. */
  function LinkAt(st: State, id: TimerId, t: Timer, tn: nat, e: nat): State
    requires InRange(st) && InSlot(st.n, t.link)
  {
    var k := t.link;
    st.(slots := Put(st.n, st.slots, k.level, k.slot, st.slots[k.level][k.slot] + [id]),
        timers := st.timers[id := t], turn := st.turn[id := tn], expiry := st.expiry[id := e])
  }

  /** `list_del`. */
  function Unlink(st: State, id: TimerId): State
    requires InRange(st) && id in st.timers && InSlot(st.n, st.timers[id].link)
  {
    var k := st.timers[id].link;
    st.(slots := Put(st.n, st.slots, k.level, k.slot, Without(st.slots[k.level][k.slot], id)),
        timers := st.timers[id := st.timers[id].(link := Unlinked)], expiry := st.expiry - {id})
  }

  lemma InvRange(st: State)
    requires Inv(st)
    ensures InRange(st) && st.n >= 2
    ensures forall id :: IsPending(st, id) ==> InSlot(st.n, st.timers[id].link) && id in st.expiry
    ensures forall id :: id in st.expiry ==> IsPending(st, id)
  {
    DivMod(st.turns.t0, st.n);
    DivMod(st.turns.t1, st.n);
    forall id | IsPending(st, id) ensures InSlot(st.n, st.timers[id].link) && id in st.expiry {
      assert Listed(st.n, st.slots, id, st.timers[id].link);
    }
  }

  lemma LinkInv(st: State, id: TimerId, t: Timer, tn: nat, e: nat)
    requires Inv(st) && id in st.timers && !IsPending(st, id) && InRange(st) && InSlot(st.n, t.link)
    requires OnTurn(st.n, st.turns, t, tn, e)
    ensures Inv(LinkAt(st, id, t, tn, e))
  {
    assert st.n >= 2;
    hide SizeOk, CursorsAt, OnTurn;
    ListsAdd(st.n, st.slots, st.timers, id, t);
    ArmedAdd(st.n, st.turns, st.timers, st.turn, st.expiry, id, t, tn, e);
    hide Lists, Armed;
  }

  lemma UnlinkInv(st: State, id: TimerId)
    requires Inv(st) && IsPending(st, id) && InRange(st) && InSlot(st.n, st.timers[id].link)
    ensures Inv(Unlink(st, id))
  {
    assert st.n >= 2;
    hide SizeOk, CursorsAt, OnTurn;
    ListsDelete(st.n, st.slots, st.timers, id);
    ArmedDelete(st.n, st.turns, st.timers, st.turn, st.expiry, id, st.timers[id].(link := Unlinked));
    hide Lists, Armed;
  }

  /** Unlinking a timer from the slot under a cursor leaves one fewer there. */
  lemma UnlinkWaiting(st: State, id: TimerId, level: nat)
    requires Inv(st) && IsPending(st, id) && InRange(st) && level < LEVEL_DEPTH
    requires st.timers[id].link == Linked(level, st.cursors[level])
    ensures Waiting(Unlink(st, id), level) == Waiting(st, level) - 1
  {
    ListsDelete(st.n, st.slots, st.timers, id);
  }

  lemma LinkWaiting(st: State, id: TimerId, t: Timer, tn: nat, e: nat)
    requires InRange(st) && InSlot(st.n, t.link) && t.link.slot != st.cursors[t.link.level]
    ensures forall level :: 0 <= level < LEVEL_DEPTH ==> Waiting(LinkAt(st, id, t, tn, e), level) == Waiting(st, level)
  {
  }

  /** Where to link a timer: its new record, the turn it waits for, and the tick at which it expires. */
  datatype Choice = Choice(record: Timer, turn: nat, expiry: nat)

  ghost predicate GoodChoice(n: nat, ts: Turns, t: Timer, c: Choice)
    requires n >= 2
  {
    && OnTurn(n, ts, c.record, c.turn, c.expiry) && InSlot(n, c.record.link)
    && c.record.delay == t.delay && c.record.isPeriod == t.isPeriod
    && c.record.link.slot != (if c.record.link.level == 0 then ts.t0 % n else ts.t1 % n)
  }

  /** Linking a timer that was not pending keeps the invariant, the settings, and both current slots. */
  lemma LinkKeeps(st: State, id: TimerId, c: Choice)
    requires Inv(st) && id in st.timers && !IsPending(st, id) && InRange(st) && st.n >= 2
    requires GoodChoice(st.n, st.turns, st.timers[id], c)
    ensures InSlot(st.n, c.record.link)
    ensures var r := LinkAt(st, id, c.record, c.turn, c.expiry);
            && Inv(r) && InRange(r) && SettingsOf(r.timers) == SettingsOf(st.timers)
            && forall level :: 0 <= level < LEVEL_DEPTH ==> Waiting(r, level) == Waiting(st, level)
  {
    LinkInv(st, id, c.record, c.turn, c.expiry);
    LinkWaiting(st, id, c.record, c.turn, c.expiry);
    SettingsKept(st.timers, id, c.record);
  }

  function PlaceChoice(n: nat, ts: Turns, t: Timer): (c: Choice)
    requires n >= 2
    ensures InSlot(n, c.record.link)
  {
    DivMod(ts.t0 % n + t.delay, n);
    DivMod(ts.t1 % n + t.delay / n, n);
    var level := if t.delay < n then 0 else 1;
    var off := if level == 0 then t.delay else t.delay / n;
    Choice(PlacedRecord(n, ts, t, level, off), (if level == 0 then ts.t0 else ts.t1) + off,
           ArmedFor(n, ts.t0, ts.t1, ts.t0 % n, t.delay))
  }

  lemma PlaceChoiceGood(n: nat, ts: Turns, t: Timer)
    requires SizeOk(n) && 1 <= t.delay < TIMER_MAX_TICKS
    ensures GoodChoice(n, ts, t, PlaceChoice(n, ts, t))
  {
    if t.delay < n { PlaceLow(n, ts, t); } else { PlaceHigh(n, ts, t); }
  }

  function DropChoice(n: nat, ts: Turns, t: Timer, e: nat): (c: Choice)
    requires n >= 2
    ensures InSlot(n, c.record.link)
  {
    DivMod(ts.t0 % n + t.left, n);
    DivMod(ts.t1 % n + t.left / n, n);
    Choice(DroppedRecord(n, ts, t), if t.left >= n then ts.t1 + t.left / n else ts.t0 + t.left, e)
  }

  lemma DropChoiceGood(n: nat, ts: Turns, t: Timer, turn: nat, e: nat)
    requires SizeOk(n) && OnTurn(n, ts, t, turn, e) && t.link.Linked? && t.link.level == 1 && t.left > 0
    requires turn == ts.t1 && ts.t0 == turn * n
    ensures GoodChoice(n, ts, t, DropChoice(n, ts, t, e))
  {
    DropPlace(n, ts, t, turn, e);
  }

  lemma SettingsKept(timers: map<TimerId, Timer>, id: TimerId, t: Timer)
    requires id in timers && t.delay == timers[id].delay && t.isPeriod == timers[id].isPeriod
    ensures SettingsOf(timers[id := t]) == SettingsOf(timers)
  {
  }

  /** Slot (l, s) of the wheel lists the timer. */
  predicate InSlotList(st: State, id: TimerId, l: nat, s: nat) {
    Sized(st.n, st.slots) && l < LEVEL_DEPTH && s < st.n && id in st.slots[l][s]
  }

  /**
   In every reachable state a pending timer is listed in exactly one slot of one wheel, once, and an idle one in
   none; on level 0 nothing is left of its delay.
   */
  lemma OneSlotEach(st: State, id: TimerId, l: nat, s: nat)
    requires Inv(st) && id in st.timers
    ensures InSlotList(st, id, l, s) <==> st.timers[id].link == Linked(l, s)
    ensures InSlotList(st, id, l, s) ==> NoRepeat(st.slots[l][s]) && id in st.expiry
    ensures InSlotList(st, id, l, s) && l == 0 ==> st.timers[id].left == 0
  {
    assert Listed(st.n, st.slots, id, st.timers[id].link);
    if InSlotList(st, id, l, s) { assert SlotLists(st.timers, l, s, st.slots[l][s]); }
  }
}
