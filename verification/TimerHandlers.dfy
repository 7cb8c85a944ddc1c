/**
 Ticks whose handlers call the timer interface themselves.  The order in which due timers are served now matters,
 because a handler may cancel a timer that has not been served yet; the specification therefore follows the order
 served, and says which timers it must contain.

 On a carry tick level 0 is drained before cursor 1 moves.  A timer armed in that part with a delay of at least one
 lap comes up a whole lap early, so such a tick has two parts: one with a `lap`, and one without.
 */
module TimerHandlers {
  import opened Sequences
  import opened TimerSpec

  /** What a handler asks of the wheel. A request to start a pending timer is not made. */
  datatype Request =
    | Start(id: TimerId, tv: Timeval, isPeriod: bool)
    | Stop(id: TimerId)
    | Reset(id: TimerId)
    | Update(id: TimerId, tv: Timeval)

  /** A handler's requests, in order, and whether it answers that its own timer is to stop. */
  datatype Handler = Handler(requests: seq<Request>, stop: bool)

  type Handlers = map<TimerId, Handler>

  function HandlerOf(hs: Handlers, id: TimerId): Handler { if id in hs then hs[id] else Handler([], false) }

  /** The delay comes out as asked for: there is no lap to lose, or the delay is below it, or it is refused. */
  predicate Exact(ticks: Tick32, lap: nat) { !(0 < lap <= ticks < TIMER_MAX_TICKS) }

  /** Arming, a lap early if the delay reaches the lap. */
  function ArmLap(c: Clock, id: TimerId, ticks: Tick32, isPeriod: bool, lap: nat): Clock {
    var a := Arm(c, id, ticks, isPeriod);
    if Exact(ticks, lap) then a else a.(expiry := c.expiry[id := c.now + ticks - lap])
  }

  /** Cancel and arm anew, with the period flag of before; nothing for a timer that was never scheduled. */
  function ArmAnew(c: Clock, id: TimerId, ticks: Tick32, lap: nat): Clock {
    if id in c.settings then ArmLap(Disarm(c, id), id, ticks, c.settings[id].isPeriod, lap) else c
  }

  function Ask(c: Clock, r: Request, lap: nat): Clock {
    match r
    case Start(id, tv, isPeriod) =>
      if id in c.expiry || tv.sec >= TIMER_MAX_SECS then c else ArmLap(c, id, TimevalToTicks(tv), isPeriod, lap)
    case Stop(id) => Disarm(c, id)
    case Reset(id) => if id in c.settings then ArmAnew(c, id, c.settings[id].delay, lap) else c
    case Update(id, tv) => ArmAnew(c, id, TimevalToTicks(tv), lap)
  }

  function AskAll(c: Clock, requests: seq<Request>, lap: nat): Clock {
    if requests == [] then c
    else Ask(AskAll(c, requests[..|requests| - 1], lap), requests[|requests| - 1], lap)
  }

  /**
   A timer fires: it is unlinked, its handler runs, and it is armed again if it is periodic by then, exactly its
   delay from now.
   */
  function Fire(c: Clock, id: TimerId, h: Handler, lap: nat): Clock {
    var d := AskAll(Disarm(c, id), h.requests, lap);
    if !h.stop && id in d.settings && d.settings[id].isPeriod then Arm(d, id, d.settings[id].delay, true) else d
  }

  function FireAll(c: Clock, order: seq<TimerId>, hs: Handlers, lap: nat): Clock {
    if order == [] then c
    else
      var last := order[|order| - 1];
      Fire(FireAll(c, order[..|order| - 1], hs, lap), last, HandlerOf(hs, last), lap)
  }

  /** The timer is due, and if a lap is in force it was armed with a delay below it. */
  predicate IsDue(c: Clock, id: TimerId, lap: nat) {
    && id in c.expiry && c.expiry[id] == c.now
    && (lap > 0 ==> id in c.settings && c.settings[id].delay < lap)
  }

  /** Each timer served is due when its turn comes. */
  predicate DueInTurn(c: Clock, order: seq<TimerId>, hs: Handlers, lap: nat) {
    order == [] ||
    var front, last := order[..|order| - 1], order[|order| - 1];
    DueInTurn(c, front, hs, lap) && IsDue(FireAll(c, front, hs, lap), last, lap)
  }

  /** One part of a tick, from `c` to `d`, serves `order` and leaves nothing due. */
  ghost predicate Part(c: Clock, order: seq<TimerId>, hs: Handlers, lap: nat, d: Clock) {
    DueInTurn(c, order, hs, lap) && d == FireAll(c, order, hs, lap) && forall id :: !IsDue(d, id, lap)
  }

  function Begin(c: Clock): Clock { c.(now := c.now + 1) }

  ghost predicate AllLater(c: Clock) { forall id :: id in c.expiry ==> c.expiry[id] > c.now }

  /** One tick from `c` to `d`: a first part in which a lap may be lost, and a second in which none is. */
  ghost predicate LapTick(c: Clock, hs: Handlers, first: seq<TimerId>, second: seq<TimerId>, d: Clock, lap: nat) {
    var m := FireAll(Begin(c), first, hs, lap);
    Part(Begin(c), first, hs, lap, m) && Part(m, second, hs, 0, d) && AllLater(d)
  }

  /** A tick in which no lap is lost. */
  ghost predicate TickTo(c: Clock, hs: Handlers, order: seq<TimerId>, d: Clock) {
    Part(Begin(c), order, hs, 0, d) && AllLater(d)
  }

  /** No handler asks for its own timer as periodic, or anew, without answering that it is to stop. */
  predicate AllTidy(hs: Handlers) { forall id :: id in hs ==> Tidy(hs[id], id) }

  predicate Tidy(h: Handler, id: TimerId) {
    h.stop || forall i :: 0 <= i < |h.requests| && h.requests[i].id == id ==> Modest(h.requests[i])
  }

  predicate Modest(r: Request) { r.Stop? || (r.Start? && !r.isPeriod) }

  // ----- who fires -----

  /** A request other than a start changes when the timer fires. */
  predicate Moves(r: Request, id: TimerId) { !r.Start? && r.id == id }

  /** Whatever is asked comes up later, or not in this part of the tick. */
  lemma AskKeeps(c: Clock, r: Request, id: TimerId, lap: nat)
    ensures Ask(c, r, lap).now == c.now
    ensures IsDue(Ask(c, r, lap), id, lap) ==> IsDue(c, id, lap)
    ensures id in c.expiry && !Moves(r, id) ==>
              id in Ask(c, r, lap).expiry && Ask(c, r, lap).expiry[id] == c.expiry[id]
  {
  }

  predicate MovedBy(requests: seq<Request>, id: TimerId) {
    exists i :: 0 <= i < |requests| && Moves(requests[i], id)
  }

  lemma {:induction false} AskAllKeeps(c: Clock, requests: seq<Request>, id: TimerId, lap: nat)
    ensures AskAll(c, requests, lap).now == c.now
    ensures IsDue(AskAll(c, requests, lap), id, lap) ==> IsDue(c, id, lap)
    ensures id in c.expiry && !MovedBy(requests, id) ==>
              id in AskAll(c, requests, lap).expiry && AskAll(c, requests, lap).expiry[id] == c.expiry[id]
  {
    if requests != [] {
      hide Ask, IsDue, Moves;
      var front, last := requests[..|requests| - 1], requests[|requests| - 1];
      AskAllKeeps(c, front, id, lap);
      AskKeeps(AskAll(c, front, lap), last, id, lap);
      assert forall i :: 0 <= i < |front| ==> front[i] == requests[i];
    }
  }

  /** The timer that fires is not due again in the same part of the tick, and no other becomes due. */
  lemma FireKeeps(c: Clock, id: TimerId, h: Handler, other: TimerId, lap: nat)
    ensures Fire(c, id, h, lap).now == c.now
    ensures IsDue(Fire(c, id, h, lap), other, lap) ==> IsDue(c, other, lap) && other != id
    ensures other in c.expiry && other != id && !MovedBy(h.requests, other) ==>
              other in Fire(c, id, h, lap).expiry && Fire(c, id, h, lap).expiry[other] == c.expiry[other]
  {
    AskAllKeeps(Disarm(c, id), h.requests, other, lap);
    hide AskAll, MovedBy;
  }

  /** The timers served in one part are distinct and were all due when it began. */
  lemma {:induction false} ServedOnce(c: Clock, order: seq<TimerId>, hs: Handlers, lap: nat)
    requires DueInTurn(c, order, hs, lap)
    ensures FireAll(c, order, hs, lap).now == c.now && NoRepeat(order)
    ensures forall id :: id in order ==> IsDue(c, id, lap) && !IsDue(FireAll(c, order, hs, lap), id, lap)
    ensures forall id :: IsDue(FireAll(c, order, hs, lap), id, lap) ==> IsDue(c, id, lap)
  {
    if order != [] {
      hide Fire, IsDue;
      var front, last := order[..|order| - 1], order[|order| - 1];
      ServedOnce(c, front, hs, lap);
      var d := FireAll(c, front, hs, lap);
      forall id ensures IsDue(FireAll(c, order, hs, lap), id, lap) ==> IsDue(d, id, lap) && id != last {
        FireKeeps(d, last, HandlerOf(hs, last), id, lap);
      }
      FireKeeps(d, last, HandlerOf(hs, last), last, lap);
      assert order == front + [last];
      Snoc(front, last);
    }
  }

  /** Some handler served in this tick cancels, resets or updates the timer. */
  predicate Cancelled(order: seq<TimerId>, hs: Handlers, id: TimerId) {
    exists i :: 0 <= i < |order| && MovedBy(HandlerOf(hs, order[i]).requests, id)
  }

  lemma {:induction false} Untouched(c: Clock, order: seq<TimerId>, hs: Handlers, id: TimerId, lap: nat)
    requires id in c.expiry && id !in order && !Cancelled(order, hs, id)
    ensures id in FireAll(c, order, hs, lap).expiry && FireAll(c, order, hs, lap).expiry[id] == c.expiry[id]
  {
    if order != [] {
      var front, last := order[..|order| - 1], order[|order| - 1];
      assert forall i :: 0 <= i < |front| ==> front[i] == order[i];
      assert order[|order| - 1] == last;
      Untouched(c, front, hs, id, lap);
      hide Fire, MovedBy;
      FireKeeps(FireAll(c, front, hs, lap), last, HandlerOf(hs, last), id, lap);
    }
  }

  /**
   In a tick with any handlers, a timer that none of them cancels, resets or updates fires if and only if the tick
   is its expiry, and otherwise keeps its expiry.
   */
  lemma FiresInTick(c: Clock, hs: Handlers, order: seq<TimerId>, d: Clock, id: TimerId)
    requires TickTo(c, hs, order, d) && id in c.expiry && !Cancelled(order, hs, id)
    ensures NoRepeat(order)
    ensures id in order <==> c.expiry[id] == c.now + 1
    ensures id !in order ==> id in d.expiry && d.expiry[id] == c.expiry[id]
  {
    hide Fire, Cancelled;
    ServedOnce(Begin(c), order, hs, 0);
    if id !in order { Untouched(Begin(c), order, hs, id, 0); }
  }

  // ----- ticks in which no lap is lost -----

  /** The request loses no lap, if timers have the given settings when it is made. */
  predicate Short(settings: map<TimerId, Setting>, r: Request, lap: nat) {
    match r
    case Stop(_) => true
    case Reset(id) => id in settings ==> Exact(settings[id].delay, lap)
    case _ => Exact(TimevalToTicks(r.tv), lap)
  }

  predicate AllShort(settings: map<TimerId, Setting>, hs: Handlers, lap: nat) {
    forall id :: id in hs ==> ShortHandler(settings, hs[id], lap)
  }

  predicate ShortHandler(settings: map<TimerId, Setting>, h: Handler, lap: nat) {
    forall i :: 0 <= i < |h.requests| ==> Short(settings, h.requests[i], lap)
  }

  /** Delays are those of the beginning, or exact. */
  predicate Within(start: map<TimerId, Setting>, now: map<TimerId, Setting>, lap: nat) {
    forall id :: id in now ==> Exact(now[id].delay, lap) || (id in start && now[id].delay == start[id].delay)
  }

  lemma AskShort(start: map<TimerId, Setting>, c: Clock, r: Request, lap: nat)
    requires Within(start, c.settings, lap) && Short(start, r, lap) && lap != 1
    ensures Ask(c, r, lap) == Ask(c, r, 0) && Within(start, Ask(c, r, lap).settings, lap)
  {
    hide TimevalToTicks;
  }

  lemma {:induction false} AskAllShort(start: map<TimerId, Setting>, c: Clock, h: Handler, lap: nat, i: nat)
    requires Within(start, c.settings, lap) && ShortHandler(start, h, lap) && lap != 1 && i <= |h.requests|
    ensures AskAll(c, h.requests[..i], lap) == AskAll(c, h.requests[..i], 0)
    ensures Within(start, AskAll(c, h.requests[..i], lap).settings, lap)
  {
    if i > 0 {
      hide Ask, Short, Within;
      AskAllShort(start, c, h, lap, i - 1);
      assert h.requests[..i][..i - 1] == h.requests[..i - 1];
      AskShort(start, AskAll(c, h.requests[..i - 1], lap), h.requests[i - 1], lap);
    }
  }

  lemma FireShort(start: map<TimerId, Setting>, c: Clock, id: TimerId, h: Handler, lap: nat)
    requires Within(start, c.settings, lap) && ShortHandler(start, h, lap) && lap != 1
    ensures Fire(c, id, h, lap) == Fire(c, id, h, 0) && Within(start, Fire(c, id, h, lap).settings, lap)
  {
    AskAllShort(start, Disarm(c, id), h, lap, |h.requests|);
    assert h.requests[..|h.requests|] == h.requests;
    hide AskAll, ShortHandler;
  }

  lemma {:induction false} FireAllShort(start: map<TimerId, Setting>, c: Clock, order: seq<TimerId>, hs: Handlers,
                                        lap: nat)
    requires Within(start, c.settings, lap) && AllShort(start, hs, lap) && lap != 1
    ensures FireAll(c, order, hs, lap) == FireAll(c, order, hs, 0)
    ensures Within(start, FireAll(c, order, hs, lap).settings, lap)
    ensures DueInTurn(c, order, hs, lap) ==> DueInTurn(c, order, hs, 0)
  {
    if order != [] {
      var front, last := order[..|order| - 1], order[|order| - 1];
      FireAllShort(start, c, front, hs, lap);
      assert ShortHandler(start, HandlerOf(hs, last), lap);
      hide Fire, Within, ShortHandler;
      FireShort(start, FireAll(c, front, hs, lap), last, HandlerOf(hs, last), lap);
    }
  }

  lemma {:induction false} PartsJoin(c: Clock, first: seq<TimerId>, second: seq<TimerId>, hs: Handlers)
    requires DueInTurn(c, first, hs, 0) && DueInTurn(FireAll(c, first, hs, 0), second, hs, 0)
    ensures DueInTurn(c, first + second, hs, 0)
    ensures FireAll(c, first + second, hs, 0) == FireAll(FireAll(c, first, hs, 0), second, hs, 0)
  {
    if second == [] {
      assert first + second == first;
    } else {
      hide Fire, IsDue;
      var front, last := second[..|second| - 1], second[|second| - 1];
      PartsJoin(c, first, front, hs);
      assert (first + second)[..|first + second| - 1] == first + front;
    }
  }

  /** A tick in which no delay reaches the lap is one in which none is lost. */
  lemma ExactTick(c: Clock, hs: Handlers, first: seq<TimerId>, second: seq<TimerId>, d: Clock, lap: nat)
    requires LapTick(c, hs, first, second, d, lap) && AllShort(c.settings, hs, lap) && lap != 1
    ensures TickTo(c, hs, first + second, d)
  {
    hide FireAll, DueInTurn, AllShort;
    FireAllShort(c.settings, Begin(c), first, hs, lap);
    PartsJoin(Begin(c), first, second, hs);
  }

  // ----- handlers that only answer -----

  function Answers(stops: set<TimerId>): Handlers { map id | id in stops :: Handler([], true) }

  lemma AnswersPlain(stops: set<TimerId>, settings: map<TimerId, Setting>, lap: nat)
    ensures AllTidy(Answers(stops)) && AllShort(settings, Answers(stops), lap)
    ensures forall id :: HandlerOf(Answers(stops), id) == Handler([], id in stops)
  {
  }

  lemma FirePlain(c: Clock, id: TimerId, stop: bool)
    ensures Fire(c, id, Handler([], stop), 0)
         == if !stop && id in c.settings && c.settings[id].isPeriod
            then Arm(Disarm(c, id), id, c.settings[id].delay, true) else Disarm(c, id)
  {
    assert AskAll(Disarm(c, id), [], 0) == Disarm(c, id);
  }

  /** Delays are stored as they were armed: at least one tick, in range for whatever is pending. */
  predicate Stored(c: Clock, id: TimerId) {
    id in c.expiry ==> id in c.settings && 1 <= c.settings[id].delay < TIMER_MAX_TICKS
  }

  lemma SettleOne(c: Clock, fired: set<TimerId>, stops: set<TimerId>, id: TimerId)
    requires var now := Settle(c.expiry, fired, c.now, c.settings, stops); id in now && now[id] == c.now
    requires Stored(c, id) && id !in fired
    ensures Fire(c.(expiry := Settle(c.expiry, fired, c.now, c.settings, stops)), id, Handler([], id in stops), 0)
         == c.(expiry := Settle(c.expiry, fired + {id}, c.now, c.settings, stops))
  {
    var d := c.(expiry := Settle(c.expiry, fired, c.now, c.settings, stops));
    FirePlain(d, id, id in stops);
    hide Fire;
    assert SettingKept(c.settings, id);
    assert Fire(d, id, Handler([], id in stops), 0).expiry
        == Settle(c.expiry, fired + {id}, c.now, c.settings, stops);
  }

  predicate SettingKept(settings: map<TimerId, Setting>, id: TimerId)
    requires id in settings
  {
    settings[id := Setting(settings[id].delay, settings[id].isPeriod)] == settings
  }

  lemma {:induction false} FireAllPlain(c: Clock, order: seq<TimerId>, stops: set<TimerId>)
    requires DueInTurn(c, order, Answers(stops), 0) && forall id :: id in c.expiry ==> Stored(c, id)
    ensures FireAll(c, order, Answers(stops), 0) ==
            c.(expiry := Settle(c.expiry, Elements(order), c.now, c.settings, stops))
  {
    hide Fire, Stored;
    if order == [] {
      assert Settle(c.expiry, {}, c.now, c.settings, stops) == c.expiry;
    } else {
      var front, last := order[..|order| - 1], order[|order| - 1];
      FireAllPlain(c, front, stops);
      ServedOnce(c, order, Answers(stops), 0);
      AnswersPlain(stops, c.settings, 0);
      assert order == front + [last];
      Snoc(front, last);
      assert last in order;
      assert last !in front by { assert forall i :: 0 <= i < |front| ==> front[i] == order[i]; }
      SettleOne(c, Elements(front), stops, last);
    }
  }

  /** With handlers that only answer, the order is immaterial: the tick is the specified one. */
  lemma TickPlain(c: Clock, stops: set<TimerId>, order: seq<TimerId>, d: Clock)
    requires TickTo(c, Answers(stops), order, d) && forall id :: id in c.expiry ==> Stored(c, id)
    ensures d == Tick(c, stops) && NoRepeat(order) && Elements(order) == Due(c.expiry, c.now + 1)
  {
    var b := Begin(c);
    hide Fire;
    FireAllPlain(b, order, stops);
    ServedOnce(b, order, Answers(stops), 0);
    forall id | id in Due(c.expiry, c.now + 1) ensures id in order {
      assert id in order || id in d.expiry;
    }
    assert Elements(order) == Due(c.expiry, c.now + 1);
  }

  /** What a tidy handler leaves of its own timer, if it is still periodic, is as before and not pending. */
  lemma {:induction false} OwnTimer(c: Clock, id: TimerId, requests: seq<Request>, lap: nat)
    requires id !in c.expiry && id in c.settings
    requires forall i :: 0 <= i < |requests| && requests[i].id == id ==> Modest(requests[i])
    ensures var d := AskAll(c, requests, lap);
            id in d.settings && (d.settings[id].isPeriod ==> id !in d.expiry && d.settings[id] == c.settings[id])
  {
    if requests != [] {
      OwnTimer(c, id, requests[..|requests| - 1], lap);
      var last := requests[|requests| - 1];
      assert last.id == id ==> Modest(last);
    }
  }
}
