/**
 Idle time of flows over whole runs: the time kept with a flow is that of the packet that created it or of the last
 update, so that expiry removes exactly the flows that nobody holds and that have been idle for too long.
 */
module FlowActivity {
  import opened FlowTable
  import opened Options
  import opened Words

  /** A packet gets a flow if and only if there is one for its key, or the table has room and memory lasts. */
  lemma GetSucceeds(t: Table, k: Key, now: int, memOk: bool)
    requires Valid(t)
    ensures var r := Get(t, k, now, memOk);
            && (r.1.Some? <==> (exists id :: Owns(t, id, k)) || (t.active < t.maxFlows && memOk))
            && (r.1.Some? ==> Owns(r.0, r.1.value, k))
            && ((exists id :: Owns(t, id, k)) ==> r.0.created == t.created)
  {
    FindInMeaning(t, t.chains[Bucket(t.size, t.hash(k))], k);
    if id :| Owns(t, id, k) { LookupExact(t, k, id); }
    MatchesMeaning(k, k);
    hide Lookup, FindIn;
  }

  /** In every run a flow is listed in the chain of its key's hash modulo the table's size, and in no other. */
  lemma ChainPlace(size: nat, maxFlows: nat, hash: Key -> nat, events: seq<Event>, id: FlowId, b: nat)
    requires size > 0 && id in Run(Empty(size, maxFlows, hash), events).flows && b < size
    ensures var t := Run(Empty(size, maxFlows, hash), events);
            |t.chains| == size && (id in t.chains[b] <==> hash(t.flows[id].key) % size == b)
  {
    EmptyValid(size, maxFlows, hash);
    RunValid(Empty(size, maxFlows, hash), events);
    SameSize(Empty(size, maxFlows, hash), events);
    var t := Run(Empty(size, maxFlows, hash), events);
    assert FlowOk(t, id) && ChainOk(t, b, t.chains[b]);
    hide Run, Counted, NoTwins;
  }

  lemma {:induction false} SameSize(t: Table, events: seq<Event>)
    requires Valid(t)
    ensures Sized(t) && Run(t, events).size == t.size
    decreases |events|
  {
    assert Sized(t);
    if events != [] {
      StepValid(t, events[0]);
      StepSize(t, events[0]);
      hide Valid, Step;
      SameSize(Step(t, events[0]), events[1..]);
    }
  }

  lemma StepSize(t: Table, e: Event)
    requires Sized(t)
    ensures Step(t, e).size == t.size
  {
    hide Lookup, Bucket;
  }

  /** The event names the flow in an update. */
  predicate Updates(e: Event, id: FlowId) { e.Updated? && e.id == id }

  lemma GetKeepsTime(t: Table, k: Key, now: int, memOk: bool, id: FlowId)
    requires Sized(t) && id in t.flows && id < t.created
    ensures var r := Get(t, k, now, memOk).0;
            && id in r.flows && r.flows[id].lastTs == t.flows[id].lastTs && r.flows[id].timeout == t.flows[id].timeout
  {
    hide Lookup, Bucket;
  }

  /** Only an update of the flow itself changes its time or its timeout. */
  lemma StepTime(t: Table, e: Event, id: FlowId)
    requires Valid(t) && id in t.flows && id in Step(t, e).flows && id < t.created
    ensures var f, g := t.flows[id], Step(t, e).flows[id];
            if Updates(e, id) then g.lastTs == e.now && g.timeout == e.timeout
            else g.lastTs == f.lastTs && g.timeout == f.timeout
  {
    assert Sized(t);
    match e
    case Packet(k, now, memOk) => hide Get, Valid; GetKeepsTime(t, k, now, memOk, id);
    case Expiry(now) => hide Cleanup, Valid; CleanupExact(t, now);
    case Released(_) => hide Valid;
    case Updated(_, _, _) => hide Valid;
  }

  /** What a later part of a run does to the time of a flow that exists when it begins. */
  ghost predicate LastUpdate(events: seq<Event>, id: FlowId, i: nat) {
    i < |events| && Updates(events[i], id) && forall j :: i < j < |events| ==> !Updates(events[j], id)
  }

  ghost predicate NeverUpdated(events: seq<Event>, id: FlowId) {
    forall j :: 0 <= j < |events| ==> !Updates(events[j], id)
  }

  lemma {:induction false} KeptTime(t: Table, events: seq<Event>, id: FlowId) returns (i: nat)
    requires Valid(t) && id in t.flows && id < t.created && id in Run(t, events).flows
    ensures var g := Run(t, events).flows[id];
            if i < |events| then
              LastUpdate(events, id, i) && g.lastTs == events[i].now && g.timeout == events[i].timeout
            else NeverUpdated(events, id) && g.lastTs == t.flows[id].lastTs && g.timeout == t.flows[id].timeout
    decreases |events|
  {
    assert Sized(t);
    if events == [] {
      i := 0;
    } else {
      hide Valid, Step, Get, Cleanup;
      var s, rest := Step(t, events[0]), events[1..];
      StepValid(t, events[0]);
      StepCreated(t, events[0]);
      RunPersists(s, rest, id);
      StepTime(t, events[0], id);
      var k := KeptTime(s, rest, id);
      assert forall j :: 0 < j < |events| ==> events[j] == rest[j - 1];
      if k < |rest| {
        i := k + 1;
        assert events[i] == rest[k];
      } else if Updates(events[0], id) {
        i := 0;
      } else {
        i := |events|;
      }
    }
  }

  lemma IdsBelow(t: Table)
    requires Valid(t)
    ensures Sized(t) && forall id :: id in t.flows ==> id < t.created
  {
    assert forall id :: id in t.flows ==> FlowOk(t, id);
  }

  /** Event i created the flow. */
  ghost predicate Creates(t: Table, events: seq<Event>, id: FlowId, i: nat)
    requires Sized(t)
  {
    && i < |events| && events[i].Packet? && Run(t, events[..i]).created == id
    && id in Run(t, events[..i + 1]).flows
  }

  lemma CreatedBy(t: Table, e: Event)
    requires Valid(t)
    ensures Sized(t)
    ensures Step(t, e).created <= t.created + 1
    ensures Step(t, e).created == t.created + 1 ==>
              && e.Packet? && t.created in Step(t, e).flows
              && Step(t, e).flows[t.created].lastTs == e.now && Step(t, e).flows[t.created].timeout == 30
  {
    hide Lookup, Bucket;
  }

  lemma RunPrefix(t: Table, events: seq<Event>, i: nat)
    requires Sized(t) && events != [] && i <= |events| - 1
    ensures Run(t, events[..i + 1]) == Run(Step(t, events[0]), events[1..][..i])
  {
    assert events[..i + 1][0] == events[0] && events[..i + 1][1..] == events[1..][..i];
  }

  /** The time of a flow and its timeout come from event i: the last update that names it, or its creation. */
  ghost predicate SeenAt(t: Table, events: seq<Event>, id: FlowId, i: nat)
    requires Sized(t) && id in Run(t, events).flows
  {
    var g := Run(t, events).flows[id];
    || (LastUpdate(events, id, i) && g.lastTs == events[i].now && g.timeout == events[i].timeout)
    || (Creates(t, events, id, i) && g.lastTs == events[i].now && g.timeout == 30
        && forall j :: i < j < |events| ==> !Updates(events[j], id))
  }

  lemma CreatesLater(t: Table, events: seq<Event>, id: FlowId, k: nat)
    requires Sized(t) && events != [] && Creates(Step(t, events[0]), events[1..], id, k)
    ensures Creates(t, events, id, k + 1)
  {
    hide Step;
    RunPrefix(t, events, k);
    RunPrefix(t, events, k + 1);
  }

  lemma SeenFirst(t: Table, events: seq<Event>, id: FlowId) returns (i: nat)
    requires Valid(t) && Sized(t) && events != [] && id in Run(t, events).flows
    requires t.created <= id < Step(t, events[0]).created
    ensures i < |events| && SeenAt(t, events, id, i)
  {
    hide Valid, Step, Get, Cleanup;
    var s, rest := Step(t, events[0]), events[1..];
    StepValid(t, events[0]);
    CreatedBy(t, events[0]);
    assert Run(t, events[..0]) == t && Run(t, events[..1]) == s by {
      RunPrefix(t, events, 0);
      assert events[..0] == [] && rest[..0] == [];
    }
    var k := KeptTime(s, rest, id);
    assert forall j :: 0 < j < |events| ==> events[j] == rest[j - 1];
    i := if k < |rest| then k + 1 else 0;
  }

  lemma SeenLater(t: Table, events: seq<Event>, id: FlowId, k: nat)
    requires Sized(t) && events != [] && Sized(Step(t, events[0]))
    requires id in Run(t, events).flows && k < |events| - 1
    requires SeenAt(Step(t, events[0]), events[1..], id, k)
    ensures SeenAt(t, events, id, k + 1)
  {
    var s, rest := Step(t, events[0]), events[1..];
    if Creates(s, rest, id, k) { CreatesLater(t, events, id, k); }
    hide Step, Creates;
    assert forall j :: 0 < j < |events| ==> events[j] == rest[j - 1];
  }

  /**
   The time of a flow, and its timeout, are those of the last update that names it; if there is none, the time is
   that of the packet that created it, and the timeout is 30 seconds.
   */
  lemma {:induction false} LastSeen(t: Table, events: seq<Event>, id: FlowId) returns (i: nat)
    requires Valid(t) && t.created <= id && id in Run(t, events).flows
    ensures Sized(t) && i < |events| && SeenAt(t, events, id, i)
    decreases |events|
  {
    IdsBelow(t);
    hide Valid, Step, Get, Cleanup, SeenAt;
    if events == [] {
      assert false;
    } else {
      var s, rest := Step(t, events[0]), events[1..];
      StepValid(t, events[0]);
      CreatedBy(t, events[0]);
      if id < s.created {
        i := SeenFirst(t, events, id);
      } else {
        var k := LastSeen(s, rest, id);
        i := k + 1;
        SeenLater(t, events, id, k);
      }
    }
  }

  /** Expiry after a run: a flow goes if and only if nobody holds it and it has been idle longer than its timeout. */
  lemma IdleRemoved(size: nat, maxFlows: nat, hash: Key -> nat, events: seq<Event>, id: FlowId, now: int)
    returns (i: nat)
    requires size > 0 && id in Run(Empty(size, maxFlows, hash), events).flows
    requires forall j :: 0 <= j < |events| && !events[j].Released? ==>
               events[j].now <= now < events[j].now + 0x1_0000_0000
    ensures var t := Run(Empty(size, maxFlows, hash), events);
            && i < |events| && !events[i].Released? && !events[i].Expiry?
            && (LastUpdate(events, id, i) || Creates(Empty(size, maxFlows, hash), events, id, i))
            && (id !in Cleanup(t, now).flows <==>
                  t.flows[id].useCnt == 0 && now - events[i].now > if events[i].Updated? then events[i].timeout else 30)
  {
    EmptyValid(size, maxFlows, hash);
    hide Valid, Cleanup;
    i := LastSeen(Empty(size, maxFlows, hash), events, id);
    var t := Run(Empty(size, maxFlows, hash), events);
    RunValid(Empty(size, maxFlows, hash), events);
    CleanupExact(t, now);
    AgeExact(t.flows[id], now);
  }
}
