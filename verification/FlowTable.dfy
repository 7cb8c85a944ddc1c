/**
 The flow table: hash chains of flow records with reference counts, lookup that creates, and expiry.
 Flows are found by a directional hash together with a match that is symmetric in the direction.
 */
module FlowTable {
  import opened Chains
  import opened Options
  import opened Sequences
  import opened Words

  type FlowId = nat
  type Address = nat

  datatype Version = IPv4 | IPv6

  /** What a packet shows of its flow, in its own direction. */
  datatype Key = Key(version: Version, proto: nat, src: Address, dst: Address, srcPort: nat, dstPort: nat)

  function Reverse(k: Key): Key {
    k.(src := k.dst, dst := k.src, srcPort := k.dstPort, dstPort := k.srcPort)
  }

  /** `flow_match`: same protocol and version, and the same endpoints in either direction. */
  predicate Matches(a: Key, b: Key) {
    && a.proto == b.proto && a.version == b.version
    && (  (a.src == b.src && a.dst == b.dst && a.srcPort == b.srcPort && a.dstPort == b.dstPort)
       || (a.src == b.dst && a.dst == b.src && a.srcPort == b.dstPort && a.dstPort == b.srcPort))
  }

  /** A match is the key itself or its reverse: an equivalence whose classes have at most two members. */
  lemma MatchesMeaning(a: Key, b: Key)
    ensures Matches(a, b) <==> b == a || b == Reverse(a)
    ensures Matches(a, b) <==> Matches(b, a)
  {
  }

  const TIMEOUT_NEW := 30

  datatype Flow = Flow(key: Key, hash: nat, useCnt: nat, lastTs: int, timeout: nat)

  /** Seconds since the last packet, as a 32-bit number. */
  function AgeOf(f: Flow, now: int): nat { Wrap32(now - f.lastTs) }

  /** Unless the clock has gone back or 2^32 seconds have passed, that is the elapsed time, and only then. */
  lemma AgeExact(f: Flow, now: int)
    ensures AgeOf(f, now) == now - f.lastTs <==> f.lastTs <= now < f.lastTs + 0x1_0000_0000
  {
  }

  predicate Expired(f: Flow, now: int) { f.useCnt == 0 && AgeOf(f, now) > f.timeout }

  /** The chains hold flow ids, as the program's chains hold pointers; `created` numbers the next flow. */
  datatype Table = Table(size: nat, maxFlows: nat, hash: Key -> nat, chains: seq<seq<FlowId>>, flows: map<FlowId, Flow>,
                         created: nat, removed: int, active: int)

  /** Same hash and matching keys: what a lookup takes for one flow. */
  predicate Twins(f: Flow, g: Flow) { f.hash == g.hash && Matches(f.key, g.key) }

  function Total(chains: seq<seq<FlowId>>): nat {
    if chains == [] then 0 else Total(chains[..|chains| - 1]) + |chains[|chains| - 1]|
  }

  function Bucket(size: nat, hash: nat): (b: nat)
    requires size > 0
    ensures b < size
  {
    hash % size
  }

  predicate Sized(t: Table) { t.size > 0 && |t.chains| == t.size }

  /** Each chain lists flows of its own bucket, none twice. */
  ghost predicate ChainOk(t: Table, b: nat, chain: seq<FlowId>)
    requires t.size > 0
  {
    NoRepeat(chain) && forall id :: id in chain ==> id in t.flows && Bucket(t.size, t.flows[id].hash) == b
  }

  /** A flow carries its key's hash and is listed in that bucket. */
  ghost predicate FlowOk(t: Table, id: FlowId)
    requires Sized(t)
  {
    id in t.flows ==>
      && id < t.created && t.flows[id].hash == t.hash(t.flows[id].key)
      && id in t.chains[Bucket(t.size, t.flows[id].hash)]
  }

  ghost predicate NoTwins(t: Table) {
    forall id, jd :: id in t.flows && jd in t.flows && id != jd ==> !Twins(t.flows[id], t.flows[jd])
  }

  predicate Counted(t: Table) {
    t.active == Total(t.chains) == t.created - t.removed <= t.maxFlows
  }

  ghost predicate Valid(t: Table) {
    && Sized(t) && NoTwins(t) && Counted(t)
    && (forall b: nat :: b < t.size ==> ChainOk(t, b, t.chains[b]))
    && (forall id :: id in t.flows ==> FlowOk(t, id))
  }

  /** The flow that a packet with key `k` belongs to. */
  predicate Owns(t: Table, id: FlowId, k: Key) {
    id in t.flows && t.flows[id].hash == t.hash(k) && Matches(t.flows[id].key, k)
  }

  lemma OwnerUnique(t: Table, id: FlowId, jd: FlowId, k: Key)
    requires Valid(t) && Owns(t, id, k) && Owns(t, jd, k)
    ensures id == jd
  {
    MatchesMeaning(t.flows[id].key, k);
    MatchesMeaning(t.flows[jd].key, k);
    assert Reverse(Reverse(k)) == k;
  }

  /** The walk along one chain. */
  function FindIn(t: Table, chain: seq<FlowId>, k: Key): Option<FlowId> {
    if chain == [] then None
    else if Owns(t, chain[0], k) then Some(chain[0])
    else FindIn(t, chain[1..], k)
  }

  lemma {:induction false} FindInMeaning(t: Table, chain: seq<FlowId>, k: Key)
    ensures FindIn(t, chain, k).Some? ==> FindIn(t, chain, k).value in chain && Owns(t, FindIn(t, chain, k).value, k)
    ensures FindIn(t, chain, k).None? ==> forall id :: id in chain ==> !Owns(t, id, k)
  {
    if chain != [] { FindInMeaning(t, chain[1..], k); }
  }

  function Lookup(t: Table, k: Key): Option<FlowId>
    requires Sized(t)
  {
    FindIn(t, t.chains[Bucket(t.size, t.hash(k))], k)
  }

  /** A lookup finds the owner of the key, and finds one whenever there is one. */
  lemma LookupExact(t: Table, k: Key, id: FlowId)
    requires Valid(t)
    ensures Lookup(t, k) == Some(id) <==> Owns(t, id, k)
  {
    FindInMeaning(t, t.chains[Bucket(t.size, t.hash(k))], k);
    if Owns(t, id, k) && Lookup(t, k).Some? { OwnerUnique(t, id, Lookup(t, k).value, k); }
  }

  // ----- the operations -----

  function Referenced(t: Table, id: FlowId): Table
    requires id in t.flows
  {
    t.(flows := t.flows[id := t.flows[id].(useCnt := Wrap16(t.flows[id].useCnt + 1))])
  }

  function Created(t: Table, k: Key, now: int): Table
    requires Sized(t)
  {
    var b := Bucket(t.size, t.hash(k));
    t.(chains := t.chains[b := [t.created] + t.chains[b]],
       flows := t.flows[t.created := Flow(k, t.hash(k), 1, now, TIMEOUT_NEW)],
       created := t.created + 1, active := t.active + 1)
  }

  /** `flow_get`: the flow found or created, or none when the table is full or memory is exhausted. */
  function Get(t: Table, k: Key, now: int, memOk: bool): (Table, Option<FlowId>)
    requires Sized(t)
  {
    var found := Lookup(t, k);
    if found.Some? && found.value in t.flows then (Referenced(t, found.value), found)
    else if t.active >= t.maxFlows || !memOk then (t, None)
    else (Created(t, k, now), Some(t.created))
  }

  lemma GetCases(t: Table, k: Key, now: int, memOk: bool)
    requires Sized(t)
    ensures var found := Lookup(t, k);
            && (found.Some? && found.value in t.flows ==> Get(t, k, now, memOk) == (Referenced(t, found.value), found))
            && (found.None? && t.active < t.maxFlows && memOk ==>
                  Get(t, k, now, memOk) == (Created(t, k, now), Some(t.created)))
            && (found.None? && !(t.active < t.maxFlows && memOk) ==> Get(t, k, now, memOk) == (t, None))
  {
  }

  /** `flow_release`. */
  function Release(t: Table, id: FlowId): Table {
    if id in t.flows && t.flows[id].useCnt > 0
    then t.(flows := t.flows[id := t.flows[id].(useCnt := t.flows[id].useCnt - 1)])
    else t
  }

  /** `flow_update` as the table sees it: the time of the last packet, and the timeout in force. */
  function Touch(t: Table, id: FlowId, now: int, timeout: nat): Table {
    if id in t.flows then t.(flows := t.flows[id := t.flows[id].(lastTs := now, timeout := timeout)]) else t
  }

  predicate Goes(t: Table, now: int, id: FlowId) { id in t.flows && Expired(t.flows[id], now) }

  /** What is left of one chain, in order. */
  function Sweep(t: Table, now: int, chain: seq<FlowId>): (r: seq<FlowId>)
    ensures |r| <= |chain|
  {
    UnlinkedMembers(chain, (id: FlowId) => Goes(t, now, id));
    Unlinked(chain, (id: FlowId) => Goes(t, now, id))
  }

  function GoneFrom(t: Table, now: int, chain: seq<FlowId>): set<FlowId> {
    set id | id in chain && Goes(t, now, id)
  }

  /** The sweep of one bucket. */
  function SweepAt(t: Table, now: int, b: nat): Table
    requires Sized(t) && b < t.size
  {
    var chain, kept := t.chains[b], Sweep(t, now, t.chains[b]);
    t.(chains := t.chains[b := kept], flows := t.flows - GoneFrom(t, now, chain),
       removed := t.removed + (|chain| - |kept|), active := t.active - (|chain| - |kept|))
  }

  /** `flow_cleanup_expired`, after the first `n` buckets. */
  function SweptTo(t: Table, now: int, n: nat): (r: Table)
    requires Sized(t) && n <= t.size
    ensures Sized(r) && r.size == t.size && r.hash == t.hash && r.maxFlows == t.maxFlows && r.created == t.created
  {
    if n == 0 then t else SweepAt(SweptTo(t, now, n - 1), now, n - 1)
  }

  function Cleanup(t: Table, now: int): Table
    requires Sized(t)
  {
    SweptTo(t, now, t.size)
  }

  // ----- what every operation keeps -----

  lemma {:induction false} TotalUpdate(chains: seq<seq<FlowId>>, b: nat, chain: seq<FlowId>)
    requires b < |chains|
    ensures Total(chains[b := chain]) == Total(chains) - |chains[b]| + |chain|
  {
    var last := |chains| - 1;
    var c := chains[b := chain];
    if b == last {
      assert c[..last] == chains[..last];
    } else {
      assert c[..last] == chains[..last][b := chain];
      TotalUpdate(chains[..last], b, chain);
    }
  }

  lemma CreatedValid(t: Table, k: Key, now: int)
    requires Valid(t) && t.active < t.maxFlows && Lookup(t, k).None?
    ensures Valid(Created(t, k, now))
  {
    var r, b, id := Created(t, k, now), Bucket(t.size, t.hash(k)), t.created;
    TotalUpdate(t.chains, b, [id] + t.chains[b]);
    forall jd | jd in t.flows ensures !Owns(t, jd, k) { LookupExact(t, k, jd); }
    hide Bucket, Total, Matches, Lookup;
    assert forall jd :: jd in t.flows ==> FlowOk(t, jd);
    forall c: nat | c < t.size ensures ChainOk(r, c, r.chains[c]) {
      CreatedChain(t, k, now, c);
    }
    forall jd | jd in r.flows ensures FlowOk(r, jd) {
      if jd != id { assert FlowOk(t, jd); }
    }
    CreatedNoTwins(t, k, now);
  }

  lemma CreatedChain(t: Table, k: Key, now: int, c: nat)
    requires Sized(t) && c < t.size && ChainOk(t, c, t.chains[c]) && t.created !in t.flows
    ensures ChainOk(Created(t, k, now), c, Created(t, k, now).chains[c])
  {
    hide Bucket;
    var chain := t.chains[c];
    assert forall i :: 0 <= i < |chain| ==> chain[i] in chain;
  }

  lemma CreatedNoTwins(t: Table, k: Key, now: int)
    requires Sized(t) && NoTwins(t) && t.created !in t.flows
    requires forall jd :: jd in t.flows ==> !Owns(t, jd, k)
    ensures NoTwins(Created(t, k, now))
  {
    forall jd | jd in t.flows ensures !(t.flows[jd].hash == t.hash(k) && Matches(t.flows[jd].key, k)) {
      assert !Owns(t, jd, k);
    }
    forall jd | jd in t.flows { MatchesMeaning(t.flows[jd].key, k); }
    hide Matches, Bucket;
  }

  /** Replacing a record by one with the same key and hash keeps the table. */
  lemma SameKeyValid(t: Table, id: FlowId, f: Flow)
    requires Valid(t) && id in t.flows && f.key == t.flows[id].key && f.hash == t.flows[id].hash
    ensures Valid(t.(flows := t.flows[id := f]))
  {
    var r := t.(flows := t.flows[id := f]);
    hide Bucket, Total, Matches;
    forall c: nat | c < t.size ensures ChainOk(r, c, r.chains[c]) { assert ChainOk(t, c, t.chains[c]); }
    forall jd | jd in r.flows ensures FlowOk(r, jd) { assert FlowOk(t, jd); }
  }

  lemma GetValid(t: Table, k: Key, now: int, memOk: bool)
    requires Valid(t)
    ensures Valid(Get(t, k, now, memOk).0)
  {
    var found := Lookup(t, k);
    FindInMeaning(t, t.chains[Bucket(t.size, t.hash(k))], k);
    if found.Some? {
      SameKeyValid(t, found.value, Referenced(t, found.value).flows[found.value]);
    } else if t.active < t.maxFlows {
      CreatedValid(t, k, now);
    }
  }

  /** A swept chain keeps exactly its unexpired flows. */
  lemma SweepMembers(t: Table, now: int, chain: seq<FlowId>)
    requires NoRepeat(chain) && forall id :: id in chain ==> id in t.flows
    ensures NoRepeat(Sweep(t, now, chain))
    ensures forall id :: id in Sweep(t, now, chain) <==> id in chain && !Expired(t.flows[id], now)
  {
    UnlinkedMembers(chain, (id: FlowId) => Goes(t, now, id));
    UnlinkedNoRepeat(chain, (id: FlowId) => Goes(t, now, id));
  }

  lemma SweepAtValid(t: Table, now: int, b: nat)
    requires Valid(t) && b < t.size
    ensures Valid(SweepAt(t, now, b))
  {
    var r, chain := SweepAt(t, now, b), t.chains[b];
    assert ChainOk(t, b, chain);
    TotalUpdate(t.chains, b, Sweep(t, now, chain));
    SweepMembers(t, now, chain);
    hide Bucket, Total, Matches, Expired, Sweep;
    forall c: nat | c < t.size ensures ChainOk(r, c, r.chains[c]) {
      assert ChainOk(t, c, t.chains[c]);
    }
    forall id | id in r.flows ensures FlowOk(r, id) {
      assert FlowOk(t, id);
    }
  }

  lemma SweptToLast(t: Table, now: int, n: nat)
    requires Valid(t) && n <= t.size
    ensures Sized(t)
    ensures if n == 0 then SweptTo(t, now, n) == t
            else Sized(SweptTo(t, now, n - 1)) && SweptTo(t, now, n - 1).size == t.size
                 && SweptTo(t, now, n) == SweepAt(SweptTo(t, now, n - 1), now, n - 1)
  {
    hide Sweep, GoneFrom, NoTwins, Counted;
  }

  lemma {:induction false} SweptToValid(t: Table, now: int, n: nat)
    requires Valid(t) && n <= t.size
    ensures Sized(t) && Valid(SweptTo(t, now, n))
  {
    hide *;
    SweptToLast(t, now, n);
    if n > 0 {
      SweptToValid(t, now, n - 1);
      SweepAtValid(SweptTo(t, now, n - 1), now, n - 1);
    }
  }

  /** What the first `n` buckets' sweep has done: which flows are gone, and what each chain looks like. */
  ghost predicate FlowsSwept(t: Table, now: int, n: nat, flows: map<FlowId, Flow>)
    requires t.size > 0
  {
    && (forall id :: id in flows ==> id in t.flows && flows[id] == t.flows[id])
    && (forall id :: id in t.flows ==>
          (id !in flows <==> Expired(t.flows[id], now) && Bucket(t.size, t.flows[id].hash) < n))
  }

  ghost predicate ChainsSwept(t: Table, now: int, n: nat, chains: seq<seq<FlowId>>)
    requires Sized(t)
  {
    && |chains| == t.size
    && (forall b: nat :: b < t.size ==> chains[b] == if b < n then Sweep(t, now, t.chains[b]) else t.chains[b])
  }

  ghost predicate SweptShape(t: Table, now: int, n: nat, r: Table)
    requires Sized(t)
  {
    r.size == t.size && FlowsSwept(t, now, n, r.flows) && ChainsSwept(t, now, n, r.chains)
  }

  lemma FlowsSweptStep(t: Table, now: int, b: nat, flows: map<FlowId, Flow>, gone: set<FlowId>)
    requires t.size > 0 && FlowsSwept(t, now, b, flows)
    requires forall id :: id in t.flows ==>
               (id in gone <==> Expired(t.flows[id], now) && Bucket(t.size, t.flows[id].hash) == b)
    ensures FlowsSwept(t, now, b + 1, flows - gone)
  {
    hide Expired, Bucket;
  }

  lemma GoneInBucket(t: Table, now: int, b: nat)
    requires Valid(t) && b < t.size
    ensures forall id :: id in t.flows ==>
              (id in GoneFrom(t, now, t.chains[b]) <==>
                 Expired(t.flows[id], now) && Bucket(t.size, t.flows[id].hash) == b)
  {
    assert ChainOk(t, b, t.chains[b]);
    hide Expired, Bucket, NoRepeat;
    forall id | id in t.flows
      ensures id in GoneFrom(t, now, t.chains[b]) <==>
                Expired(t.flows[id], now) && Bucket(t.size, t.flows[id].hash) == b
    {
      assert FlowOk(t, id);
    }
  }

  /** The records of an unswept chain are still there. */
  lemma ChainStillThere(t: Table, now: int, b: nat, flows: map<FlowId, Flow>)
    requires Valid(t) && b < t.size && FlowsSwept(t, now, b, flows)
    ensures forall id :: id in t.chains[b] ==> id in t.flows && id in flows && flows[id] == t.flows[id]
  {
    assert ChainOk(t, b, t.chains[b]);
    hide Expired, Bucket, NoRepeat;
  }

  lemma SweptShapeStep(t: Table, now: int, b: nat, r: Table)
    requires Valid(t) && b < t.size && SweptShape(t, now, b, r)
    ensures Sized(t) && Sized(r) && SweptShape(t, now, b + 1, SweepAt(r, now, b))
  {
    ChainStillThere(t, now, b, r.flows);
    SweepSame(t, r, now, t.chains[b]);
    GoneInBucket(t, now, b);
    FlowsSweptStep(t, now, b, r.flows, GoneFrom(t, now, t.chains[b]));
    assert r.chains[b] == t.chains[b];
    hide Sweep, GoneFrom, FlowsSwept, Valid;
  }

  lemma {:induction false} SweptToShape(t: Table, now: int, n: nat)
    requires Valid(t) && n <= t.size
    ensures Sized(t) && SweptShape(t, now, n, SweptTo(t, now, n))
  {
    hide *;
    SweptToLast(t, now, n);
    if n == 0 {
      SweptStart(t, now);
    } else {
      SweptToShape(t, now, n - 1);
      SweptShapeStep(t, now, n - 1, SweptTo(t, now, n - 1));
    }
  }

  lemma SweptStart(t: Table, now: int)
    requires Sized(t)
    ensures SweptShape(t, now, 0, t)
  {
    hide Expired, Bucket;
  }

  /** Sweeping a chain looks only at the records of that chain. */
  lemma SweepSame(t: Table, r: Table, now: int, chain: seq<FlowId>)
    requires forall id :: id in chain ==> id in t.flows && id in r.flows && r.flows[id] == t.flows[id]
    ensures Sweep(r, now, chain) == Sweep(t, now, chain) && GoneFrom(r, now, chain) == GoneFrom(t, now, chain)
  {
    UnlinkedSame(chain, (id: FlowId) => Goes(r, now, id), (id: FlowId) => Goes(t, now, id));
  }

  lemma {:induction false} UnlinkedSame(chain: seq<FlowId>, p: FlowId -> bool, q: FlowId -> bool)
    requires forall id :: id in chain ==> p(id) == q(id)
    ensures Unlinked(chain, p) == Unlinked(chain, q)
  {
    if chain != [] { UnlinkedSame(chain[1..], p, q); }
  }

  lemma CleanupValid(t: Table, now: int)
    requires Valid(t)
    ensures Valid(Cleanup(t, now))
  {
    SweptToValid(t, now, t.size);
  }

  /**
   Expiry removes exactly the unreferenced flows over their timeout, leaves the other records alone, and keeps
   them in the order of their chains.
   */
  lemma CleanupExact(t: Table, now: int)
    requires Valid(t)
    ensures var r := Cleanup(t, now);
            && (forall id :: id in t.flows ==>
                  (id !in r.flows <==> t.flows[id].useCnt == 0 && AgeOf(t.flows[id], now) > t.flows[id].timeout))
            && (forall id :: id in r.flows ==> id in t.flows && r.flows[id] == t.flows[id])
            && (forall b: nat :: b < t.size ==> r.chains[b] == Sweep(t, now, t.chains[b]))
  {
    SweptToShape(t, now, t.size);
    hide Expired, Sweep, Valid;
    assert forall id :: id in t.flows ==> Bucket(t.size, t.flows[id].hash) < t.size;
    ExpiredMeaning(t, now);
  }

  lemma ExpiredMeaning(t: Table, now: int)
    ensures forall id :: id in t.flows ==>
              (Expired(t.flows[id], now) <==> t.flows[id].useCnt == 0 && AgeOf(t.flows[id], now) > t.flows[id].timeout)
  {
  }

  // ----- runs -----

  datatype Event =
    | Packet(key: Key, now: int, memOk: bool)
    | Released(id: FlowId)
    | Updated(id: FlowId, now: int, timeout: nat)
    | Expiry(now: int)

  function Step(t: Table, e: Event): Table
    requires Sized(t)
  {
    match e
    case Packet(k, now, memOk) => Get(t, k, now, memOk).0
    case Released(id) => Release(t, id)
    case Updated(id, now, timeout) => Touch(t, id, now, timeout)
    case Expiry(now) => Cleanup(t, now)
  }

  lemma StepValid(t: Table, e: Event)
    requires Valid(t)
    ensures Sized(t) && Valid(Step(t, e)) && Sized(Step(t, e))
    ensures Step(t, e).hash == t.hash && Step(t, e).maxFlows == t.maxFlows
  {
    match e
    case Packet(k, now, memOk) => GetValid(t, k, now, memOk);
    case Released(id) => if id in t.flows && t.flows[id].useCnt > 0 { SameKeyValid(t, id, Release(t, id).flows[id]); }
    case Updated(id, now, timeout) => if id in t.flows { SameKeyValid(t, id, Touch(t, id, now, timeout).flows[id]); }
    case Expiry(now) => CleanupValid(t, now);
  }

  function Run(t: Table, events: seq<Event>): (r: Table)
    requires Sized(t)
    ensures Sized(r)
    decreases |events|
  {
    if events == [] then t else Run(Step(t, events[0]), events[1..])
  }

  function Nil(n: nat): seq<seq<FlowId>> { seq(n, _ => []) }

  function Empty(size: nat, maxFlows: nat, hash: Key -> nat): Table
    requires size > 0
  {
    Table(size, maxFlows, hash, Nil(size), map[], 0, 0, 0)
  }

  lemma {:induction false} TotalEmpty(n: nat)
    ensures Total(Nil(n)) == 0
  {
    if n > 0 {
      TotalEmpty(n - 1);
      assert Nil(n)[..n - 1] == Nil(n - 1);
    }
  }

  lemma EmptyValid(size: nat, maxFlows: nat, hash: Key -> nat)
    requires size > 0
    ensures Valid(Empty(size, maxFlows, hash))
  {
    TotalEmpty(size);
  }

  /** Every run keeps one flow per hash and key, and counts what it holds. */
  lemma {:induction false} RunValid(t: Table, events: seq<Event>)
    requires Valid(t)
    ensures Sized(t) && Valid(Run(t, events)) && Run(t, events).hash == t.hash
    decreases |events|
  {
    assert Sized(t);
    hide Valid, Step, Get, Cleanup;
    if events != [] {
      StepValid(t, events[0]);
      RunValid(Step(t, events[0]), events[1..]);
    }
  }

  lemma GetPersists(t: Table, k: Key, now: int, memOk: bool, id: FlowId)
    requires Sized(t) && id in Get(t, k, now, memOk).0.flows && id < t.created
    ensures var r := Get(t, k, now, memOk).0;
            id in t.flows && r.flows[id].key == t.flows[id].key && r.flows[id].hash == t.flows[id].hash
  {
    hide Lookup, Bucket;
  }

  /** A flow present after a step was there before with the same key, unless it has just been created. */
  lemma StepPersists(t: Table, e: Event, id: FlowId)
    requires Valid(t) && id in Step(t, e).flows && id < t.created
    ensures id in t.flows
    ensures Step(t, e).flows[id].key == t.flows[id].key && Step(t, e).flows[id].hash == t.flows[id].hash
  {
    assert Sized(t);
    match e
    case Packet(k, now, memOk) => hide Get, Valid; GetPersists(t, k, now, memOk, id);
    case Expiry(now) => hide Cleanup, Valid; CleanupExact(t, now);
    case Released(_) => hide Valid;
    case Updated(_, _, _) => hide Valid;
  }

  lemma StepCreated(t: Table, e: Event)
    requires Valid(t)
    ensures t.created <= Step(t, e).created
  {
  }

  lemma {:induction false} RunPersists(t: Table, events: seq<Event>, id: FlowId)
    requires Valid(t) && id in Run(t, events).flows && id < t.created
    ensures id in t.flows && Run(t, events).flows[id].key == t.flows[id].key
    ensures Run(t, events).flows[id].hash == t.flows[id].hash
    decreases |events|
  {
    assert Sized(t);
    hide Valid, Step, Get, Cleanup;
    if events != [] {
      StepValid(t, events[0]);
      StepCreated(t, events[0]);
      RunPersists(Step(t, events[0]), events[1..], id);
      StepPersists(t, events[0], id);
    }
  }

  /** The flow handed out for a key is handed out again, after any further events, until it is removed. */
  lemma SameFlowUntilRemoved(t: Table, k: Key, now: int, memOk: bool, events: seq<Event>, later: int, again: bool)
    requires Valid(t)
    requires var g := Get(t, k, now, memOk);
             g.1.Some? && g.1.value in Run(g.0, events).flows
    ensures Get(Run(Get(t, k, now, memOk).0, events), k, later, again).1 == Get(t, k, now, memOk).1
  {
    var g := Get(t, k, now, memOk);
    var id := g.1.value;
    FindInMeaning(t, t.chains[Bucket(t.size, t.hash(k))], k);
    GetValid(t, k, now, memOk);
    assert Owns(g.0, id, k) && id < g.0.created;
    RunPersists(g.0, events, id);
    RunValid(g.0, events);
    LookupExact(Run(g.0, events), k, id);
  }

  /** The two directions of a conversation share a flow exactly when the directional hash agrees on them. */
  lemma DirectionsShare(t: Table, k: Key, id: FlowId)
    requires Valid(t) && Owns(t, id, k)
    ensures Owns(t, id, Reverse(k)) <==> t.hash(Reverse(k)) == t.hash(k)
  {
    MatchesMeaning(t.flows[id].key, k);
    MatchesMeaning(t.flows[id].key, Reverse(k));
    assert Reverse(Reverse(k)) == k;
  }

  // ----- references -----

  /** References to flow `id` held by callers after one more event, when `held` were held before. */
  function HeldStep(t: Table, e: Event, id: FlowId, held: nat): nat
    requires Sized(t)
  {
    match e
    case Packet(k, now, memOk) => if Get(t, k, now, memOk).1 == Some(id) then held + 1 else held
    case Released(r) => if r == id && held > 0 then held - 1 else held
    case _ => held
  }

  function Held(t: Table, events: seq<Event>, id: FlowId, held: nat): nat
    requires Sized(t)
    decreases |events|
  {
    if events == [] then held else Held(Step(t, events[0]), events[1..], id, HeldStep(t, events[0], id, held))
  }

  /** At no point of the run are more references held than the 16-bit count can say. */
  predicate CountFits(t: Table, events: seq<Event>, id: FlowId, held: nat)
    requires Sized(t)
    decreases |events|
  {
    held < 0x1_0000
    && (events == [] || CountFits(Step(t, events[0]), events[1..], id, HeldStep(t, events[0], id, held)))
  }

  /** The flow's count is the number of references held; a removed flow has none. */
  predicate CountIs(t: Table, id: FlowId, held: nat) {
    if id in t.flows then t.flows[id].useCnt == held else held == 0
  }

  /** Use counts stay within their 16 bits. */
  predicate CountsBounded(t: Table) { forall id :: id in t.flows ==> t.flows[id].useCnt < 0x1_0000 }

  lemma GetBounded(t: Table, k: Key, now: int, memOk: bool)
    requires Sized(t) && CountsBounded(t)
    ensures CountsBounded(Get(t, k, now, memOk).0)
  {
    hide Lookup, Bucket;
  }

  lemma StepBounded(t: Table, e: Event)
    requires Valid(t) && CountsBounded(t)
    ensures Sized(t) && CountsBounded(Step(t, e))
  {
    assert Sized(t);
    match e
    case Packet(k, now, memOk) => hide Get, Valid; GetBounded(t, k, now, memOk);
    case Expiry(now) => hide Cleanup, Valid; CleanupExact(t, now);
    case Released(_) => hide Valid;
    case Updated(_, _, _) => hide Valid;
  }

  lemma CountStep(t: Table, e: Event, id: FlowId, held: nat)
    requires Valid(t) && CountIs(t, id, held) && HeldStep(t, e, id, held) < 0x1_0000
    ensures Sized(t) && CountIs(Step(t, e), id, HeldStep(t, e, id, held))
  {
    assert Sized(t);
    match e
    case Packet(k, now, memOk) => hide Get, Valid; CountGet(t, k, now, memOk, id, held);
    case Expiry(now) => hide Cleanup, Valid; CleanupExact(t, now);
    case Released(_) => hide Valid;
    case Updated(_, _, _) => hide Valid;
  }

  lemma CountGet(t: Table, k: Key, now: int, memOk: bool, id: FlowId, held: nat)
    requires Valid(t) && CountIs(t, id, held)
    requires Get(t, k, now, memOk).1 == Some(id) ==> held + 1 < 0x1_0000
    ensures CountIs(Get(t, k, now, memOk).0, id, if Get(t, k, now, memOk).1 == Some(id) then held + 1 else held)
  {
    FindInMeaning(t, t.chains[Bucket(t.size, t.hash(k))], k);
    assert t.created in t.flows ==> FlowOk(t, t.created);
    hide Valid, Bucket, Lookup;
  }

  /** The use count is the number of references held, now and after every event of the run. */
  predicate CountAlways(t: Table, events: seq<Event>, id: FlowId, held: nat)
    requires Sized(t)
    decreases |events|
  {
    CountIs(t, id, held)
    && (events == [] || CountAlways(Step(t, events[0]), events[1..], id, HeldStep(t, events[0], id, held)))
  }

  /**
   Over any run, the use count of a flow is the number of references to it that are held, after every event, if and
   only if that number never exceeds 16 bits; then no flow is removed while somebody holds it.
   */
  lemma {:induction false} ReferencesExact(t: Table, events: seq<Event>, id: FlowId, held: nat)
    requires Valid(t) && CountsBounded(t) && CountIs(t, id, held)
    ensures Sized(t)
    ensures CountAlways(t, events, id, held) <==> CountFits(t, events, id, held)
    ensures CountFits(t, events, id, held) ==> CountIs(Run(t, events), id, Held(t, events, id, held))
    decreases |events|
  {
    assert Sized(t);
    hide Valid, Step, HeldStep;
    if events != [] {
      var next, h := Step(t, events[0]), HeldStep(t, events[0], id, held);
      StepValid(t, events[0]);
      StepBounded(t, events[0]);
      FitsNow(t, events, id, held);
      if h < 0x1_0000 {
        CountStep(t, events[0], id, held);
        ReferencesExact(next, events[1..], id, h);
      } else {
        CountOverflown(next, events[1..], id, h);
      }
    }
  }

  lemma FitsNow(t: Table, events: seq<Event>, id: FlowId, held: nat)
    requires Sized(t) && CountsBounded(t) && CountIs(t, id, held)
    ensures held < 0x1_0000
  {
  }

  /** More references than the count can say are never what it says. */
  lemma CountOverflown(t: Table, events: seq<Event>, id: FlowId, held: nat)
    requires Sized(t) && CountsBounded(t) && held >= 0x1_0000
    ensures !CountAlways(t, events, id, held) && !CountFits(t, events, id, held)
  {
  }

  /** A flow that somebody holds is in the table. */
  lemma HeldStays(t: Table, events: seq<Event>, id: FlowId, held: nat)
    requires Valid(t) && CountsBounded(t) && CountIs(t, id, held)
    requires Sized(t) && CountFits(t, events, id, held) && Held(t, events, id, held) > 0
    ensures id in Run(t, events).flows
  {
    ReferencesExact(t, events, id, held);
  }

  lemma WrappedReference(t: Table, k: Key, id: FlowId, now: int)
    requires Valid(t) && Owns(t, id, k) && t.flows[id].useCnt == 0xffff
    ensures Sized(t)
    ensures var r := Get(t, k, now, true);
            r.1 == Some(id) && id in r.0.flows && r.0.flows[id] == t.flows[id].(useCnt := 0)
  {
    LookupExact(t, k, id);
    hide Valid, Lookup, Bucket;
  }

  /** One reference more than fits wraps the count to zero, and the flow can expire while it is held. */
  lemma CountWraps(t: Table, k: Key, id: FlowId, now: int, late: int)
    requires Valid(t) && Owns(t, id, k) && t.flows[id].useCnt == 0xffff
    requires AgeOf(t.flows[id], late) > t.flows[id].timeout
    ensures Sized(t) && Get(t, k, now, true).1 == Some(id) && Sized(Get(t, k, now, true).0)
    ensures id !in Cleanup(Get(t, k, now, true).0, late).flows
  {
    WrappedReference(t, k, id, now);
    SameAge(t.flows[id], late);
    hide *;
    GetValid(t, k, now, true);
    StepValid(t, Packet(k, now, true));
    CleanupExact(Get(t, k, now, true).0, late);
  }

  lemma SameAge(f: Flow, now: int)
    ensures AgeOf(f.(useCnt := 0), now) == AgeOf(f, now)
  {
  }

  // ----- a run in which the count wraps -----

  /** The same packet again and again. */
  function Repeated(k: Key, n: nat): (events: seq<Event>)
    ensures |events| == n
  {
    seq(n, _ => Packet(k, 0, true))
  }

  lemma StepSized(t: Table, e: Event)
    requires Sized(t)
    ensures Sized(Step(t, e))
  {
    hide Lookup, Bucket;
  }

  lemma {:induction false} RunSplit(t: Table, a: seq<Event>, b: seq<Event>)
    requires Sized(t)
    ensures Run(t, a + b) == Run(Run(t, a), b)
    decreases |a|
  {
    hide Step;
    if a == [] {
      assert a + b == b;
    } else {
      assert (a + b)[1..] == a[1..] + b;
      StepSized(t, a[0]);
      RunSplit(Step(t, a[0]), a[1..], b);
    }
  }

  lemma OneMorePacket(t: Table, k: Key, n: nat)
    requires Sized(t)
    ensures Run(t, Repeated(k, n + 1)) == Get(Run(t, Repeated(k, n)), k, 0, true).0
  {
    assert Repeated(k, n + 1) == Repeated(k, n) + [Packet(k, 0, true)];
    RunSplit(t, Repeated(k, n), [Packet(k, 0, true)]);
    hide Get;
    var d := Run(t, Repeated(k, n));
    assert [Packet(k, 0, true)][1..] == [];
    assert Run(d, [Packet(k, 0, true)]) == Step(d, Packet(k, 0, true));
  }

  /** The n-th packet of a key leaves its flow, the first of the table, with n references. */
  lemma {:induction false} PacketsCounted(size: nat, maxFlows: nat, hash: Key -> nat, k: Key, n: nat)
    requires size > 0 && maxFlows >= 1 && 1 <= n <= 0xffff
    ensures var t := Run(Empty(size, maxFlows, hash), Repeated(k, n));
            && Valid(t) && Owns(t, 0, k) && t.flows[0] == Flow(k, hash(k), n, 0, TIMEOUT_NEW) && t.hash == hash
  {
    hide Valid, Get, Run, Empty, Owns;
    EmptyValid(size, maxFlows, hash);
    EmptySized(size, maxFlows, hash);
    RunValid(Empty(size, maxFlows, hash), Repeated(k, n));
    OneMorePacket(Empty(size, maxFlows, hash), k, n - 1);
    if n == 1 {
      FirstPacket(size, maxFlows, hash, k);
    } else {
      PacketsCounted(size, maxFlows, hash, k, n - 1);
      NextPacket(Run(Empty(size, maxFlows, hash), Repeated(k, n - 1)), k, 0);
    }
  }

  lemma EmptySized(size: nat, maxFlows: nat, hash: Key -> nat)
    requires size > 0
    ensures Sized(Empty(size, maxFlows, hash)) && Empty(size, maxFlows, hash).hash == hash
  {
  }

  lemma FirstPacket(size: nat, maxFlows: nat, hash: Key -> nat, k: Key)
    requires size > 0 && maxFlows >= 1
    ensures var t := Get(Run(Empty(size, maxFlows, hash), Repeated(k, 0)), k, 0, true).0;
            Owns(t, 0, k) && t.flows[0] == Flow(k, hash(k), 1, 0, TIMEOUT_NEW)
  {
    var e := Empty(size, maxFlows, hash);
    assert Repeated(k, 0) == [] && Run(e, []) == e;
    assert Lookup(e, k).None?;
    GetCases(e, k, 0, true);
    hide Get, Lookup, Bucket;
  }

  lemma NextPacket(t: Table, k: Key, id: FlowId)
    requires Valid(t) && Owns(t, id, k) && t.flows[id].useCnt < 0xffff
    ensures Sized(t)
    ensures var r := Get(t, k, 0, true).0;
            Owns(r, id, k) && r.flows[id] == t.flows[id].(useCnt := t.flows[id].useCnt + 1)
  {
    LookupExact(t, k, id);
    GetCases(t, k, 0, true);
    hide Get, Lookup, Bucket, Valid;
  }

  /**
   A run reaches the wrap: 65535 packets of one key, and one more, leave a flow with 65536 references and a count of
   zero, which the next expiry removes.
   */
  lemma WrapReached(size: nat, maxFlows: nat, hash: Key -> nat, k: Key, late: int)
    requires size > 0 && maxFlows >= 1 && TIMEOUT_NEW < late < 0x1_0000_0000
    ensures var t := Run(Empty(size, maxFlows, hash), Repeated(k, 0xffff));
            && Valid(t) && Owns(t, 0, k) && t.flows[0].useCnt == 0xffff
            && Sized(Get(t, k, 0, true).0) && Get(t, k, 0, true).1 == Some(0)
            && 0 !in Cleanup(Get(t, k, 0, true).0, late).flows
  {
    PacketsCounted(size, maxFlows, hash, k, 0xffff);
    var t := Run(Empty(size, maxFlows, hash), Repeated(k, 0xffff));
    assert AgeOf(t.flows[0], late) == late;
    hide *;
    CountWraps(t, k, 0, 0, late);
  }
}
