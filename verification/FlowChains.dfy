/**
 The flow table object: lookups walk a chain, expiry walks and unlinks in place.  Its state changes as the
 functions of `FlowTable` say.
 */
module FlowChains {
  import opened Chains
  import opened FlowTable
  import opened Sequences
  import opened Words
  import opened Options

  class FlowManager {
    const size: nat
    const maxFlows: nat
    const hash: Key -> nat
    var chains: seq<seq<FlowId>>
    var flows: map<FlowId, Flow>
    var created: nat
    var removed: int
    var active: int

    function St(): Table
      reads this
    {
      Table(size, maxFlows, hash, chains, flows, created, removed, active)
    }

    constructor (size: nat, maxFlows: nat, hash: Key -> nat)
      requires size > 0
      ensures Valid(St()) && St() == Empty(size, maxFlows, hash)
    {
      this.size, this.maxFlows, this.hash := size, maxFlows, hash;
      chains := Nil(size);
      flows, created, removed, active := map[], 0, 0, 0;
      new;
      EmptyValid(size, maxFlows, hash);
    }

    /** The walk along the chain of a key. */
    method Find(k: Key) returns (found: Option<FlowId>)
      requires Valid(St())
      ensures found == Lookup(St(), k)
    {
      var chain := chains[Bucket(size, hash(k))];
      assert ChainOk(St(), Bucket(size, hash(k)), chain);
      var i := 0;
      assert chain[0..] == chain;
      while i < |chain|
        invariant i <= |chain| && FindIn(St(), chain, k) == FindIn(St(), chain[i..], k)
      {
        assert chain[i..][1..] == chain[i + 1..] && chain[i] in chain;
        var f := flows[chain[i]];
        if f.hash == hash(k) && Matches(f.key, k) { return Some(chain[i]); }
        i := i + 1;
      }
      found := None;
    }

    /** A new flow at the head of its chain. */
    method CreateFlow(k: Key, now: int)
      requires Sized(St())
      modifies this
      ensures St() == Created(old(St()), k, now)
    {
      var b := Bucket(size, hash(k));
      chains := chains[b := [created] + chains[b]];
      flows := flows[created := Flow(k, hash(k), 1, now, TIMEOUT_NEW)];
      created, active := created + 1, active + 1;
    }

    method Reference(id: FlowId)
      requires id in flows
      modifies this
      ensures St() == Referenced(old(St()), id)
    {
      flows := flows[id := flows[id].(useCnt := Wrap16(flows[id].useCnt + 1))];
    }

    /** `flow_get`. */
    method GetFlow(k: Key, now: int, memOk: bool) returns (flow: Option<FlowId>)
      requires Valid(St())
      modifies this
      ensures Valid(St()) && (St(), flow) == Get(old(St()), k, now, memOk)
    {
      GetValid(St(), k, now, memOk);
      GetCases(St(), k, now, memOk);
      ghost var t := St();
      FoundPresent(t, k);
      hide *;
      flow := Find(k);
      if flow.Some? {
        Reference(flow.value);
      } else if active < maxFlows && memOk {
        flow := Some(created);
        CreateFlow(k, now);
      }
    }

    /** `flow_release`. */
    method ReleaseFlow(id: FlowId)
      requires Valid(St())
      modifies this
      ensures Valid(St()) && St() == Release(old(St()), id)
    {
      StepValid(St(), Released(id));
      if id in flows && flows[id].useCnt > 0 {
        flows := flows[id := flows[id].(useCnt := flows[id].useCnt - 1)];
      }
    }

    /** The table's part of `flow_update`: the time of the packet, and the timeout its session asks for. */
    method UpdateFlow(id: FlowId, now: int, timeout: nat)
      requires Valid(St())
      modifies this
      ensures Valid(St()) && St() == Touch(old(St()), id, now, timeout)
    {
      StepValid(St(), Updated(id, now, timeout));
      if id in flows {
        flows := flows[id := flows[id].(lastTs := now, timeout := timeout)];
      }
    }

    /** Walk one chain: unlink and free what has expired. */
    static method WalkChain(chain: seq<FlowId>, flows: map<FlowId, Flow>, now: int, ghost t: Table)
      returns (list: seq<FlowId>, left: map<FlowId, Flow>)
      requires NoRepeat(chain) && flows == t.flows && forall id :: id in chain ==> id in flows
      ensures list == Sweep(t, now, chain) && left == flows - GoneFrom(t, now, chain)
    {
      ghost var drop := (id: FlowId) => Goes(t, now, id);
      assert Sweep(t, now, chain) == Unlinked(chain, drop);
      assert GoneFrom(t, now, chain[..0]) == {} && chain[0..] == chain;
      UnlinkEnds(chain, drop);
      list, left := chain, flows;
      var i := 0;
      ghost var seen := 0;
      hide *;
      while i < |list|
        invariant i <= |list| && seen <= |chain| && list[i..] == chain[seen..]
        invariant Unlinked(chain, drop) == list[..i] + Unlinked(list[i..], drop)
        invariant left == flows - GoneFrom(t, now, chain[..seen])
        decreases |list| - i
      {
        var id := list[i];
        RestStep(list, i, chain, seen);
        UnlinkStep(list, i, drop);
        GoneStep(t, now, chain, seen);
        if Expired(left[id], now) {
          list := list[..i] + list[i + 1..];
          left := left - {id};
        } else {
          i := i + 1;
        }
        seen := seen + 1;
      }
      UnlinkEnds(list, drop);
      assert chain[..seen] == chain;
    }

    /** Sweep one bucket. */
    method SweepBucket(b: nat, now: int)
      requires Sized(St()) && b < size && NoRepeat(chains[b]) && forall id :: id in chains[b] ==> id in flows
      modifies this
      ensures St() == SweepAt(old(St()), now, b)
    {
      hide Sweep, GoneFrom;
      var list, left := WalkChain(chains[b], flows, now, St());
      removed, active := removed + (|chains[b]| - |list|), active - (|chains[b]| - |list|);
      chains, flows := chains[b := list], left;
    }

    /** Sweep one bucket of a table that is in order. */
    method SweepNext(b: nat, now: int)
      requires Valid(St()) && b < size
      modifies this
      ensures Sized(old(St())) && Valid(St()) && St() == SweepAt(old(St()), now, b)
    {
      SweepAtValid(St(), now, b);
      assert ChainOk(St(), b, chains[b]) && Sized(St());
      hide *;
      SweepBucket(b, now);
    }

    /** `flow_cleanup_expired`. */
    method CleanupExpired(now: int) returns (count: int)
      requires Valid(St())
      modifies this
      ensures Sized(old(St())) && Valid(St()) && St() == Cleanup(old(St()), now) && count == removed - old(removed)
    {
      ghost var t := St();
      assert t.size == size;
      hide *;
      var before := removed;
      SweptToLast(t, now, 0);
      CleanupIs(t, now);
      SweepAll(now);
      count := removed - before;
    }

    method SweepAll(now: int)
      requires Valid(St()) && Sized(St())
      modifies this
      ensures Valid(St()) && St() == SweptTo(old(St()), now, size)
    {
      ghost var t := St();
      assert t.size == size;
      hide *;
      SweptToLast(t, now, 0);
      for b := 0 to size
        invariant Valid(St()) && St() == SweptTo(t, now, b)
      {
        SweptToNext(t, now, b);
        SweepNext(b, now);
      }
    }
  }

  lemma SweptToNext(t: Table, now: int, b: nat)
    requires Valid(t) && b < t.size
    ensures Sized(t) && Sized(SweptTo(t, now, b)) && SweptTo(t, now, b).size == t.size
    ensures SweptTo(t, now, b + 1) == SweepAt(SweptTo(t, now, b), now, b)
  {
    hide Sweep, GoneFrom, NoTwins, Counted, SweepAt;
  }

  lemma CleanupIs(t: Table, now: int)
    requires Sized(t)
    ensures Cleanup(t, now) == SweptTo(t, now, t.size)
  {
  }

  lemma RestStep(left: seq<FlowId>, i: nat, chain: seq<FlowId>, seen: nat)
    requires i < |left| && seen <= |chain| && left[i..] == chain[seen..]
    ensures seen < |chain| && left[i] == chain[seen] && left[i + 1..] == chain[seen + 1..]
    ensures (left[..i] + left[i + 1..])[i..] == chain[seen + 1..]
  {
    assert left[i..][0] == chain[seen..][0];
    assert left[i..][1..] == left[i + 1..] && chain[seen..][1..] == chain[seen + 1..];
  }

  lemma FoundPresent(t: Table, k: Key)
    requires Valid(t)
    ensures Sized(t) && (Lookup(t, k).Some? ==> Lookup(t, k).value in t.flows)
  {
    FindInMeaning(t, t.chains[Bucket(t.size, t.hash(k))], k);
  }

  lemma GoneStep(t: Table, now: int, chain: seq<FlowId>, j: nat)
    requires j < |chain| && NoRepeat(chain)
    ensures GoneFrom(t, now, chain[..j + 1])
         == GoneFrom(t, now, chain[..j]) + if Goes(t, now, chain[j]) then {chain[j]} else {}
    ensures chain[j] !in GoneFrom(t, now, chain[..j])
    ensures Goes(t, now, chain[j]) <==> chain[j] in t.flows && Expired(t.flows[chain[j]], now)
  {
    assert chain[..j + 1] == chain[..j] + [chain[j]];
  }
}
