/**
 Runs over arbitrary arrivals: segments that disagree with each other, overlap in any way, or carry any sequence
 number at all.  Shape and counters hold in all of them, the favour-new law applies at every step, and every byte
 held was sent at its offset.
 */
module ArbitraryRuns {
  import opened SegmentQueue
  import opened SeqNumbers
  import opened StreamModel
  import opened StreamRuns

  /** Any segment arriving, or the application taking bytes out. */
  datatype Input = Any(n: Segment, mem: Memory) | Out(len: nat)

  /** What the admission test leaves: every segment from the wire is placed with its end in the window. */
  predicate Plausible(s: Stream, e: Input) {
    e.Any? ==> |e.n.bytes| <= MAX_LEN && e.n.End() < s.consumed + HALF_SPACE
  }

  function Feed(cfg: Config, s: Stream, e: Input): Stream {
    match e
    case Any(n, mem) => Insert(cfg, s, n, mem)
    case Out(len) => Consume(cfg, s, len)
  }

  function RunAny(cfg: Config, inputs: seq<Input>): Stream {
    if inputs == [] then Fresh()
    else Feed(cfg, RunAny(cfg, inputs[..|inputs| - 1]), inputs[|inputs| - 1])
  }

  predicate AllPlausible(cfg: Config, inputs: seq<Input>) {
    inputs == [] ||
    (AllPlausible(cfg, inputs[..|inputs| - 1]) && Plausible(RunAny(cfg, inputs[..|inputs| - 1]), inputs[|inputs| - 1]))
  }

  // ----- shape -----

  lemma FeedKeeps(cfg: Config, s: Stream, e: Input)
    requires Good(cfg, s) && Laminar(s.queue) && Plausible(s, e)
    ensures Good(cfg, Feed(cfg, s, e)) && Laminar(Feed(cfg, s, e).queue)
  {
    hide Insert, Consume, Laminar;
    match e
    case Any(n, mem) =>
      InsertGood(cfg, s, n, mem);
      InsertLaminarStream(cfg, s, n, mem);
    case Out(len) =>
      ConsumeGood(cfg, s, len);
      ConsumeLaminar(cfg, s, len);
  }

  /** Every reachable state keeps counters, limits, order and window, and its queue is laminar. */
  lemma {:induction false} ReachableShape(cfg: Config, inputs: seq<Input>)
    requires 0 <= cfg.maxBuffer && 0 <= cfg.maxSegments && AllPlausible(cfg, inputs)
    ensures Good(cfg, RunAny(cfg, inputs)) && Laminar(RunAny(cfg, inputs).queue)
  {
    if inputs != [] {
      hide Good, Laminar, Feed;
      var front := inputs[..|inputs| - 1];
      ReachableShape(cfg, front);
      FeedKeeps(cfg, RunAny(cfg, front), inputs[|inputs| - 1]);
    }
  }

  /**
   At every reachable state, whatever arrived before: queueing a segment obeys the favour-new law if no merge pass
   runs, or one whose runs fit in a segment record; and only then, unless an allocation of the pass fails.
   */
  lemma ReachableOverride(cfg: Config, inputs: seq<Input>, u: Segment, failed: set<nat>)
    requires 0 <= cfg.maxBuffer && 0 <= cfg.maxSegments && AllPlausible(cfg, inputs)
    requires u.bytes != [] && |u.bytes| <= MAX_LEN
    ensures var q := RunAny(cfg, inputs).queue;
            && (MergeFits(q, u) ==> Overrides(q, u, Enqueue(q, u, failed)))
            && (Overrides(q, u, Enqueue(q, u, {})) ==> MergeFits(q, u))
  {
    ReachableShape(cfg, inputs);
    var q := RunAny(cfg, inputs).queue;
    EnqueueExact(q, u);
    if MergeFits(q, u) { EnqueueMeaning(q, u, failed); }
  }

  // ----- provenance -----

  /** Some arrival carried this byte at this offset. */
  predicate Sent(inputs: seq<Input>, o: int, b: byte) {
    exists i :: 0 <= i < |inputs| && inputs[i].Any? && inputs[i].n.Covers(o) && inputs[i].n.At(o) == b
  }

  ghost predicate AllSent(inputs: seq<Input>, x: Segment) {
    forall o: int :: x.Covers(o) ==> Sent(inputs, o, x.At(o))
  }

  /** The delivered bytes, as one segment. */
  function Delivered(s: Stream): Segment { Segment(s.consumed, s.data) }

  ghost predicate Genuine(inputs: seq<Input>, s: Stream) {
    AllSent(inputs, Delivered(s)) && forall x :: x in s.queue ==> AllSent(inputs, x)
  }

  lemma PartSent(inputs: seq<Input>, x: Segment, from: nat, len: nat)
    requires AllSent(inputs, x) && from + len <= |x.bytes|
    ensures AllSent(inputs, Segment(x.off + from, x.bytes[from..from + len]))
  {
    var y := Segment(x.off + from, x.bytes[from..from + len]);
    forall o: int | y.Covers(o) ensures Sent(inputs, o, y.At(o)) {
      assert x.Covers(o) && x.At(o) == y.At(o);
    }
  }

  lemma GluedSent(inputs: seq<Input>, a: Segment, b: Segment)
    requires AllSent(inputs, a) && AllSent(inputs, b) && b.off == a.End()
    ensures AllSent(inputs, Segment(a.off, a.bytes + b.bytes))
  {
    var y := Segment(a.off, a.bytes + b.bytes);
    forall o: int | y.Covers(o) ensures Sent(inputs, o, y.At(o)) {
      if a.Covers(o) { assert a.At(o) == y.At(o); } else { assert b.Covers(o) && b.At(o) == y.At(o); }
    }
  }

  lemma TrimSent(inputs: seq<Input>, c: Segment, n: Segment)
    requires AllSent(inputs, c)
    ensures forall x :: x in Trim(c, n) ==> AllSent(inputs, x)
  {
    hide AllSent;
    forall x | x in Trim(c, n) ensures AllSent(inputs, x) {
      var from := x.off - c.off;
      assert x == c || (0 <= from && from + |x.bytes| <= |c.bytes| && x.bytes == c.bytes[from..from + |x.bytes|]);
      if x != c { PartSent(inputs, c, from, |x.bytes|); }
    }
  }

  lemma JoinSent(inputs: seq<Input>, a: Segment, b: Segment)
    requires AllSent(inputs, a) && AllSent(inputs, b) && b.off <= a.End() < b.End()
    ensures AllSent(inputs, Join(a, b))
  {
    var skip := a.End() - b.off;
    PartSent(inputs, b, skip, |b.bytes| - skip);
    var rest := Segment(a.End(), b.bytes[skip..]);
    assert b.bytes[skip..skip + (|b.bytes| - skip)] == b.bytes[skip..];
    GluedSent(inputs, a, rest);
    var whole := Segment(a.off, a.bytes + rest.bytes);
    PartSent(inputs, whole, 0, |Join(a, b).bytes|);
    assert Join(a, b).bytes == whole.bytes[0..|Join(a, b).bytes|];
  }

  lemma SentClosed(inputs: seq<Input>, n: Segment)
    requires AllSent(inputs, n)
    ensures Closed((x: Segment) => AllSent(inputs, x), n)
  {
    hide AllSent, Join, Trim;
    forall c, x | AllSent(inputs, c) && x in Trim(c, n) ensures AllSent(inputs, x) {
      TrimSent(inputs, c, n);
    }
    forall a, b | AllSent(inputs, a) && AllSent(inputs, b) && b.off <= a.End() < b.End()
      ensures AllSent(inputs, Join(a, b))
    {
      JoinSent(inputs, a, b);
    }
  }

  lemma DeliverGenuine(inputs: seq<Input>, s: Stream, x: Segment)
    requires Genuine(inputs, s) && AllSent(inputs, x) && x.off == s.Next()
    ensures Genuine(inputs, Deliver(s, x.bytes))
  {
    hide AllSent;
    GluedSent(inputs, Delivered(s), x);
  }

  lemma {:induction false} DrainGenuine(inputs: seq<Input>, max: int, s: Stream)
    requires Genuine(inputs, s)
    ensures Genuine(inputs, Drain(max, s))
    decreases |s.queue|
  {
    hide AllSent;
    if s.queue != [] {
      var h, rest := s.queue[0], s.queue[1..];
      assert h in s.queue;
      if h.off < s.Next() {
        DrainGenuine(inputs, max, s.(queue := rest));
      } else if h.off == s.Next() && |s.data| + |h.bytes| <= max {
        DeliverGenuine(inputs, s, h);
        DrainGenuine(inputs, max, Deliver(s, h.bytes).(queue := rest));
      }
    }
  }

  lemma AfterSent(inputs: seq<Input>, n: Segment, p: int)
    requires AllSent(inputs, n) && p <= n.End()
    ensures AllSent(inputs, After(n, p))
  {
    if n.off < p {
      PartSent(inputs, n, p - n.off, n.End() - p);
      assert n.bytes[p - n.off..] == n.bytes[p - n.off..p - n.off + (n.End() - p)];
    }
  }

  lemma EnqueueGenuine(inputs: seq<Input>, max: int, s: Stream, u: Segment, failed: set<nat>)
    requires Genuine(inputs, s) && AllSent(inputs, u)
    ensures Genuine(inputs, Drain(max, s.(queue := Enqueue(s.queue, u, failed))))
  {
    hide Drain, Enqueue, Closed, AllSent;
    SentClosed(inputs, u);
    EnqueueMembers(s.queue, u, failed, (x: Segment) => AllSent(inputs, x));
    DrainGenuine(inputs, max, s.(queue := Enqueue(s.queue, u, failed)));
  }

  lemma InsertGenuine(cfg: Config, inputs: seq<Input>, s: Stream, n: Segment, mem: Memory)
    requires Genuine(inputs, s) && AllSent(inputs, n)
    ensures Genuine(inputs, Insert(cfg, s, n, mem))
  {
    hide Drain, Enqueue, AllSent;
    if n.bytes != [] && n.End() > s.consumed {
      var m := After(n, s.consumed);
      AfterSent(inputs, n, s.consumed);
      if m.off == s.Next() {
        DeliverGenuine(inputs, s, m);
        DrainGenuine(inputs, cfg.maxBuffer, Deliver(s, m.bytes));
      } else if m.End() > s.Next() {
        AfterSent(inputs, m, s.Next());
        EnqueueGenuine(inputs, cfg.maxBuffer, s, After(m, s.Next()), mem.failedMerges);
      }
    }
  }

  lemma ConsumeGenuine(cfg: Config, inputs: seq<Input>, s: Stream, len: nat)
    requires Genuine(inputs, s)
    ensures Genuine(inputs, Consume(cfg, s, len))
  {
    var k := if len > |s.data| then |s.data| else len;
    hide Drain, AllSent;
    PartSent(inputs, Delivered(s), k, |s.data| - k);
    assert s.data[k..k + (|s.data| - k)] == s.data[k..];
    DrainGenuine(inputs, cfg.maxBuffer, s.(consumed := s.consumed + k, data := s.data[k..]));
  }

  lemma MoreSent(inputs: seq<Input>, e: Input, x: Segment)
    requires AllSent(inputs, x)
    ensures AllSent(inputs + [e], x)
  {
    forall o: int | x.Covers(o) ensures Sent(inputs + [e], o, x.At(o)) {
      assert Sent(inputs, o, x.At(o));
      var i :| 0 <= i < |inputs| && inputs[i].Any? && inputs[i].n.Covers(o) && inputs[i].n.At(o) == x.At(o);
      assert (inputs + [e])[i] == inputs[i];
    }
  }

  lemma LastSent(inputs: seq<Input>, e: Input)
    requires e.Any?
    ensures AllSent(inputs + [e], e.n)
  {
    assert (inputs + [e])[|inputs|] == e;
  }

  /** Every byte delivered or queued was sent at its offset by some arrival. */
  lemma {:induction false} ReachableGenuine(cfg: Config, inputs: seq<Input>)
    ensures Genuine(inputs, RunAny(cfg, inputs))
  {
    if inputs != [] {
      var front, e := inputs[..|inputs| - 1], inputs[|inputs| - 1];
      assert inputs == front + [e];
      ReachableGenuine(cfg, front);
      var s := RunAny(cfg, front);
      hide AllSent, Insert, Consume, RunAny;
      MoreSent(front, e, Delivered(s));
      forall x | x in s.queue ensures AllSent(inputs, x) { MoreSent(front, e, x); }
      FeedGenuine(cfg, front, s, e);
      RunLast(cfg, front, e);
    }
  }

  lemma RunLast(cfg: Config, front: seq<Input>, e: Input)
    ensures RunAny(cfg, front + [e]) == Feed(cfg, RunAny(cfg, front), e)
  {
    assert (front + [e])[..|front|] == front;
  }

  lemma FeedGenuine(cfg: Config, front: seq<Input>, s: Stream, e: Input)
    requires Genuine(front + [e], s)
    ensures Genuine(front + [e], Feed(cfg, s, e))
  {
    hide AllSent, Insert, Consume;
    match e
    case Any(n, mem) =>
      LastSent(front, e);
      InsertGenuine(cfg, front + [e], s, n, mem);
    case Out(len) => ConsumeGenuine(cfg, front + [e], s, len);
  }

  // ----- arrivals from the wire -----

  /** What reaches the buffer: any number and payload, or a read. */
  datatype Transmission = Packet(number: int, payload: seq<byte>, mem: Memory) | Read(len: nat)

  predicate OnWire(w: Transmission) { w.Packet? ==> 0 <= w.number < MODULUS && |w.payload| <= MAX_LEN }

  function AsPlaced(isn: int, s: Stream, w: Transmission): Input {
    match w
    case Packet(number, payload, mem) => Any(Segment(Place(isn, s.consumed, number, |payload|), payload), mem)
    case Read(len) => Out(len)
  }

  function PlacedAll(cfg: Config, isn: int, wires: seq<Transmission>): (inputs: seq<Input>)
    ensures |inputs| == |wires|
  {
    if wires == [] then []
    else
      var front := PlacedAll(cfg, isn, wires[..|wires| - 1]);
      front + [AsPlaced(isn, RunAny(cfg, front), wires[|wires| - 1])]
  }

  lemma PlacedStep(cfg: Config, isn: int, wires: seq<Transmission>, i: nat)
    requires i < |wires|
    ensures var before := PlacedAll(cfg, isn, wires[..i]);
            && PlacedAll(cfg, isn, wires[..i + 1]) == before + [AsPlaced(isn, RunAny(cfg, before), wires[i])]
            && RunAny(cfg, PlacedAll(cfg, isn, wires[..i + 1]))
               == Feed(cfg, RunAny(cfg, before), AsPlaced(isn, RunAny(cfg, before), wires[i]))
  {
    assert wires[..i + 1][..i] == wires[..i];
    var before := PlacedAll(cfg, isn, wires[..i]);
    RunLast(cfg, before, AsPlaced(isn, RunAny(cfg, before), wires[i]));
  }

  /** Arrivals with any sequence numbers make a plausible run. */
  lemma {:induction false} WirePlausible(cfg: Config, isn: int, wires: seq<Transmission>)
    requires forall i :: 0 <= i < |wires| ==> OnWire(wires[i])
    ensures AllPlausible(cfg, PlacedAll(cfg, isn, wires))
  {
    if wires != [] {
      var last := |wires| - 1;
      WirePlausible(cfg, isn, wires[..last]);
      assert OnWire(wires[last]);
      var front := PlacedAll(cfg, isn, wires[..last]);
      var s := RunAny(cfg, front);
      if wires[last].Packet? { PlaceRange(isn, s.consumed, wires[last].number, |wires[last].payload|); }
      hide Place, RunAny;
      assert Plausible(s, AsPlaced(isn, s, wires[last]));
      assert (front + [AsPlaced(isn, s, wires[last])])[..last] == front;
    }
  }

  // ----- a merge that is too wide -----

  const BLOCK := 7000

  /** The k-th of a row of touching segments of 7000 bytes, the first of them beyond a gap. */
  function Block(k: nat): Segment { Segment(BLOCK * (k + 1), seq(BLOCK, _ => (k % 256) as byte)) }

  function Blocks(k: nat, m: nat): (q: Queue)
    requires k <= m
    ensures |q| == m - k && forall i :: 0 <= i < m - k ==> q[i] == Block(k + i)
    decreases m - k
  {
    if k == m then [] else [Block(k)] + Blocks(k + 1, m)
  }

  function BlockInputs(m: nat): (inputs: seq<Input>)
    ensures |inputs| == m
  {
    if m == 0 then [] else BlockInputs(m - 1) + [Any(Block(m - 1), Memory(true, {}))]
  }

  /** A segment beyond all queued ones is trimmed by none and goes to the end. */
  lemma {:induction false} BeyondAll(q: Queue, n: Segment)
    requires n.bytes != [] && forall i :: 0 <= i < |q| ==> q[i].off < q[i].End() <= n.off
    ensures TrimAll(q, n) == q && SortedInsert(q, n) == q + [n]
  {
    if q != [] {
      assert forall i :: 0 <= i < |q[1..]| ==> q[1..][i] == q[i + 1];
      BeyondAll(q[1..], n);
      assert [q[0]] + q[1..] == q;
      assert [q[0]] + (q[1..] + [n]) == q + [n];
    }
  }

  lemma BlockPlaced(m: nat)
    ensures Placed(Blocks(0, m), Block(m)) == Blocks(0, m + 1)
    ensures m < MERGE_ABOVE ==> Enqueue(Blocks(0, m), Block(m), {}) == Blocks(0, m + 1)
  {
    var q := Blocks(0, m);
    forall i | 0 <= i < |q| ensures q[i].off < q[i].End() <= Block(m).off { assert q[i] == Block(i); }
    BeyondAll(q, Block(m));
    NeverDuplicate(q, Block(m));
    assert q + [Block(m)] == Blocks(0, m + 1);
    hide Block;
  }

  /** Ten blocks arrive one after the other and wait in the queue. */
  lemma {:induction false} BlocksArrive(cfg: Config, m: nat)
    requires 0 <= cfg.maxBuffer && MERGE_ABOVE <= cfg.maxSegments && m <= MERGE_ABOVE
    ensures RunAny(cfg, BlockInputs(m)) == Stream(0, [], Blocks(0, m), 0) && AllPlausible(cfg, BlockInputs(m))
  {
    if m > 0 {
      BlocksArrive(cfg, m - 1);
      BlockPlaced(m - 1);
      BlockQueued(cfg, m - 1);
      var e := Any(Block(m - 1), Memory(true, {}));
      assert BlockInputs(m) == BlockInputs(m - 1) + [e];
      assert BlockInputs(m)[..m - 1] == BlockInputs(m - 1);
      RunLast(cfg, BlockInputs(m - 1), e);
      hide Enqueue, Drain, Blocks, BlockInputs;
    }
  }

  lemma BlockQueued(cfg: Config, m: nat)
    requires m < cfg.maxSegments && Enqueue(Blocks(0, m), Block(m), {}) == Blocks(0, m + 1)
    ensures Insert(cfg, Stream(0, [], Blocks(0, m), 0), Block(m), Memory(true, {}))
         == Stream(0, [], Blocks(0, m + 1), 0)
  {
    hide Enqueue;
    assert Blocks(0, m + 1)[0] == Block(0);
    hide Blocks;
  }

  lemma {:induction false} RowWidth(lo: int, k: nat, m: nat)
    requires k <= m && RunFits(lo, Block(k).off, Blocks(k, m))
    ensures Block(m).off - lo <= MAX_LEN
    decreases m - k
  {
    if k < m {
      assert Blocks(k, m)[0] == Block(k) && Blocks(k, m)[1..] == Blocks(k + 1, m);
      assert Block(k).End() == Block(k + 1).off;
      RowWidth(lo, k + 1, m);
    }
  }

  /**
   The limit is reached by ordinary arrivals: after ten touching segments of 7000 bytes beyond a gap, an eleventh
   triggers a merge pass whose run is too wide, and the favour-new law fails.
   */
  lemma WideMergeLoses(cfg: Config)
    requires 0 <= cfg.maxBuffer && MERGE_ABOVE < cfg.maxSegments
    ensures AllPlausible(cfg, BlockInputs(10))
    ensures var q := RunAny(cfg, BlockInputs(10)).queue;
            !MergeFits(q, Block(10)) && !Overrides(q, Block(10), Enqueue(q, Block(10), {}))
  {
    BlocksArrive(cfg, 10);
    BlockPlaced(10);
    var u := Blocks(0, 11);
    assert u[0] == Block(0) && u[1..] == Blocks(1, 11);
    assert Block(0).End() == Block(1).off;
    if RunsFit(u) { RowWidth(Block(0).off, 1, 11); }
    hide Enqueue, Overrides, RunAny, RunsFit;
    ReachableOverride(cfg, BlockInputs(10), Block(10), {});
  }
}
