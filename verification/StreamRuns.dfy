/**
 Whole runs of a stream buffer: delivered bytes are always right, queued segments stay laminar, nothing
 held is lost, and aligned pieces reassemble whatever the order of arrival.
 */
module StreamRuns {
  import opened SegmentQueue
  import opened SeqNumbers
  import opened StreamModel

  // ----- runs over one stream -----

  /** The sender's segment stream[off..off+len], or the application taking bytes out. */
  datatype Event = Arrive(off: nat, len: nat, mem: Memory) | Take(len: nat)

  predicate Sendable(stream: seq<byte>, e: Event) {
    e.Arrive? ==> e.off + e.len <= |stream| && e.len <= MAX_LEN
  }

  function Sent(stream: seq<byte>, e: Event): Segment
    requires e.Arrive? && Sendable(stream, e)
  {
    Segment(e.off, stream[e.off..e.off + e.len])
  }

  /** A segment's end is less than half the sequence space away from the base of the buffer. */
  predicate InWindow(s: Stream, e: Event) {
    e.Arrive? ==> s.consumed - HALF_SPACE <= e.off + e.len < s.consumed + HALF_SPACE
  }

  function Step(cfg: Config, stream: seq<byte>, s: Stream, e: Event): Stream
    requires Sendable(stream, e)
  {
    match e
    case Arrive(_, _, mem) => Insert(cfg, s, Sent(stream, e), mem)
    case Take(len) => Consume(cfg, s, len)
  }

  ghost predicate AllSendable(stream: seq<byte>, events: seq<Event>) {
    forall e :: e in events ==> Sendable(stream, e)
  }

  function Run(cfg: Config, stream: seq<byte>, s: Stream, events: seq<Event>): Stream
    requires AllSendable(stream, events)
    decreases |events|
  {
    if events == [] then s
    else
      var last := |events| - 1;
      Step(cfg, stream, Run(cfg, stream, s, events[..last]), events[last])
  }

  ghost predicate RunInWindow(cfg: Config, stream: seq<byte>, s: Stream, events: seq<Event>)
    requires AllSendable(stream, events)
  {
    forall i :: 0 <= i < |events| ==> InWindow(Run(cfg, stream, s, events[..i]), events[i])
  }

  lemma WindowPrefix(cfg: Config, stream: seq<byte>, s: Stream, events: seq<Event>)
    requires events != [] && AllSendable(stream, events) && RunInWindow(cfg, stream, s, events)
    ensures RunInWindow(cfg, stream, s, events[..|events| - 1])
    ensures InWindow(Run(cfg, stream, s, events[..|events| - 1]), events[|events| - 1])
  {
    var before := events[..|events| - 1];
    forall i | 0 <= i < |before| ensures InWindow(Run(cfg, stream, s, before[..i]), before[i]) {
      assert before[..i] == events[..i];
    }
  }

  /** In every run the buffer equals the stream between base and next, and every counter and limit agrees. */
  lemma {:induction false} StreamSafety(cfg: Config, stream: seq<byte>, events: seq<Event>)
    requires 0 <= cfg.maxBuffer && 0 <= cfg.maxSegments
    requires AllSendable(stream, events) && RunInWindow(cfg, stream, Fresh(), events)
    ensures Good(cfg, Run(cfg, stream, Fresh(), events))
    ensures Faithful(stream, Run(cfg, stream, Fresh(), events))
    decreases |events|
  {
    hide Insert, Consume;
    if events != [] {
      var before, e := events[..|events| - 1], events[|events| - 1];
      WindowPrefix(cfg, stream, Fresh(), events);
      StreamSafety(cfg, stream, before);
      var s := Run(cfg, stream, Fresh(), before);
      match e
      case Arrive(_, _, mem) =>
        InsertGood(cfg, s, Sent(stream, e), mem);
        InsertFaithful(cfg, stream, s, Sent(stream, e), mem);
      case Take(len) =>
        ConsumeGood(cfg, s, len);
        ConsumeFaithful(cfg, stream, s, len);
    }
  }

  // ----- shape of reachable queues -----

  lemma {:induction false} DrainLaminar(max: int, s: Stream)
    requires Laminar(s.queue)
    ensures Laminar(Drain(max, s).queue)
    decreases |s.queue|
  {
    if s.queue != [] {
      LaminarTail(s.queue);
      DrainLaminar(max, s.(queue := s.queue[1..]));
      DrainLaminar(max, Deliver(s, s.queue[0].bytes).(queue := s.queue[1..]));
    }
  }

  /** Arrivals of any content keep the queue laminar. */
  lemma InsertLaminarStream(cfg: Config, s: Stream, n: Segment, mem: Memory)
    requires Laminar(s.queue) && Short(s.queue) && |n.bytes| <= MAX_LEN
    ensures Laminar(Insert(cfg, s, n, mem).queue)
  {
    if n.bytes != [] && n.End() > s.consumed {
      var m := After(n, s.consumed);
      if m.off == s.Next() {
        DrainLaminar(cfg.maxBuffer, Deliver(s, m.bytes));
      } else if m.End() > s.Next() {
        var u := After(m, s.Next());
        EnqueueLaminar(s.queue, u, mem.failedMerges);
        DrainLaminar(cfg.maxBuffer, s.(queue := Enqueue(s.queue, u, mem.failedMerges)));
      }
    }
  }

  lemma ConsumeLaminar(cfg: Config, s: Stream, len: nat)
    requires Laminar(s.queue)
    ensures Laminar(Consume(cfg, s, len).queue)
  {
    var k := if len > |s.data| then |s.data| else len;
    DrainLaminar(cfg.maxBuffer, s.(consumed := s.consumed + k, data := s.data[k..]));
  }

  lemma {:induction false} ReachableLaminar(cfg: Config, stream: seq<byte>, events: seq<Event>)
    requires 0 <= cfg.maxBuffer && 0 <= cfg.maxSegments
    requires AllSendable(stream, events) && RunInWindow(cfg, stream, Fresh(), events)
    ensures Laminar(Run(cfg, stream, Fresh(), events).queue)
    decreases |events|
  {
    hide Insert, Consume;
    if events != [] {
      var before, e := events[..|events| - 1], events[|events| - 1];
      WindowPrefix(cfg, stream, Fresh(), events);
      ReachableLaminar(cfg, stream, before);
      StreamSafety(cfg, stream, before);
      var s := Run(cfg, stream, Fresh(), before);
      assert Laminar(s.queue) && Short(s.queue);
      hide Laminar, Good, Faithful, RunInWindow;
      assert e in events;
      match e
      case Arrive(_, _, mem) => InsertLaminarStream(cfg, s, Sent(stream, e), mem);
      case Take(len) => ConsumeLaminar(cfg, s, len);
    }
  }

  // ----- what is held -----

  /** Offset `o` has been delivered or is covered by the queue. */
  predicate Held(s: Stream, o: int) {
    o < s.Next() || Lookup(s.queue, o).Some?
  }

  /** No queued segment reaches across the next expected offset. */
  ghost predicate NoStraddle(s: Stream) {
    forall x :: x in s.queue ==> s.Next() <= x.off || x.End() <= s.Next()
  }

  /** Draining a laminar queue drops segments whole, yet loses nothing. */
  lemma {:induction false} DrainHolds(max: int, s: Stream, o: int)
    requires Laminar(s.queue) && NoStraddle(s)
    ensures Held(Drain(max, s), o) == Held(s, o)
    decreases |s.queue|
  {
    if s.queue != [] {
      var q, h, rest := s.queue, s.queue[0], s.queue[1..];
      LaminarTail(q);
      if h.off < s.Next() {
        assert h.End() <= s.Next();
        DrainHolds(max, s.(queue := rest), o);
      } else if h.off == s.Next() && |s.data| + |h.bytes| <= max {
        var s' := Deliver(s, h.bytes).(queue := rest);
        forall x | x in rest ensures s'.Next() <= x.off || x.End() <= s'.Next() {
          var i :| 0 <= i < |rest| && rest[i] == x;
          assert Before(q[0], q[i + 1]);
        }
        DrainHolds(max, s', o);
        LookupNone(rest, o);
      }
    }
  }

  /** The queued segments that start at or after `edge`. */
  function From(q: Queue, edge: int): Queue {
    if q == [] then [] else if q[0].off < edge then From(q[1..], edge) else q
  }

  lemma {:induction false} DrainSkips(max: int, s: Stream)
    ensures Drain(max, s) == Drain(max, s.(queue := From(s.queue, s.Next())))
    decreases |s.queue|
  {
    if s.queue != [] && s.queue[0].off < s.Next() {
      DrainSkips(max, s.(queue := s.queue[1..]));
    }
  }

  lemma {:induction false} FromShape(q: Queue, edge: int)
    requires Laminar(q)
    ensures Laminar(From(q, edge)) && forall x :: x in From(q, edge) ==> x in q && edge <= x.off
  {
    if q != [] {
      LaminarTail(q);
      FromShape(q[1..], edge);
      LaminarSorted(q);
    }
  }

  /**
   An in-order arrival keeps, beyond its own end, exactly what the segments starting there or later
   cover: a queued segment that reaches across the end is dropped whole.
   */
  lemma InOrderHolds(cfg: Config, s: Stream, n: Segment, mem: Memory, o: int)
    requires Laminar(s.queue) && n.bytes != [] && n.off == s.Next() && |s.data| + |n.bytes| <= cfg.maxBuffer
    ensures Held(Insert(cfg, s, n, mem), o) <==> o < n.End() || Lookup(From(s.queue, n.End()), o).Some?
  {
    var s1 := Deliver(s, n.bytes);
    var s2 := s1.(queue := From(s.queue, n.End()));
    assert After(n, s.consumed) == n;
    DrainSkips(cfg.maxBuffer, s1);
    FromShape(s.queue, n.End());
    DrainHolds(cfg.maxBuffer, s2, o);
  }

  lemma StartClosed(edge: int, n: Segment)
    requires edge <= n.off
    ensures Closed((x: Segment) => edge <= x.off, n)
  {
  }

  /** What the queue covers after queueing: what it covered, and the new segment. */
  lemma EnqueueCovers(q: Queue, n: Segment, failed: set<nat>, o: int)
    requires Laminar(q) && n.bytes != [] && MergeFits(q, n)
    ensures Lookup(Enqueue(q, n, failed), o).Some? <==> Lookup(q, o).Some? || n.Covers(o)
    ensures Laminar(Enqueue(q, n, failed))
  {
    EnqueueMeaning(q, n, failed);
    LookupNone(q, o);
    hide Enqueue, MergeFits, Laminar, Lookup;
    if Dominated(q, n) && n.Covers(o) {
      var i :| 0 <= i < |q| && Dominates(q[i], n);
      assert q[i].Covers(o);
    }
  }

  /** An arrival that is not next, is admitted to the queue and triggers no over-long merge loses nothing. */
  lemma QueuedHolds(cfg: Config, s: Stream, n: Segment, mem: Memory, o: int)
    requires Laminar(s.queue) && Good(cfg, s) && s.Next() < n.End()
    requires n.bytes != [] && After(n, s.consumed).off != s.Next()
    requires mem.segmentOk && |s.queue| < cfg.maxSegments
    requires MergeFits(s.queue, After(After(n, s.consumed), s.Next()))
    ensures Held(Insert(cfg, s, n, mem), o) <==> Held(s, o) || n.Covers(o)
  {
    var u := After(After(n, s.consumed), s.Next());
    var q := Enqueue(s.queue, u, mem.failedMerges);
    assert u.off >= s.Next() && u.End() == n.End() && u.bytes != [];
    assert Insert(cfg, s, n, mem) == Drain(cfg.maxBuffer, s.(queue := q));
    assert forall x :: x in s.queue ==> s.Next() <= x.off;
    hide Insert, Drain, Enqueue, MergeFits, Laminar, Good, Closed, Lookup;
    EnqueueCovers(s.queue, u, mem.failedMerges, o);
    StartClosed(s.Next(), u);
    EnqueueMembers(s.queue, u, mem.failedMerges, (x: Segment) => s.Next() <= x.off);
    DrainHolds(cfg.maxBuffer, s.(queue := q), o);
  }

  /** So overlapping arrivals can lose bytes: 2..5 arrives first, 0..3 arrives in order, 3 and 4 are gone. */
  lemma OverlapLoses(first: Memory, mem: Memory)
    requires first.segmentOk
    ensures var cfg := Config(100, 10);
            var s := Insert(cfg, Fresh(), Segment(2, [12, 13, 14]), first);
            var s' := Insert(cfg, s, Segment(0, [10, 11, 12]), mem);
            && s == Stream(0, [], [Segment(2, [12, 13, 14])], 0) && s' == Stream(0, [10, 11, 12], [], 3)
            && Held(s, 3) && !Held(s', 3)
  {
    var n := Segment(2, [12, 13, 14]);
    assert TrimAll([], n) == [] && Enqueue([], n, first.failedMerges) == [n];
    var s := Stream(0, [], [n], 0);
    assert Insert(Config(100, 10), Fresh(), n, first) == s;
    var s1 := Deliver(s, [10, 11, 12]);
    assert s1.queue[1..] == [];
    assert Drain(100, s1) == Drain(100, s1.(queue := []));
  }
}
