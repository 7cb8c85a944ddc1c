/**
 Arrival-order independence: a byte string cut into consecutive pieces is reassembled exactly, in
 whatever order and however often the pieces arrive.
 */
module ArrivalOrder {
  import opened SegmentQueue
  import opened StreamModel
  import opened StreamRuns

  /** One piece arriving; its record is allocated, while any merge allocation may fail. */
  datatype Arrival = Arrival(piece: nat, failedMerges: set<nat>)

  ghost predicate Cutting(stream: seq<byte>, cuts: seq<nat>) {
    && |cuts| >= 1 && cuts[0] == 0 && cuts[|cuts| - 1] == |stream|
    && forall i, j :: 0 <= i < j < |cuts| ==> cuts[i] < cuts[j]
  }

  function ArrivalEvent(cuts: seq<nat>, a: Arrival): Event
    requires a.piece + 1 < |cuts| && cuts[a.piece] <= cuts[a.piece + 1]
  {
    Arrive(cuts[a.piece], cuts[a.piece + 1] - cuts[a.piece], Memory(true, a.failedMerges))
  }

  ghost predicate Pieces(stream: seq<byte>, cuts: seq<nat>, order: seq<Arrival>) {
    Cutting(stream, cuts) && forall a :: a in order ==> a.piece + 1 < |cuts|
  }

  function Events(stream: seq<byte>, cuts: seq<nat>, order: seq<Arrival>): (es: seq<Event>)
    requires Pieces(stream, cuts, order) && |stream| <= MAX_LEN
    ensures |es| == |order| && AllSendable(stream, es)
  {
    if order == [] then []
    else
      var last := |order| - 1;
      assert forall i, j :: 0 <= i <= j < |cuts| ==> cuts[i] <= cuts[j];
      Events(stream, cuts, order[..last]) + [ArrivalEvent(cuts, order[last])]
  }

  /** A queued segment starts and ends at cuts, beyond `next`. */
  predicate Aligned(stream: seq<byte>, cuts: seq<nat>, next: int, x: Segment) {
    SliceOf(stream, x) && next < x.off && x.off in cuts && x.End() in cuts
  }

  ghost predicate Orderly(cfg: Config, stream: seq<byte>, cuts: seq<nat>, s: Stream) {
    && s.consumed == 0 && Good(cfg, s) && Faithful(stream, s) && Laminar(s.queue)
    && s.Next() in cuts
    && forall x :: x in s.queue ==> Aligned(stream, cuts, s.Next(), x)
  }

  lemma {:induction false} WithinFits(lo: int, hi: int, q: Queue)
    requires 0 <= lo && hi <= MAX_LEN && forall x :: x in q ==> 0 <= x.off && x.End() <= MAX_LEN
    ensures RunFits(lo, hi, q)
    decreases |q|
  {
    if q != [] {
      assert q[0] in q;
      WithinFits(lo, Max(hi, q[0].End()), q[1..]);
      WithinFits(q[0].off, q[0].End(), q[1..]);
    }
  }

  lemma AlignedClosed(stream: seq<byte>, cuts: seq<nat>, next: int, n: Segment)
    requires |stream| <= MAX_LEN && Aligned(stream, cuts, next, n)
    ensures Closed(x => Aligned(stream, cuts, next, x), n)
  {
    forall c, x | Aligned(stream, cuts, next, c) && x in Trim(c, n) ensures Aligned(stream, cuts, next, x) {
      TrimSlice(stream, c, n);
    }
    forall a, b | Aligned(stream, cuts, next, a) && Aligned(stream, cuts, next, b) && b.off <= a.End() < b.End()
      ensures Aligned(stream, cuts, next, Join(a, b))
    {
      JoinSlice(stream, a, b);
    }
  }

  lemma PlacedWithin(stream: seq<byte>, q: Queue, n: Segment)
    requires |stream| <= MAX_LEN && SliceOf(stream, n) && forall x :: x in q ==> SliceOf(stream, x)
    ensures MergeFits(q, n)
  {
    var u := Placed(q, n);
    forall x | x in u ensures SliceOf(stream, x) {
      SortedInsertMember(TrimAll(q, n), n, x);
      if x != n {
        TrimAllMember(q, n, x);
        var i :| 0 <= i < |q| && x in Trim(q[i], n);
        assert q[i] in q;
        TrimSlice(stream, q[i], n);
      }
    }
    assert u[0] in u && forall x :: x in u[1..] ==> x in u;
    WithinFits(u[0].off, u[0].End(), u[1..]);
  }

  /** With room for the whole stream, draining stops only at a gap, and stays on the cuts. */
  lemma {:induction false} DrainOrderly(cfg: Config, stream: seq<byte>, cuts: seq<nat>, s: Stream)
    requires |stream| <= cfg.maxBuffer && s.consumed == 0 && Faithful(stream, s) && Sorted(s.queue)
    requires s.Next() in cuts && forall x :: x in s.queue ==> x.off in cuts && x.End() in cuts
    ensures var r := Drain(cfg.maxBuffer, s);
            && r.consumed == 0 && r.Next() in cuts && |r.queue| <= |s.queue|
            && forall x :: x in r.queue ==> r.Next() < x.off && x.off in cuts && x.End() in cuts
    decreases |s.queue|
  {
    if s.queue != [] {
      var h, rest := s.queue[0], s.queue[1..];
      assert h in s.queue && SliceOf(stream, h);
      SortedTail(s.queue);
      if h.off < s.Next() {
        DrainOrderly(cfg, stream, cuts, s.(queue := rest));
      } else if h.off == s.Next() {
        DrainOrderly(cfg, stream, cuts, Deliver(s, h.bytes).(queue := rest));
      }
    }
  }

  lemma PieceAligned(stream: seq<byte>, cuts: seq<nat>, q: Queue, next: int, n: Segment, failed: set<nat>)
    requires |stream| <= MAX_LEN && Aligned(stream, cuts, next, n)
    requires forall x :: x in q ==> Aligned(stream, cuts, next, x)
    ensures forall x :: x in Enqueue(q, n, failed) ==> Aligned(stream, cuts, next, x)
  {
    AlignedClosed(stream, cuts, next, n);
    hide Enqueue, Closed, Aligned;
    EnqueueMembers(q, n, failed, x => Aligned(stream, cuts, next, x));
  }

  /** What queueing a piece does to the queue. */
  lemma PieceEnqueued(stream: seq<byte>, cuts: seq<nat>, q: Queue, next: int, n: Segment, failed: set<nat>)
    requires |stream| <= MAX_LEN && Laminar(q) && Aligned(stream, cuts, next, n) && n.bytes != []
    requires forall x :: x in q ==> Aligned(stream, cuts, next, x)
    ensures Laminar(Enqueue(q, n, failed)) && |Enqueue(q, n, failed)| <= |q| + 1
    ensures forall x :: x in Enqueue(q, n, failed) ==> Aligned(stream, cuts, next, x)
    ensures forall o :: Lookup(Enqueue(q, n, failed), o).Some? <==> Lookup(q, o).Some? || n.Covers(o)
  {
    assert SliceOf(stream, n) && forall x :: x in q ==> SliceOf(stream, x);
    hide *;
    PieceAligned(stream, cuts, q, next, n, failed);
    PlacedWithin(stream, q, n);
    EnqueueCovers(q, n, failed, 0);
    forall o ensures Lookup(Enqueue(q, n, failed), o).Some? <==> Lookup(q, o).Some? || n.Covers(o) {
      EnqueueCovers(q, n, failed, o);
    }
  }

  /** With its head beyond the next number, a queue stays as it is. */
  lemma PieceStays(cfg: Config, s: Stream, n: Segment, mem: Memory)
    requires s.consumed == 0 && s.Next() < n.off && n.bytes != []
    requires mem.segmentOk && |s.queue| < cfg.maxSegments
    requires var q := Enqueue(s.queue, n, mem.failedMerges); q != [] ==> s.Next() < q[0].off
    ensures Insert(cfg, s, n, mem) == s.(queue := Enqueue(s.queue, n, mem.failedMerges))
  {
    hide Enqueue;
  }

  /** A piece that is not next joins the queue, and everything held stays held. */
  lemma QueuePiece(cfg: Config, stream: seq<byte>, cuts: seq<nat>, s: Stream, n: Segment, mem: Memory)
    requires Orderly(cfg, stream, cuts, s) && |stream| <= MAX_LEN
    requires Aligned(stream, cuts, s.Next(), n) && n.bytes != []
    requires mem.segmentOk && |s.queue| < cfg.maxSegments
    ensures var s' := Insert(cfg, s, n, mem);
            && Orderly(cfg, stream, cuts, s') && |s'.queue| <= |s.queue| + 1
            && forall o :: Held(s, o) || n.Covers(o) ==> Held(s', o)
  {
    assert SliceOf(stream, n) && s.Next() < n.off && n.End() <= |stream|;
    assert Good(cfg, s) && Faithful(stream, s) && s.consumed == 0;
    PieceEnqueued(stream, cuts, s.queue, s.Next(), n, mem.failedMerges);
    hide Enqueue, Insert, Good, Faithful, Laminar, Lookup;
    var q := Enqueue(s.queue, n, mem.failedMerges);
    if q != [] { HeadMember(q); }
    PieceStays(cfg, s, n, mem);
    InsertGood(cfg, s, n, mem);
    InsertFaithful(cfg, stream, s, n, mem);
  }

  /** Past the next piece, every queued segment starts at its end or later. */
  lemma BeyondPiece(stream: seq<byte>, cuts: seq<nat>, q: Queue, i: nat)
    requires Cutting(stream, cuts) && i + 1 < |cuts|
    requires forall x :: x in q ==> Aligned(stream, cuts, cuts[i], x)
    ensures forall x :: x in q ==> cuts[i + 1] <= x.off
  {
    forall x | x in q ensures cuts[i + 1] <= x.off {
      var j :| 0 <= j < |cuts| && cuts[j] == x.off;
      assert Aligned(stream, cuts, cuts[i], x);
    }
  }

  lemma NextPiece(cfg: Config, stream: seq<byte>, cuts: seq<nat>, s: Stream, i: nat, mem: Memory)
    requires Orderly(cfg, stream, cuts, s) && Cutting(stream, cuts) && i + 1 < |cuts|
    requires cuts[i] < cuts[i + 1] <= |stream| <= cfg.maxBuffer && cuts[i] == s.Next() && |stream| <= MAX_LEN
    ensures var n := Segment(cuts[i], stream[cuts[i]..cuts[i + 1]]);
            var s' := Insert(cfg, s, n, mem);
            && Orderly(cfg, stream, cuts, s') && |s'.queue| <= |s.queue|
            && forall o :: Held(s, o) || n.Covers(o) ==> Held(s', o)
  {
    var n := Segment(cuts[i], stream[cuts[i]..cuts[i + 1]]);
    var s1 := Deliver(s, n.bytes);
    var s' := Drain(cfg.maxBuffer, s1);
    assert Insert(cfg, s, n, mem) == s';
    InsertGood(cfg, s, n, mem);
    InsertFaithful(cfg, stream, s, n, mem);
    BeyondPiece(stream, cuts, s.queue, i);
    hide Cutting, Insert, Drain;
    assert s1.Next() == cuts[i + 1];
    assert Faithful(stream, s1);
    DrainOrderly(cfg, stream, cuts, s1);
    DrainLaminar(cfg.maxBuffer, s1);
    assert Orderly(cfg, stream, cuts, s');
    assert NoStraddle(s1);
    hide Orderly, Faithful, Good, Aligned;
    forall o | Held(s, o) || n.Covers(o) ensures Held(s', o) {
      DrainHolds(cfg.maxBuffer, s1, o);
    }
  }

  /** One arrival of one piece, in any orderly state. */
  lemma PieceStep(cfg: Config, stream: seq<byte>, cuts: seq<nat>, s: Stream, a: Arrival)
    requires Orderly(cfg, stream, cuts, s) && Cutting(stream, cuts) && a.piece + 1 < |cuts|
    requires cuts[a.piece] < cuts[a.piece + 1] <= |stream| <= cfg.maxBuffer && |stream| <= MAX_LEN
    requires |s.queue| < cfg.maxSegments
    ensures var s' := Step(cfg, stream, s, ArrivalEvent(cuts, a));
            && Orderly(cfg, stream, cuts, s') && |s'.queue| <= |s.queue| + 1
            && forall o :: Held(s, o) || cuts[a.piece] <= o < cuts[a.piece + 1] ==> Held(s', o)
  {
    var i := a.piece;
    var e := ArrivalEvent(cuts, a);
    var n := Sent(stream, e);
    assert n == Segment(cuts[i], stream[cuts[i]..cuts[i + 1]]);
    if cuts[i] == s.Next() {
      NextPiece(cfg, stream, cuts, s, i, e.mem);
    } else if cuts[i] > s.Next() {
      QueuePiece(cfg, stream, cuts, s, n, e.mem);
    } else {
      var j :| 0 <= j < |cuts| && cuts[j] == s.Next();
      assert j >= i + 1;
      assert n.End() <= s.Next();
    }
  }

  predicate Includes(order: seq<Arrival>, i: nat) {
    exists a :: a in order && a.piece == i
  }

  /** Everything that has arrived is held, and the run is orderly. */
  ghost predicate Progress(cfg: Config, stream: seq<byte>, cuts: seq<nat>, order: seq<Arrival>, s: Stream) {
    && Orderly(cfg, stream, cuts, s) && |s.queue| <= |order|
    && forall i: nat, o :: Includes(order, i) && i + 1 < |cuts| && cuts[i] <= o < cuts[i + 1] ==> Held(s, o)
  }

  lemma RunSnoc(cfg: Config, stream: seq<byte>, s: Stream, events: seq<Event>, e: Event)
    requires AllSendable(stream, events) && Sendable(stream, e)
    ensures AllSendable(stream, events + [e])
    ensures Run(cfg, stream, s, events + [e]) == Step(cfg, stream, Run(cfg, stream, s, events), e)
  {
    assert (events + [e])[..|events|] == events;
  }

  lemma ProgressStep(cfg: Config, stream: seq<byte>, cuts: seq<nat>, order: seq<Arrival>, s: Stream, a: Arrival)
    requires Cutting(stream, cuts) && Progress(cfg, stream, cuts, order, s) && a.piece + 1 < |cuts|
    requires |stream| <= MAX_LEN && |stream| <= cfg.maxBuffer && |order| < cfg.maxSegments
    requires cuts[a.piece] < cuts[a.piece + 1] <= |stream|
    ensures Progress(cfg, stream, cuts, order + [a], Step(cfg, stream, s, ArrivalEvent(cuts, a)))
  {
    var s' := Step(cfg, stream, s, ArrivalEvent(cuts, a));
    PieceStep(cfg, stream, cuts, s, a);
    hide Step, Orderly, Held;
    forall i: nat, o | Includes(order + [a], i) && i + 1 < |cuts| && cuts[i] <= o < cuts[i + 1] ensures Held(s', o) {
      var b :| b in order + [a] && b.piece == i;
      if b in order { assert Includes(order, i); }
    }
  }

  lemma {:induction false} OrderlyRun(cfg: Config, stream: seq<byte>, cuts: seq<nat>, order: seq<Arrival>)
    requires Pieces(stream, cuts, order) && |stream| <= MAX_LEN && |stream| <= cfg.maxBuffer
    requires |order| <= cfg.maxSegments
    ensures Progress(cfg, stream, cuts, order, Run(cfg, stream, Fresh(), Events(stream, cuts, order)))
    decreases |order|
  {
    hide Step;
    if order == [] {
      assert cuts[0] in cuts;
    } else {
      hide Progress, Run, Events, Cutting;
      var before, a := order[..|order| - 1], order[|order| - 1];
      OrderlyRun(cfg, stream, cuts, before);
      assert order == before + [a];
      EventsSnoc(stream, cuts, before, a);
      var es := Events(stream, cuts, before);
      ProgressStep(cfg, stream, cuts, before, Run(cfg, stream, Fresh(), es), a);
      RunSnoc(cfg, stream, Fresh(), es, ArrivalEvent(cuts, a));
    }
  }

  lemma EventsSnoc(stream: seq<byte>, cuts: seq<nat>, before: seq<Arrival>, a: Arrival)
    requires Pieces(stream, cuts, before + [a]) && |stream| <= MAX_LEN
    ensures Pieces(stream, cuts, before) && a.piece + 1 < |cuts| && cuts[a.piece] < cuts[a.piece + 1] <= |stream|
    ensures Events(stream, cuts, before + [a]) == Events(stream, cuts, before) + [ArrivalEvent(cuts, a)]
    ensures Sendable(stream, ArrivalEvent(cuts, a))
  {
    assert a in before + [a];
    assert a.piece + 1 < |cuts| - 1 ==> cuts[a.piece + 1] < cuts[|cuts| - 1];
    assert (before + [a])[..|before|] == before;
  }

  lemma {:induction false} PieceOf(cuts: seq<nat>, o: nat, n: nat) returns (i: nat)
    requires 0 < n < |cuts| && cuts[0] <= o < cuts[n]
    ensures i + 1 < |cuts| && cuts[i] <= o < cuts[i + 1]
  {
    if cuts[n - 1] <= o { i := n - 1; } else { i := PieceOf(cuts, o, n - 1); }
  }

  lemma HeadMember(q: Queue)
    requires q != []
    ensures q[0] in q
  {
  }

  /** An orderly stream that holds everything has delivered everything. */
  lemma Finished(cfg: Config, stream: seq<byte>, cuts: seq<nat>, s: Stream)
    requires Orderly(cfg, stream, cuts, s) && forall o :: 0 <= o < |stream| ==> Held(s, o)
    ensures s == Stream(0, stream, [], |stream|)
  {
    LookupNone(s.queue, s.Next());
    forall i | 0 <= i < |s.queue| ensures !s.queue[i].Covers(s.Next()) {
      assert s.queue[i] in s.queue;
    }
    assert !Held(s, s.Next());
    assert stream[0..|stream|] == stream;
    if s.queue != [] { HeadMember(s.queue); }
  }

  lemma {:induction false} EventsPrefix(stream: seq<byte>, cuts: seq<nat>, order: seq<Arrival>, i: nat)
    requires Pieces(stream, cuts, order) && |stream| <= MAX_LEN && i < |order|
    ensures Pieces(stream, cuts, order[..i]) && order[i].piece + 1 < |cuts|
    ensures cuts[order[i].piece] < cuts[order[i].piece + 1] <= |stream|
    ensures Events(stream, cuts, order)[..i] == Events(stream, cuts, order[..i])
    ensures Events(stream, cuts, order)[i] == ArrivalEvent(cuts, order[i])
    decreases |order|
  {
    var before, a := order[..|order| - 1], order[|order| - 1];
    assert order == before + [a];
    EventsSnoc(stream, cuts, before, a);
    hide Cutting, Events, ArrivalEvent, AllSendable;
    if i < |before| {
      EventsPrefix(stream, cuts, before, i);
      assert before[..i] == order[..i];
    } else {
      assert order[..i] == before;
    }
  }

  /** Pieces of a stream arrive within the window throughout. */
  lemma PiecesInWindow(cfg: Config, stream: seq<byte>, cuts: seq<nat>, order: seq<Arrival>)
    requires Pieces(stream, cuts, order) && |stream| <= MAX_LEN && |stream| <= cfg.maxBuffer
    requires |order| <= cfg.maxSegments
    ensures RunInWindow(cfg, stream, Fresh(), Events(stream, cuts, order))
  {
    var es := Events(stream, cuts, order);
    hide Run, Events, Cutting;
    forall i | 0 <= i < |es| ensures InWindow(Run(cfg, stream, Fresh(), es[..i]), es[i]) {
      EventsPrefix(stream, cuts, order, i);
      OrderlyRun(cfg, stream, cuts, order[..i]);
    }
  }

  /** If every piece arrives at least once, the buffer ends as exactly the stream, with an empty queue. */
  lemma OrderIndependence(cfg: Config, stream: seq<byte>, cuts: seq<nat>, order: seq<Arrival>)
    requires Pieces(stream, cuts, order) && |stream| <= MAX_LEN && |stream| <= cfg.maxBuffer
    requires |order| <= cfg.maxSegments
    requires forall i :: 0 <= i < |cuts| - 1 ==> Includes(order, i)
    ensures Run(cfg, stream, Fresh(), Events(stream, cuts, order)) == Stream(0, stream, [], |stream|)
  {
    var s := Run(cfg, stream, Fresh(), Events(stream, cuts, order));
    OrderlyRun(cfg, stream, cuts, order);
    forall o | 0 <= o < |stream| ensures Held(s, o) {
      var i := PieceOf(cuts, o, |cuts| - 1);
      assert Includes(order, i);
    }
    Finished(cfg, stream, cuts, s);
  }
}
