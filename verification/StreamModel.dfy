/**
 A stream buffer on unbounded stream offsets: delivered data, the out-of-order queue, and the runs of
 arrivals and consumptions over them.
 */
module StreamModel {
  import opened SegmentQueue
  import opened SeqNumbers

  datatype Config = Config(maxBuffer: int, maxSegments: int)

  /** Outcomes of the allocations one arrival may ask for. */
  datatype Memory = Memory(segmentOk: bool, failedMerges: set<nat>)

  datatype Stream = Stream(consumed: int, data: seq<byte>, queue: Queue, total: int) {
    /** The next expected offset. */
    function Next(): int { consumed + |data| }
  }

  function Fresh(): Stream { Stream(0, [], [], 0) }

  function Deliver(s: Stream, bytes: seq<byte>): Stream {
    s.(data := s.data + bytes, total := s.total + |bytes|)
  }

  /** Move queued segments into the buffer while the head is the next expected one. */
  function Drain(maxBuffer: int, s: Stream): Stream
    decreases |s.queue|
  {
    if s.queue == [] then s
    else
      var h, rest := s.queue[0], s.queue[1..];
      if h.off > s.Next() then s
      else if h.off < s.Next() then Drain(maxBuffer, s.(queue := rest))
      else if |s.data| + |h.bytes| > maxBuffer then s
      else Drain(maxBuffer, Deliver(s, h.bytes).(queue := rest))
  }

  /** `n` without what lies before `p`. */
  function After(n: Segment, p: int): Segment
    requires p <= n.End()
  {
    if n.off < p then Segment(p, n.bytes[p - n.off..]) else n
  }

  function Insert(cfg: Config, s: Stream, n: Segment, mem: Memory): Stream {
    if n.bytes == [] || n.End() <= s.consumed then s
    else
      var m := After(n, s.consumed);
      if m.off == s.Next() then
        if |s.data| + |m.bytes| > cfg.maxBuffer then s
        else Drain(cfg.maxBuffer, Deliver(s, m.bytes))
      else if m.End() <= s.Next() then s
      else if !mem.segmentOk || |s.queue| >= cfg.maxSegments then s
      else Drain(cfg.maxBuffer, s.(queue := Enqueue(s.queue, After(m, s.Next()), mem.failedMerges)))
  }

  function Consume(cfg: Config, s: Stream, len: nat): Stream {
    var k := if len > |s.data| then |s.data| else len;
    if len == 0 then s
    else Drain(cfg.maxBuffer, s.(consumed := s.consumed + k, data := s.data[k..]))
  }

  // ----- what every operation keeps -----

  /** The queue lies ahead of the buffer and within half the sequence space of its base. */
  ghost predicate Ahead(s: Stream) {
    forall x :: x in s.queue ==> s.Next() <= x.off && x.End() < s.consumed + HALF_SPACE
  }

  ghost predicate Good(cfg: Config, s: Stream) {
    && 0 <= s.consumed
    && s.total == s.consumed + |s.data|
    && |s.data| <= cfg.maxBuffer
    && |s.queue| <= cfg.maxSegments
    && Sorted(s.queue) && Short(s.queue) && Ahead(s)
  }

  /** `x` carries the bytes of `stream` at its offset. */
  predicate SliceOf(stream: seq<byte>, x: Segment) {
    0 <= x.off && x.End() <= |stream| && x.bytes == stream[x.off..x.End()]
  }

  /** Buffer and queue hold nothing but the right bytes of `stream`. */
  ghost predicate Faithful(stream: seq<byte>, s: Stream) {
    && 0 <= s.consumed && s.Next() <= |stream|
    && s.data == stream[s.consumed..s.Next()]
    && forall x :: x in s.queue ==> SliceOf(stream, x)
  }

  lemma {:induction false} DrainGood(cfg: Config, s: Stream)
    requires 0 <= s.consumed && s.total == s.consumed + |s.data| && |s.data| <= cfg.maxBuffer
    requires |s.queue| <= cfg.maxSegments && Sorted(s.queue) && Short(s.queue)
    requires forall x :: x in s.queue ==> x.End() < s.consumed + HALF_SPACE
    ensures Good(cfg, Drain(cfg.maxBuffer, s))
    decreases |s.queue|
  {
    if s.queue != [] {
      var h, rest := s.queue[0], s.queue[1..];
      if h.off < s.Next() {
        SortedTail(s.queue);
        DrainGood(cfg, s.(queue := rest));
      } else if h.off == s.Next() && |s.data| + |h.bytes| <= cfg.maxBuffer {
        SortedTail(s.queue);
        DrainGood(cfg, Deliver(s, h.bytes).(queue := rest));
      }
    }
  }

  lemma {:induction false} DrainFaithful(stream: seq<byte>, max: int, s: Stream)
    requires Faithful(stream, s)
    ensures Faithful(stream, Drain(max, s))
    decreases |s.queue|
  {
    if s.queue != [] {
      var h, rest := s.queue[0], s.queue[1..];
      if h.off < s.Next() {
        DrainFaithful(stream, max, s.(queue := rest));
      } else if h.off == s.Next() && |s.data| + |h.bytes| <= max {
        assert SliceOf(stream, h);
        DrainFaithful(stream, max, Deliver(s, h.bytes).(queue := rest));
      }
    }
  }

  // ----- what queueing keeps of its members -----

  /** Trimming, inserting and merging only cut and glue: a property closed under both is kept by all. */
  ghost predicate Closed(p: Segment -> bool, n: Segment) {
    && p(n)
    && (forall c, x :: p(c) && x in Trim(c, n) ==> p(x))
    && (forall a, b :: p(a) && p(b) && b.off <= a.End() < b.End() ==> p(Join(a, b)))
  }

  lemma {:induction false} MergeMembers(q: Queue, failed: set<nat>, k: nat, p: Segment -> bool)
    requires forall x :: x in q ==> p(x)
    requires forall a, b :: p(a) && p(b) && b.off <= a.End() < b.End() ==> p(Join(a, b))
    ensures forall x :: x in Merge(q, failed, k) ==> p(x)
    decreases |q|
  {
    if |q| >= 2 {
      if q[0].End() < q[1].off {
        MergeMembers(q[1..], failed, k, p);
      } else if q[1].End() <= q[0].End() {
        MergeMembers([q[0]] + q[2..], failed, k, p);
      } else if k in failed {
        MergeMembers(q[1..], failed, k + 1, p);
      } else {
        MergeMembers([Join(q[0], q[1])] + q[2..], failed, k + 1, p);
      }
    }
  }

  lemma EnqueueMembers(q: Queue, n: Segment, failed: set<nat>, p: Segment -> bool)
    requires Closed(p, n) && forall x :: x in q ==> p(x)
    ensures forall x :: x in Enqueue(q, n, failed) ==> p(x)
  {
    var t := TrimAll(q, n);
    forall x | x in t ensures p(x) {
      TrimAllMember(q, n, x);
      var i :| 0 <= i < |q| && x in Trim(q[i], n);
    }
    var u := SortedInsert(t, n);
    forall x | x in u ensures p(x) { SortedInsertMember(t, n, x); }
    MergeMembers(u, failed, 0, p);
  }

  lemma {:induction false} TrimAllSorted(q: Queue, n: Segment)
    requires Sorted(q)
    ensures Sorted(TrimAll(q, n))
  {
    if q != [] {
      SortedTail(q);
      TrimAllSorted(q[1..], n);
      forall x, y | x in Trim(q[0], n) && y in TrimAll(q[1..], n) ensures x.off <= y.off {
        TrimAllMember(q[1..], n, y);
        var i :| 0 <= i < |q[1..]| && y in Trim(q[1..][i], n);
        assert q[0].off <= q[i + 1].off;
      }
    }
  }

  lemma {:induction false} SortedInsertSorted(q: Queue, n: Segment)
    requires Sorted(q)
    ensures Sorted(SortedInsert(q, n))
  {
    if q != [] && n.off >= q[0].off {
      SortedTail(q);
      SortedInsertSorted(q[1..], n);
      forall y | y in SortedInsert(q[1..], n) ensures q[0].off <= y.off {
        SortedInsertMember(q[1..], n, y);
        if y != n {
          var i :| 0 <= i < |q[1..]| && q[1..][i] == y;
          assert q[0].off <= q[i + 1].off;
        }
      }
    }
  }

  lemma {:induction false} MergeSorted(q: Queue, failed: set<nat>, k: nat)
    requires Sorted(q)
    ensures Sorted(Merge(q, failed, k))
    decreases |q|
  {
    if |q| >= 2 {
      if q[0].End() < q[1].off || (q[1].End() > q[0].End() && k in failed) {
        var k' := if q[0].End() < q[1].off then k else k + 1;
        SortedTail(q);
        MergeSorted(q[1..], failed, k');
        MergeFrom(q[1..], failed, k', q[1].off);
      } else if q[1].End() <= q[0].End() {
        SortedReplace(q, q[0]);
        MergeSorted([q[0]] + q[2..], failed, k);
      } else {
        SortedReplace(q, Join(q[0], q[1]));
        MergeSorted([Join(q[0], q[1])] + q[2..], failed, k + 1);
      }
    }
  }

  lemma EnqueueSorted(q: Queue, n: Segment, failed: set<nat>)
    requires Sorted(q)
    ensures Sorted(Enqueue(q, n, failed))
  {
    TrimAllSorted(q, n);
    SortedInsertSorted(TrimAll(q, n), n);
    MergeSorted(SortedInsert(TrimAll(q, n), n), failed, 0);
  }

  /** Ends stay below a limit, and lengths within 16 bits, through every cut and join. */
  lemma LimitClosed(limit: int, n: Segment)
    requires n.End() < limit && |n.bytes| <= MAX_LEN
    ensures Closed((x: Segment) => x.End() < limit && |x.bytes| <= MAX_LEN, n)
  {
  }

  lemma EnqueueGood(cfg: Config, s: Stream, u: Segment, failed: set<nat>)
    requires Good(cfg, s) && |u.bytes| <= MAX_LEN && u.End() < s.consumed + HALF_SPACE
    requires |s.queue| < cfg.maxSegments
    ensures Good(cfg, Drain(cfg.maxBuffer, s.(queue := Enqueue(s.queue, u, failed))))
  {
    hide Drain, Closed;
    var q := Enqueue(s.queue, u, failed);
    assert |q| <= |s.queue| + 1;
    hide Enqueue;
    EnqueueSorted(s.queue, u, failed);
    LimitClosed(s.consumed + HALF_SPACE, u);
    EnqueueMembers(s.queue, u, failed, (x: Segment) => x.End() < s.consumed + HALF_SPACE && |x.bytes| <= MAX_LEN);
    DrainGood(cfg, s.(queue := q));
  }

  /** Counters, limits, order and the window hold after every arrival, whatever it carries. */
  lemma InsertGood(cfg: Config, s: Stream, n: Segment, mem: Memory)
    requires Good(cfg, s) && |n.bytes| <= MAX_LEN && n.End() < s.consumed + HALF_SPACE
    ensures Good(cfg, Insert(cfg, s, n, mem))
  {
    hide Enqueue, Drain;
    if n.bytes != [] && n.End() > s.consumed {
      var m := After(n, s.consumed);
      if m.off == s.Next() {
        if |s.data| + |m.bytes| <= cfg.maxBuffer { DrainGood(cfg, Deliver(s, m.bytes)); }
      } else if m.End() > s.Next() && mem.segmentOk && |s.queue| < cfg.maxSegments {
        EnqueueGood(cfg, s, After(m, s.Next()), mem.failedMerges);
      }
    }
  }

  lemma ConsumeGood(cfg: Config, s: Stream, len: nat)
    requires Good(cfg, s)
    ensures Good(cfg, Consume(cfg, s, len))
  {
    var k := if len > |s.data| then |s.data| else len;
    if len > 0 {
      var s' := s.(consumed := s.consumed + k, data := s.data[k..]);
      assert s'.Next() == s.Next();
      DrainGood(cfg, s');
    }
  }

  lemma SliceOfSlice(s: seq<byte>, lo: nat, hi: nat, from: nat, to: nat)
    requires lo <= hi <= |s| && from <= to <= hi - lo
    ensures s[lo..hi][from..to] == s[lo + from..lo + to]
  {
    var a, b := s[lo..hi][from..to], s[lo + from..lo + to];
    assert |a| == |b|;
    forall i | 0 <= i < |a| ensures a[i] == b[i] {
      assert a[i] == s[lo..hi][from + i] == s[lo + (from + i)];
    }
  }

  lemma SubSlice(stream: seq<byte>, x: Segment, from: nat, len: nat)
    requires SliceOf(stream, x) && from + len <= |x.bytes|
    ensures SliceOf(stream, Segment(x.off + from, x.bytes[from..from + len]))
  {
    SliceOfSlice(stream, x.off, x.End(), from, from + len);
  }

  lemma JoinSlice(stream: seq<byte>, a: Segment, b: Segment)
    requires SliceOf(stream, a) && SliceOf(stream, b) && b.off <= a.End() < b.End()
    ensures SliceOf(stream, Join(a, b))
  {
    var merged := a.bytes + b.bytes[a.End() - b.off..];
    assert merged == stream[a.off..b.End()];
    var whole := Segment(a.off, merged);
    SubSlice(stream, whole, 0, |Join(a, b).bytes|);
  }

  lemma TrimSlice(stream: seq<byte>, c: Segment, n: Segment)
    requires SliceOf(stream, c)
    ensures forall x :: x in Trim(c, n) ==> SliceOf(stream, x)
  {
  }

  lemma SliceClosed(stream: seq<byte>, n: Segment)
    requires SliceOf(stream, n)
    ensures Closed(x => SliceOf(stream, x), n)
  {
    forall c, x | SliceOf(stream, c) && x in Trim(c, n) ensures SliceOf(stream, x) {
      TrimSlice(stream, c, n);
    }
    forall a, b | SliceOf(stream, a) && SliceOf(stream, b) && b.off <= a.End() < b.End()
      ensures SliceOf(stream, Join(a, b))
    {
      JoinSlice(stream, a, b);
    }
  }

  lemma EnqueueFaithful(stream: seq<byte>, max: int, s: Stream, u: Segment, failed: set<nat>)
    requires Faithful(stream, s) && SliceOf(stream, u)
    ensures Faithful(stream, Drain(max, s.(queue := Enqueue(s.queue, u, failed))))
  {
    hide Drain, Enqueue, Closed;
    SliceClosed(stream, u);
    EnqueueMembers(s.queue, u, failed, x => SliceOf(stream, x));
    DrainFaithful(stream, max, s.(queue := Enqueue(s.queue, u, failed)));
  }

  lemma AfterSlice(stream: seq<byte>, n: Segment, p: int)
    requires SliceOf(stream, n) && p <= n.End()
    ensures SliceOf(stream, After(n, p))
  {
    if n.off < p { SubSlice(stream, n, p - n.off, n.End() - p); }
  }

  lemma InsertFaithful(cfg: Config, stream: seq<byte>, s: Stream, n: Segment, mem: Memory)
    requires Faithful(stream, s) && SliceOf(stream, n)
    ensures Faithful(stream, Insert(cfg, s, n, mem))
  {
    hide Drain, Enqueue;
    if n.bytes != [] && n.End() > s.consumed {
      var m := After(n, s.consumed);
      AfterSlice(stream, n, s.consumed);
      if m.off == s.Next() {
        DrainFaithful(stream, cfg.maxBuffer, Deliver(s, m.bytes));
      } else if m.End() > s.Next() {
        AfterSlice(stream, m, s.Next());
        EnqueueFaithful(stream, cfg.maxBuffer, s, After(m, s.Next()), mem.failedMerges);
      }
    }
  }

  lemma ConsumeFaithful(cfg: Config, stream: seq<byte>, s: Stream, len: nat)
    requires Faithful(stream, s)
    ensures Faithful(stream, Consume(cfg, s, len))
  {
    var k := if len > |s.data| then |s.data| else len;
    DrainFaithful(stream, cfg.maxBuffer, s.(consumed := s.consumed + k, data := s.data[k..]));
  }
}
