/**
 The stream buffer as the program keeps it: a fixed array, 32-bit sequence numbers, and a list of segment
 records updated in place.  A ghost view on unbounded offsets is kept beside it; every operation acts on
 the view as `StreamModel` says.
 */
module StreamBuffer {
  import ArrivalOrder
  import opened SegmentQueue
  import opened SeqNumbers
  import opened StreamModel
  import opened StreamRuns
  import opened ArbitraryRuns
  import opened Words

  /** A `tcp_segment` record. */
  datatype Record = Record(number: int, bytes: seq<byte>)

  function Wire(isn: int, x: Segment): Record {
    Record(Wrap32(isn + x.off), x.bytes)
  }

  /** The records carry the segments of `q`, in order. */
  ghost predicate Mirrors(isn: int, records: seq<Record>, q: Queue) {
    |records| == |q| && forall i :: 0 <= i < |q| ==> records[i] == Wire(isn, q[i])
  }

  /** Offsets a comparison may meet: from the base of the buffer to half the number space beyond it. */
  ghost predicate Near(base: int, x: Segment) {
    base <= x.off && x.End() < base + HALF_SPACE
  }

  ghost predicate AllNear(base: int, q: Queue) {
    forall x :: x in q ==> Near(base, x)
  }

  /** All comparisons and differences the overlap cases use, on numbers and on offsets. */
  lemma NearCompare(isn: int, base: int, a: int, b: int)
    requires base <= a < base + HALF_SPACE && base <= b < base + HALF_SPACE
    ensures SeqCompare(Wrap32(isn + a), Wrap32(isn + b)) == Sign(a - b)
    ensures Wrap32(isn + a) == Wrap32(isn + b) <==> a == b
    ensures a >= b ==> Wrap32(Wrap32(isn + a) - Wrap32(isn + b)) == a - b
  {
    CompareAgrees(isn + a, isn + b);
    WrapDifference(isn + a, isn + b);
  }

  lemma EndNumber(isn: int, x: Segment)
    ensures Wrap32(Wire(isn, x).number + |x.bytes|) == Wrap32(isn + x.End())
  {
    WrapDifference(isn + x.off, |x.bytes|);
  }

  lemma OverlapCompare(isn: int, base: int, n: Segment, c: Segment)
    requires Near(base, n) && Near(base, c)
    ensures var x, y := Wire(isn, n), Wire(isn, c);
            var xEnd, yEnd := Wrap32(x.number + |x.bytes|), Wrap32(y.number + |y.bytes|);
            && SeqCompare(x.number, y.number) == Sign(n.off - c.off)
            && SeqCompare(xEnd, yEnd) == Sign(n.End() - c.End())
            && SeqCompare(xEnd, y.number) == Sign(n.End() - c.off)
            && SeqCompare(x.number, yEnd) == Sign(n.off - c.End())
            && xEnd == Wrap32(isn + n.End())
            && (n.End() >= c.off ==> Wrap32(xEnd - y.number) == n.End() - c.off)
            && (n.off >= c.off ==> Wrap32(x.number - y.number) == n.off - c.off)
  {
    hide SeqCompare, Wrap32;
    EndNumber(isn, n);
    EndNumber(isn, c);
    NearCompare(isn, base, n.off, c.off);
    NearCompare(isn, base, n.End(), c.End());
    NearCompare(isn, base, n.End(), c.off);
    NearCompare(isn, base, n.off, c.End());
  }

  function Splice<T>(s: seq<T>, i: nat, j: nat, mid: seq<T>): (r: seq<T>)
    requires i <= j <= |s|
    ensures |r| == |s| - (j - i) + |mid|
  {
    s[..i] + mid + s[j..]
  }

  lemma TrimStep(q: Queue, i: nat, n: Segment)
    requires i < |q|
    ensures var t := Trim(q[i], n);
            var r := Splice(q, i, i + 1, t);
            q[..i] + TrimAll(q[i..], n) == r[..i + |t|] + TrimAll(r[i + |t|..], n)
  {
    var t := Trim(q[i], n);
    var r := Splice(q, i, i + 1, t);
    assert q[i..][1..] == q[i + 1..];
    assert r[..i + |t|] == q[..i] + t && r[i + |t|..] == q[i + 1..];
    assert q[..i] + (t + TrimAll(q[i + 1..], n)) == (q[..i] + t) + TrimAll(q[i + 1..], n);
  }

  /** One step of the merge pass at position `i` of the list. */
  lemma MergeStep(q: Queue, i: nat, failed: set<nat>, k: nat)
    requires i + 1 < |q|
    ensures var a, b := q[i], q[i + 1];
            var whole := q[..i] + Merge(q[i..], failed, k);
            if b.off <= a.End() && b.End() <= a.End() then
              var r := Splice(q, i, i + 2, [a]);
              whole == r[..i] + Merge(r[i..], failed, k)
            else if b.off <= a.End() && k !in failed then
              var r := Splice(q, i, i + 2, [Join(a, b)]);
              whole == r[..i] + Merge(r[i..], failed, k + 1)
            else
              whole == q[..i + 1] + Merge(q[i + 1..], failed, if b.off <= a.End() then k + 1 else k)
  {
    var a, b, p := q[i], q[i + 1], q[i..];
    assert p[0] == a && p[1] == b && p[1..] == q[i + 1..] && p[2..] == q[i + 2..];
    if b.off <= a.End() && b.End() <= a.End() {
      var r := Splice(q, i, i + 2, [a]);
      assert r[..i] == q[..i] && r[i..] == [a] + p[2..];
    } else if b.off <= a.End() && k !in failed {
      var r := Splice(q, i, i + 2, [Join(a, b)]);
      assert r[..i] == q[..i] && r[i..] == [Join(a, b)] + p[2..];
    } else {
      var m := Merge(p[1..], failed, if b.off <= a.End() then k + 1 else k);
      assert q[..i] + ([a] + m) == q[..i + 1] + m;
    }
  }

  lemma MergeEnd(q: Queue, i: nat, failed: set<nat>, k: nat)
    requires i <= |q| <= i + 1
    ensures q[..i] + Merge(q[i..], failed, k) == q
  {
  }

  /** One step of the walk to the insertion point. */
  lemma SlotStep(q: Queue, i: nat, n: Segment)
    requires i < |q|
    ensures var same := n.off == q[i].off && |n.bytes| == |q[i].bytes|;
            && (same ==> MeetsDuplicate(q[i..], n))
            && (n.off >= q[i].off && !same ==> MeetsDuplicate(q[i..], n) == MeetsDuplicate(q[i + 1..], n))
            && (n.off >= q[i].off ==> q[..i] + SortedInsert(q[i..], n) == q[..i + 1] + SortedInsert(q[i + 1..], n))
            && (n.off < q[i].off ==> !MeetsDuplicate(q[i..], n) && SortedInsert(q[i..], n) == [n] + q[i..])
  {
    var p := q[i..];
    assert p[0] == q[i] && p[1..] == q[i + 1..];
    if n.off >= q[i].off {
      var x := SortedInsert(q[i + 1..], n);
      assert q[..i] + ([q[i]] + x) == q[..i + 1] + x;
    }
  }

  lemma SlotEnd(q: Queue, n: Segment)
    ensures q[|q|..] == [] && !MeetsDuplicate([], n) && SortedInsert([], n) == [n]
    ensures q[..|q|] == q
  {
  }

  /** Where a queued offset stands to the next one, on numbers. */
  lemma HeadCompare(isn: int, base: int, off: int, next: int)
    requires base <= off < base + HALF_SPACE && base <= next < base + HALF_SPACE
    ensures Wrap32(isn + off) == Wrap32(isn + next) <==> off == next
    ensures 0 < Wrap32(Wrap32(isn + off) - Wrap32(isn + next)) < HALF_SPACE <==> off > next
  {
    CompareAgrees(isn + off, isn + next);
    WrapDifference(isn + off, isn + next);
  }

  lemma DrainStep(max: int, s: Stream)
    ensures s.queue == [] || s.queue[0].off > s.Next() ==> Drain(max, s) == s
    ensures s.queue != [] && s.queue[0].off < s.Next() ==>
              Drain(max, s) == Drain(max, s.(queue := s.queue[1..]))
    ensures s.queue != [] && s.queue[0].off == s.Next() ==>
              Drain(max, s) == if |s.data| + |s.queue[0].bytes| > max then s
                               else Drain(max, Deliver(s, s.queue[0].bytes).(queue := s.queue[1..]))
  {
  }

  class Buffer {
    const cfg: Config
    const data: array<byte>
    var dataLen: nat
    var baseSeq: int
    var nextSeq: int
    var segments: seq<Record>
    var segCount: nat
    var totalReassembled: int
    ghost const isn: int
    ghost var view: Stream

    /** The fields say what the view says. */
    ghost predicate Shows()
      reads this, data
    {
      && data.Length == cfg.maxBuffer < HALF_SPACE
      && |view.data| <= data.Length
      && dataLen == |view.data| && data[..dataLen] == view.data
      && baseSeq == Wrap32(isn + view.consumed) && nextSeq == Wrap32(isn + view.Next())
      && Mirrors(isn, segments, view.queue) && segCount == |segments|
      && totalReassembled == view.total
      && AllNear(view.consumed, view.queue)
    }

    ghost predicate Valid()
      reads this, data
    {
      Shows() && Good(cfg, view) && Laminar(view.queue)
    }

    constructor (cfg: Config, initialSeq: int)
      requires 0 < cfg.maxBuffer < HALF_SPACE && 0 <= cfg.maxSegments
      requires 0 <= initialSeq < MODULUS
      ensures Valid() && fresh(data) && this.cfg == cfg && isn == initialSeq && view == Fresh()
    {
      this.cfg := cfg;
      data := new byte[cfg.maxBuffer];
      dataLen, baseSeq, nextSeq, segments, segCount, totalReassembled := 0, initialSeq, initialSeq, [], 0, 0;
      isn, view := initialSeq, Fresh();
    }

    method CopyIn(bytes: seq<byte>)
      requires Shows() && dataLen + |bytes| <= data.Length
      modifies this`dataLen, this`nextSeq, this`totalReassembled, this`view, data
      ensures Shows() && view == Deliver(old(view), bytes)
    {
      WrapDifference(isn + view.Next(), |bytes|);
      forall i | 0 <= i < |bytes| { data[dataLen + i] := bytes[i]; }
      dataLen, nextSeq := dataLen + |bytes|, Wrap32(nextSeq + |bytes|);
      totalReassembled := totalReassembled + |bytes|;
      view := Deliver(view, bytes);
      assert data[..dataLen] == old(data[..dataLen]) + bytes;
    }

    method ProcessSegmentQueue()
      requires Shows()
      modifies this`dataLen, this`nextSeq, this`totalReassembled, this`view, this`segments, this`segCount, data
      ensures Shows() && view == Drain(cfg.maxBuffer, old(view))
    {
      hide SeqCompare, Wrap32, Drain;
      while segments != []
        invariant Shows() && view.consumed == old(view.consumed)
        invariant Drain(cfg.maxBuffer, view) == Drain(cfg.maxBuffer, old(view))
        decreases |segments|
      {
        var h := segments[0];
        ghost var x := view.queue[0];
        assert x in view.queue && Wire(isn, x) == h;
        DrainStep(cfg.maxBuffer, view);
        HeadCompare(isn, view.consumed, x.off, view.Next());
        if h.number != nextSeq {
          if 0 < Wrap32(h.number - nextSeq) < HALF_SPACE { return; }
          Unlink();
        } else {
          if dataLen + |h.bytes| > cfg.maxBuffer { return; }
          CopyIn(h.bytes);
          Unlink();
        }
      }
      DrainStep(cfg.maxBuffer, view);
    }

    method Unlink()
      requires Shows() && segments != []
      modifies this`view, this`segments, this`segCount
      ensures Shows() && view == old(view).(queue := old(view.queue)[1..]) && segments == old(segments)[1..]
    {
      segments, segCount := segments[1..], segCount - 1;
      view := view.(queue := view.queue[1..]);
    }

    /** One queued record under the favour-new policy; `gone` says it is to be removed. */
    static method Overlap(incoming: Record, curr: Record, ghost isn: int, ghost base: int, ghost n: Segment,
                          ghost c: Segment)
      returns (gone: bool, rest: Record)
      requires incoming == Wire(isn, n) && curr == Wire(isn, c) && Near(base, n) && Near(base, c)
      ensures gone <==> Trim(c, n) == []
      ensures !gone ==> rest == Wire(isn, Trim(c, n)[0])
    {
      hide SeqCompare, Wrap32;
      gone, rest := false, curr;
      var newEnd, currEnd := Wrap32(incoming.number + |incoming.bytes|), Wrap32(curr.number + |curr.bytes|);
      var starts, ends := SeqCompare(incoming.number, curr.number), SeqCompare(newEnd, currEnd);
      var endStart, startEnd := SeqCompare(newEnd, curr.number), SeqCompare(incoming.number, currEnd);
      OverlapCompare(isn, base, n, c);
      if starts <= 0 && ends >= 0 {
        gone := true;
      } else if starts < 0 && endStart > 0 && ends < 0 {
        var overlap := Wrap32(newEnd - curr.number);
        rest := Record(newEnd, curr.bytes[overlap..]);
      } else if starts > 0 && startEnd < 0 && ends >= 0 {
        var keep := Wrap32(incoming.number - curr.number);
        rest := Record(curr.number, curr.bytes[..keep]);
      }
    }

    /** Replace the records i..j of the list by `mid`. */
    method Relink(i: nat, j: nat, mid: seq<Record>, ghost m: Queue)
      requires Shows() && i <= j <= |segments| && Mirrors(isn, mid, m) && AllNear(view.consumed, m)
      modifies this`segments, this`segCount, this`view
      ensures Shows() && view == old(view).(queue := Splice(old(view.queue), i, j, m))
      ensures segments == Splice(old(segments), i, j, mid)
    {
      hide SeqCompare, Wrap32;
      segments := Splice(segments, i, j, mid);
      segCount := |segments|;
      view := view.(queue := Splice(view.queue, i, j, m));
    }

    method HandleQueueOverlaps(incoming: Record, ghost n: Segment)
      requires Shows() && incoming == Wire(isn, n) && Near(view.consumed, n)
      modifies this`segments, this`segCount, this`view
      ensures Shows() && view == old(view).(queue := TrimAll(old(view.queue), n))
    {
      hide SeqCompare, Wrap32;
      ghost var q0 := view.queue;
      var i := 0;
      while i < |segments|
        invariant Shows() && 0 <= i <= |segments| && view == old(view).(queue := view.queue)
        invariant TrimAll(q0, n) == view.queue[..i] + TrimAll(view.queue[i..], n)
        decreases |segments| - i
      {
        ghost var c := view.queue[i];
        TrimStep(view.queue, i, n);
        assert c in view.queue;
        var gone, left := Overlap(incoming, segments[i], isn, view.consumed, n, c);
        if gone {
          Relink(i, i + 1, [], []);
        } else {
          Relink(i, i + 1, [left], Trim(c, n));
          i := i + 1;
        }
      }
    }

    static method JoinRecords(curr: Record, next: Record, ghost isn: int, ghost base: int, ghost a: Segment,
                              ghost b: Segment)
      returns (joined: Record)
      requires curr == Wire(isn, a) && next == Wire(isn, b) && Near(base, a) && Near(base, b)
      requires a.off <= b.End() && b.off <= a.End() < b.End()
      ensures joined == Wire(isn, Join(a, b))
    {
      hide SeqCompare, Wrap32;
      OverlapCompare(isn, base, b, a);
      OverlapCompare(isn, base, a, b);
      var currEnd, nextEnd := Wrap32(curr.number + |curr.bytes|), Wrap32(next.number + |next.bytes|);
      var mergedLen, overlap := Wrap32(nextEnd - curr.number), Wrap32(currEnd - next.number);
      var payload := curr.bytes + next.bytes[overlap..];
      joined := Record(curr.number, payload[..mergedLen % (MAX_LEN + 1)]);
    }

    /** What the merge pass asks of two neighbours: do they touch, and does the first contain the second? */
    static method MergeChoice(curr: Record, next: Record, ghost isn: int, ghost base: int, ghost a: Segment,
                              ghost b: Segment)
      returns (touching: bool, inside: bool)
      requires curr == Wire(isn, a) && next == Wire(isn, b) && Near(base, a) && Near(base, b)
      ensures touching <==> b.off <= a.End()
      ensures inside <==> b.End() <= a.End()
    {
      hide SeqCompare, Wrap32;
      OverlapCompare(isn, base, b, a);
      OverlapCompare(isn, base, a, b);
      var currEnd, nextEnd := Wrap32(curr.number + |curr.bytes|), Wrap32(next.number + |next.bytes|);
      touching, inside := SeqCompare(currEnd, next.number) >= 0, SeqCompare(nextEnd, currEnd) <= 0;
    }

    method TryMergeSegments(failed: set<nat>)
      requires Shows()
      modifies this`segments, this`segCount, this`view
      ensures Shows() && view == old(view).(queue := Merge(old(view.queue), failed, 0))
    {
      hide SeqCompare, Wrap32, Merge, Splice;
      ghost var q0 := view.queue;
      var i, attempt: nat := 0, 0;
      assert q0[..0] == [] && q0[0..] == q0;
      while i + 1 < |segments|
        invariant Shows() && 0 <= i <= |segments| && view == old(view).(queue := view.queue)
        invariant Merge(q0, failed, 0) == view.queue[..i] + Merge(view.queue[i..], failed, attempt)
        decreases |segments| - i
      {
        ghost var a, b := view.queue[i], view.queue[i + 1];
        assert a in view.queue && b in view.queue;
        var touching, inside := MergeChoice(segments[i], segments[i + 1], isn, view.consumed, a, b);
        MergeStep(view.queue, i, failed, attempt);
        if touching && inside {
          Relink(i, i + 2, [segments[i]], [a]);
        } else if touching && attempt !in failed {
          var joined := JoinRecords(segments[i], segments[i + 1], isn, view.consumed, a, b);
          Relink(i, i + 2, [joined], [Join(a, b)]);
          attempt := attempt + 1;
        } else {
          if touching { attempt := attempt + 1; }
          i := i + 1;
        }
      }
      MergeEnd(view.queue, i, failed, attempt);
    }

    /** The walk to the insertion point. */
    method FindSlot(incoming: Record, ghost n: Segment) returns (i: nat, duplicate: bool)
      requires Shows() && incoming == Wire(isn, n) && Near(view.consumed, n)
      ensures duplicate == MeetsDuplicate(view.queue, n)
      ensures i <= |segments|
      ensures !duplicate ==> SortedInsert(view.queue, n) == view.queue[..i] + [n] + view.queue[i..]
    {
      hide SeqCompare, Wrap32, SortedInsert, MeetsDuplicate, Good;
      ghost var q := view.queue;
      assert q[..0] == [] && q[0..] == q;
      i := 0;
      while i < |segments|
        invariant i <= |segments|
        invariant SortedInsert(q, n) == q[..i] + SortedInsert(q[i..], n)
        invariant MeetsDuplicate(q, n) == MeetsDuplicate(q[i..], n)
      {
        assert segments[i] == Wire(isn, q[i]) && q[i] in q;
        SlotStep(q, i, n);
        NearCompare(isn, view.consumed, n.off, q[i].off);
        var cmp := SeqCompare(incoming.number, segments[i].number);
        if cmp == 0 && |incoming.bytes| == |segments[i].bytes| { return i, true; }
        if cmp < 0 { return i, false; }
        i := i + 1;
      }
      SlotEnd(q, n);
      duplicate := false;
    }

    method InsertSegmentQueue(incoming: Record, failed: set<nat>, ghost n: Segment) returns (ok: bool)
      requires Shows() && incoming == Wire(isn, n) && Near(view.consumed, n)
      modifies this`segments, this`segCount, this`view
      ensures Shows() && ok == (|old(view.queue)| < cfg.maxSegments)
      ensures view == if ok then old(view).(queue := Enqueue(old(view.queue), n, failed)) else old(view)
    {
      hide SeqCompare, Wrap32;
      if segCount >= cfg.maxSegments { return false; }
      HandleQueueOverlaps(incoming, n);
      var i, duplicate := FindSlot(incoming, n);
      if duplicate { return true; }
      Relink(i, i, [incoming], [n]);
      if segCount > MERGE_ABOVE { TryMergeSegments(failed); }
      return true;
    }

    /** Cut what the buffer already holds; an empty result says that nothing is left. */
    method HandleBufferOverlap(number: int, payload: seq<byte>, ghost m: Segment) returns (left: Record)
      requires Shows() && Record(number, payload) == Wire(isn, m) && Near(view.consumed, m) && payload != []
      ensures m.End() <= view.Next() ==> left.bytes == []
      ensures m.End() > view.Next() ==> left == Wire(isn, After(m, view.Next()))
    {
      hide SeqCompare, Wrap32;
      ghost var edge := Segment(view.Next(), []);
      OverlapCompare(isn, view.consumed, m, edge);
      OverlapCompare(isn, view.consumed, edge, m);
      left := Record(number, payload);
      if SeqCompare(number, nextSeq) < 0 {
        if SeqCompare(Wrap32(number + |payload|), nextSeq) <= 0 { return Record(number, []); }
        var overlap := Wrap32(nextSeq - number);
        left := Record(nextSeq, payload[overlap..]);
      }
    }

    /** Admission: the part of the segment at or after the base, if any. */
    method Admit(number: int, payload: seq<byte>) returns (left: Record)
      requires Shows() && 0 <= number < MODULUS && 0 < |payload| <= MAX_LEN
      ensures var n := Segment(Place(isn, view.consumed, number, |payload|), payload);
              && n.End() < view.consumed + HALF_SPACE
              && if n.End() <= view.consumed then left.bytes == []
                 else Near(view.consumed, After(n, view.consumed)) && left == Wire(isn, After(n, view.consumed))
    {
      ghost var n := Segment(Place(isn, view.consumed, number, |payload|), payload);
      AdmitCompare(isn, view.consumed, number, n);
      left := Record(number, payload);
      if SeqCompare(Wrap32(number + |payload|), baseSeq) <= 0 { return Record(number, []); }
      if SeqCompare(number, baseSeq) < 0 {
        var skip := Wrap32(baseSeq - number);
        if skip >= |payload| { return Record(number, []); }
        left := Record(baseSeq, payload[skip..]);
      }
    }

    /** A segment from the wire acts on the view at the offset where its number places it. */
    method InsertSegment(number: int, payload: seq<byte>, mem: Memory)
      requires Valid() && 0 <= number < MODULUS && |payload| <= MAX_LEN
      modifies this, data
      ensures Valid()
      ensures view == Insert(cfg, old(view), Segment(Place(isn, old(view.consumed), number, |payload|), payload), mem)
    {
      hide SeqCompare, Wrap32, Place, Drain, Enqueue;
      if payload == [] { return; }
      ghost var s, n := view, Segment(Place(isn, view.consumed, number, |payload|), payload);
      var m := Admit(number, payload);
      InsertGood(cfg, s, n, mem);
      InsertLaminarStream(cfg, s, n, mem);
      hide Laminar;
      if m.bytes == [] { return; }
      ghost var a := After(n, s.consumed);
      NearCompare(isn, s.consumed, a.off, s.Next());
      if m.number == nextSeq {
        if dataLen + |m.bytes| > cfg.maxBuffer { return; }
        CopyIn(m.bytes);
        ProcessSegmentQueue();
      } else {
        var u := HandleBufferOverlap(m.number, m.bytes, a);
        if u.bytes == [] || !mem.segmentOk { return; }
        var ok := InsertSegmentQueue(u, mem.failedMerges, After(a, s.Next()));
        if ok { ProcessSegmentQueue(); }
      }
    }

    /** Slide the buffer forward by `k` bytes. */
    method Slide(k: nat)
      requires Shows() && k <= dataLen && AllNear(view.consumed + k, view.queue)
      modifies this`dataLen, this`baseSeq, this`view, data
      ensures Shows() && view == old(view).(consumed := old(view.consumed) + k, data := old(view.data)[k..])
    {
      hide SeqCompare;
      WrapDifference(isn + view.consumed, k);
      forall i | 0 <= i < dataLen - k { data[i] := data[i + k]; }
      dataLen, baseSeq := dataLen - k, Wrap32(baseSeq + k);
      view := view.(consumed := view.consumed + k, data := view.data[k..]);
      assert data[..dataLen] == old(data[..dataLen])[k..];
    }

    method SlideAndDrain(k: nat)
      requires Shows() && k <= dataLen && AllNear(view.consumed + k, view.queue)
      modifies this, data
      ensures Shows()
      ensures view == Drain(cfg.maxBuffer, old(view).(consumed := old(view.consumed) + k, data := old(view.data)[k..]))
    {
      hide SeqCompare, Wrap32, Drain;
      Slide(k);
      DrainStep(cfg.maxBuffer, view);
      if segments != [] { ProcessSegmentQueue(); }
    }

    method ConsumeData(len: nat)
      requires Valid()
      modifies this, data
      ensures Valid() && view == Consume(cfg, old(view), len)
    {
      hide SeqCompare, Wrap32, Drain, Sorted, Short;
      if len == 0 { return; }
      ConsumeGood(cfg, view, len);
      ConsumeLaminar(cfg, view, len);
      hide Laminar;
      SlideAndDrain(if len > dataLen then dataLen else len);
    }

    /** One arrival with any number and contents, or one read. */
    method Receive(w: Transmission)
      requires Valid() && OnWire(w)
      modifies this, data
      ensures Valid() && view == Feed(cfg, old(view), AsPlaced(isn, old(view), w))
    {
      hide SeqCompare, Wrap32, Place, Good, Laminar, Drain, Insert, Consume;
      match w
      case Packet(number, payload, mem) => InsertSegment(number, payload, mem);
      case Read(len) => ConsumeData(len);
    }

    /** A whole run on a fresh buffer. */
    method ReceiveAll(wires: seq<Transmission>)
      requires Valid() && view == Fresh() && forall i :: 0 <= i < |wires| ==> OnWire(wires[i])
      modifies this, data
      ensures Valid() && view == RunAny(cfg, PlacedAll(cfg, isn, wires))
    {
      NoWires(cfg, isn, wires);
      hide *;
      for i := 0 to |wires|
        invariant Valid() && view == RunAny(cfg, PlacedAll(cfg, isn, wires[..i]))
      {
        PlacedStep(cfg, isn, wires, i);
        Receive(wires[i]);
      }
    }

    /** The fields that a caller can see. */
    method Report() returns (out: seq<byte>, base: int, next: int, queued: nat)
      requires Valid()
      ensures out == view.data && queued == |view.queue|
      ensures base == Wrap32(isn + view.consumed) && next == Wrap32(isn + view.Next())
    {
      out, base, next, queued := data[..dataLen], baseSeq, nextSeq, segCount;
    }

    /** One event of a run over `stream`. */
    method Handle(initialSeq: int, stream: seq<byte>, e: Event)
      requires Valid() && initialSeq == isn && Sendable(stream, e) && InWindow(view, e)
      modifies this, data
      ensures Valid() && view == Step(cfg, stream, old(view), e)
    {
      hide SeqCompare, Wrap32, Place, Good, Laminar, Drain, Insert, Consume;
      match e
      case Arrive(off, len, mem) =>
        PlaceExact(isn, view.consumed, off, len);
        InsertSegment(Wrap32(initialSeq + off), stream[off..off + len], mem);
      case Take(len) =>
        ConsumeData(len);
    }
  }

  /** The comparisons of the admission test, for any number from the wire. */
  lemma AdmitCompare(isn: int, base: int, number: int, n: Segment)
    requires 0 <= number < MODULUS && 0 < |n.bytes| <= MAX_LEN
    requires n.off == Place(isn, base, number, |n.bytes|)
    ensures n.End() < base + HALF_SPACE && number == Wrap32(isn + n.off)
    ensures SeqCompare(Wrap32(number + |n.bytes|), Wrap32(isn + base)) == Sign(n.End() - base)
    ensures n.End() > base ==> SeqCompare(number, Wrap32(isn + base)) == Sign(n.off - base)
    ensures n.End() > base && n.off < base ==> Wrap32(Wrap32(isn + base) - number) == base - n.off
  {
    hide Place, Wrap32, SeqCompare;
    PlaceRange(isn, base, number, |n.bytes|);
    EndNumber(isn, n);
    CompareAgrees(isn + n.End(), isn + base);
    if n.End() > base {
      CompareAgrees(isn + n.off, isn + base);
      WrapDifference(isn + base, isn + n.off);
      if n.off < base { WrapSmall(base - n.off); }
    }
  }

  /**
   Any run on the program's own state: whatever mix of segments of `stream` and consumptions, in numbers that
   wrap at any point, the buffer ends with the stream's bytes between its base and its next number.
   */
  method Replay(cfg: Config, initialSeq: int, stream: seq<byte>, events: seq<Event>)
    returns (out: seq<byte>, baseSeq: int, nextSeq: int, queued: nat)
    requires 0 < cfg.maxBuffer < HALF_SPACE && 0 <= cfg.maxSegments && 0 <= initialSeq < MODULUS
    requires AllSendable(stream, events) && RunInWindow(cfg, stream, Fresh(), events)
    ensures var s := Run(cfg, stream, Fresh(), events);
            && 0 <= s.consumed && s.Next() <= |stream| && queued == |s.queue|
            && out == s.data == stream[s.consumed..s.Next()]
            && baseSeq == Wrap32(initialSeq + s.consumed) && nextSeq == Wrap32(initialSeq + s.Next())
            && s.total == s.Next() && |out| <= cfg.maxBuffer && queued <= cfg.maxSegments
  {
    hide SeqCompare, Wrap32, Step;
    var b := new Buffer(cfg, initialSeq);
    for i := 0 to |events|
      invariant b.Valid() && fresh(b) && fresh(b.data) && b.cfg == cfg && b.isn == initialSeq
      invariant b.view == Run(cfg, stream, Fresh(), events[..i])
    {
      assert events[..i + 1][..i] == events[..i];
      b.Handle(initialSeq, stream, events[i]);
    }
    assert events[..|events|] == events;
    StreamSafety(cfg, stream, events);
    out, baseSeq, nextSeq, queued := b.data[..b.dataLen], b.baseSeq, b.nextSeq, b.segCount;
  }

  /**
   The pieces of a stream, each at least once, in any order and in numbers that wrap at any point: the program's
   state ends with exactly the stream, and an empty queue.
   */
  method ReplayPieces(cfg: Config, initialSeq: int, stream: seq<byte>, cuts: seq<nat>,
                      order: seq<ArrivalOrder.Arrival>)
    returns (out: seq<byte>, baseSeq: int, nextSeq: int, queued: nat)
    requires 0 < cfg.maxBuffer < HALF_SPACE && |stream| <= cfg.maxBuffer && 0 <= initialSeq < MODULUS
    requires ArrivalOrder.Pieces(stream, cuts, order) && |stream| <= MAX_LEN && |order| <= cfg.maxSegments
    requires forall i :: 0 <= i < |cuts| - 1 ==> ArrivalOrder.Includes(order, i)
    ensures out == stream && queued == 0
    ensures baseSeq == Wrap32(initialSeq) && nextSeq == Wrap32(initialSeq + |stream|)
  {
    hide *;
    PieceFacts(cfg, stream, cuts, order);
    out, baseSeq, nextSeq, queued := Replay(cfg, initialSeq, stream, ArrivalOrder.Events(stream, cuts, order));
  }

  lemma PieceFacts(cfg: Config, stream: seq<byte>, cuts: seq<nat>, order: seq<ArrivalOrder.Arrival>)
    requires |stream| <= cfg.maxBuffer && ArrivalOrder.Pieces(stream, cuts, order)
    requires |stream| <= MAX_LEN && |order| <= cfg.maxSegments
    requires forall i :: 0 <= i < |cuts| - 1 ==> ArrivalOrder.Includes(order, i)
    ensures AllSendable(stream, ArrivalOrder.Events(stream, cuts, order))
    ensures RunInWindow(cfg, stream, Fresh(), ArrivalOrder.Events(stream, cuts, order))
    ensures var s := Run(cfg, stream, Fresh(), ArrivalOrder.Events(stream, cuts, order));
            s.data == stream && s.queue == [] && s.consumed == 0 && s.Next() == |stream|
  {
    ArrivalOrder.PiecesInWindow(cfg, stream, cuts, order);
    ArrivalOrder.OrderIndependence(cfg, stream, cuts, order);
    hide *;
  }

  /**
   Any run at all on the program's own state: arrivals with any sequence numbers and contents, and reads.  The
   buffer ends as the run of the placed segments does, so with its shape and with genuine bytes only.
   */
  method ReplayAny(cfg: Config, initialSeq: int, wires: seq<Transmission>)
    returns (out: seq<byte>, baseSeq: int, nextSeq: int, queued: nat)
    requires 0 < cfg.maxBuffer < HALF_SPACE && 0 <= cfg.maxSegments && 0 <= initialSeq < MODULUS
    requires forall i :: 0 <= i < |wires| ==> OnWire(wires[i])
    ensures var inputs := PlacedAll(cfg, initialSeq, wires);
            var s := RunAny(cfg, inputs);
            && AllPlausible(cfg, inputs) && Good(cfg, s) && Laminar(s.queue) && Genuine(inputs, s)
            && out == s.data && queued == |s.queue|
            && baseSeq == Wrap32(initialSeq + s.consumed) && nextSeq == Wrap32(initialSeq + s.Next())
  {
    hide *;
    WireFacts(cfg, initialSeq, wires);
    var b := new Buffer(cfg, initialSeq);
    b.ReceiveAll(wires);
    out, baseSeq, nextSeq, queued := b.Report();
  }

  lemma WireFacts(cfg: Config, isn: int, wires: seq<Transmission>)
    requires 0 <= cfg.maxBuffer && 0 <= cfg.maxSegments && forall i :: 0 <= i < |wires| ==> OnWire(wires[i])
    ensures var inputs := PlacedAll(cfg, isn, wires);
            var s := RunAny(cfg, inputs);
            AllPlausible(cfg, inputs) && Good(cfg, s) && Laminar(s.queue) && Genuine(inputs, s)
  {
    hide *;
    WirePlausible(cfg, isn, wires);
    ReachableShape(cfg, PlacedAll(cfg, isn, wires));
    ReachableGenuine(cfg, PlacedAll(cfg, isn, wires));
  }

  lemma NoWires(cfg: Config, isn: int, wires: seq<Transmission>)
    ensures RunAny(cfg, PlacedAll(cfg, isn, wires[..0])) == Fresh() && wires[..|wires|] == wires
  {
  }
}
