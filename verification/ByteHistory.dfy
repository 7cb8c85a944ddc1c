/**
 Which byte a stream buffer shows at an offset, in runs over arbitrary arrivals: the byte of the last arrival that
 wrote it, until a read or an in-order arrival takes it away.
 */
module ByteHistory {
  import opened ArbitraryRuns
  import opened Options
  import opened SegmentQueue
  import opened StreamModel
  import opened StreamRuns

  /** The byte that the buffer, or else the queue, holds at offset `o`. */
  function ByteAt(s: Stream, o: int): Option<byte> {
    if o < s.consumed then None
    else if o < s.Next() then Some(s.data[o - s.consumed])
    else Lookup(s.queue, o)
  }

  /** The arrival is next and fits. */
  predicate Delivers(cfg: Config, s: Stream, n: Segment) {
    && n.bytes != [] && n.End() > s.consumed && After(n, s.consumed).off == s.Next()
    && |s.data| + |After(n, s.consumed).bytes| <= cfg.maxBuffer
  }

  /** The arrival is not next, reaches beyond the next number, and is admitted to the queue. */
  predicate Queues(cfg: Config, s: Stream, n: Segment, mem: Memory) {
    && n.bytes != [] && n.End() > s.Next() && n.End() > s.consumed && After(n, s.consumed).off != s.Next()
    && mem.segmentOk && |s.queue| < cfg.maxSegments
  }

  /** The input puts its own byte at `o`. */
  ghost predicate Writes(cfg: Config, s: Stream, e: Input, o: int) {
    && e.Any? && e.n.Covers(o) && s.Next() <= o && s.consumed <= o
    && (|| Delivers(cfg, s, e.n)
        || (Queues(cfg, s, e.n, e.mem) && !Dominated(s.queue, After(e.n, s.Next()))))
  }

  /** A queued segment that covers `o` starts before `edge`. */
  ghost predicate Straddled(q: Queue, edge: int, o: int) {
    exists i :: 0 <= i < |q| && q[i].off < edge && q[i].Covers(o)
  }

  /** The input takes the byte at `o` away, or uncovers another: it reads it, or it drops a segment that covers it. */
  ghost predicate Disturbs(cfg: Config, s: Stream, e: Input, o: int) {
    match e
    case Any(n, _) => Delivers(cfg, s, n) && n.End() <= o && Straddled(s.queue, n.End(), o)
    case Out(len) => o < s.consumed + len && o < s.Next()
  }

  /** A merge pass, if the input triggers one, has only runs that fit in a segment record. */
  predicate Fits(cfg: Config, s: Stream, e: Input) {
    e.Any? && Queues(cfg, s, e.n, e.mem) ==> MergeFits(s.queue, After(e.n, s.Next()))
  }

  // ----- one input -----

  /** Draining moves bytes from the queue to the buffer and changes none. */
  lemma {:induction false} DrainBytes(max: int, s: Stream, o: int)
    requires Laminar(s.queue) && NoStraddle(s)
    ensures ByteAt(Drain(max, s), o) == ByteAt(s, o)
    decreases |s.queue|
  {
    if s.queue != [] {
      var q, h, rest := s.queue, s.queue[0], s.queue[1..];
      LaminarTail(q);
      assert h in q;
      if h.off < s.Next() {
        DrainBytes(max, s.(queue := rest), o);
      } else if h.off == s.Next() && |s.data| + |h.bytes| <= max {
        var s' := Deliver(s, h.bytes).(queue := rest);
        forall x | x in rest ensures s'.Next() <= x.off || x.End() <= s'.Next() {
          var i :| 0 <= i < |rest| && rest[i] == x;
          assert Before(q[0], q[i + 1]);
        }
        DrainBytes(max, s', o);
      }
    }
  }

  lemma AfterTwice(n: Segment, p: int, r: int)
    requires p <= r <= n.End()
    ensures After(After(n, p), r) == After(n, r)
  {
  }

  lemma AfterIs(n: Segment, p: int, o: int)
    requires p < n.End() && n.bytes != []
    ensures var u := After(n, p);
            && u.off >= p && u.End() == n.End() && u.bytes != []
            && (u.Covers(o) <==> n.Covers(o) && p <= o) && (u.Covers(o) ==> u.At(o) == n.At(o))
  {
  }

  /** Dropping what starts before the edge uncovers nothing at an offset that no such segment covers. */
  lemma {:induction false} FromBytes(q: Queue, edge: int, o: int)
    requires !Straddled(q, edge, o)
    ensures Lookup(From(q, edge), o) == Lookup(q, o)
  {
    if q != [] && q[0].off < edge {
      forall i | 0 <= i < |q[1..]| ensures !(q[1..][i].off < edge && q[1..][i].Covers(o)) {
        assert q[1..][i] == q[i + 1];
      }
      FromBytes(q[1..], edge, o);
    }
  }

  lemma DeliveredBytes(cfg: Config, s: Stream, n: Segment, mem: Memory, o: int)
    requires Good(cfg, s) && Laminar(s.queue) && Delivers(cfg, s, n)
    ensures s.Next() <= o < n.End() ==> n.Covers(o) && ByteAt(Insert(cfg, s, n, mem), o) == Some(n.At(o))
    ensures o < s.Next() || (n.End() <= o && !Straddled(s.queue, n.End(), o)) ==>
              ByteAt(Insert(cfg, s, n, mem), o) == ByteAt(s, o)
  {
    var s1 := Deliver(s, After(n, s.consumed).bytes);
    var s2 := s1.(queue := From(s.queue, n.End()));
    assert s1.Next() == n.End() && Insert(cfg, s, n, mem) == Drain(cfg.maxBuffer, s1);
    hide Insert, Drain, Good, Laminar, Straddled, Delivers;
    DrainSkips(cfg.maxBuffer, s1);
    FromShape(s.queue, n.End());
    DrainBytes(cfg.maxBuffer, s2, o);
    if n.End() <= o && !Straddled(s.queue, n.End(), o) { FromBytes(s.queue, n.End(), o); }
  }

  lemma OverridesAt(q: Queue, n: Segment, r: Queue, o: int)
    requires Overrides(q, n, r)
    ensures Lookup(r, o) == if n.Covers(o) && !Dominated(q, n) then Some(n.At(o)) else Lookup(q, o)
  {
  }

  /** What an arrival admitted to the queue makes of the stream. */
  lemma QueuedInsert(cfg: Config, s: Stream, n: Segment, mem: Memory)
    requires Good(cfg, s) && Queues(cfg, s, n, mem)
    ensures s.Next() < n.End() && n.bytes != []
    ensures Insert(cfg, s, n, mem)
         == Drain(cfg.maxBuffer, s.(queue := Enqueue(s.queue, After(n, s.Next()), mem.failedMerges)))
  {
    AfterTwice(n, s.consumed, s.Next());
    hide Drain, Enqueue;
  }

  /** Queueing a segment that starts at the next number or later keeps everything there. */
  lemma QueuedAhead(cfg: Config, s: Stream, u: Segment, failed: set<nat>)
    requires Good(cfg, s) && s.Next() <= u.off
    ensures NoStraddle(s.(queue := Enqueue(s.queue, u, failed)))
  {
    assert forall x :: x in s.queue ==> s.Next() <= x.off;
    hide Enqueue, Closed, Good;
    StartClosed(s.Next(), u);
    EnqueueMembers(s.queue, u, failed, (x: Segment) => s.Next() <= x.off);
  }

  lemma ByteOfQueue(s: Stream, q: Queue, o: int)
    ensures ByteAt(s.(queue := q), o) == if s.consumed <= o && s.Next() <= o then Lookup(q, o) else ByteAt(s, o)
  {
  }

  lemma QueuedBytes(cfg: Config, s: Stream, n: Segment, mem: Memory, o: int)
    requires Good(cfg, s) && Laminar(s.queue) && Queues(cfg, s, n, mem)
    requires s.Next() <= n.End() && MergeFits(s.queue, After(n, s.Next()))
    ensures ByteAt(Insert(cfg, s, n, mem), o)
         == if n.Covers(o) && s.Next() <= o && !Dominated(s.queue, After(n, s.Next())) then Some(n.At(o))
            else ByteAt(s, o)
  {
    assert s.consumed <= s.Next();
    QueuedInsert(cfg, s, n, mem);
    hide *;
    var u := After(n, s.Next());
    AfterIs(n, s.Next(), o);
    var q := Enqueue(s.queue, u, mem.failedMerges);
    EnqueueMeaning(s.queue, u, mem.failedMerges);
    OverridesAt(s.queue, u, q, o);
    QueuedAhead(cfg, s, u, mem.failedMerges);
    DrainBytes(cfg.maxBuffer, s.(queue := q), o);
    ByteOfQueue(s, q, o);
    ByteOfQueue(s, s.queue, o);
    assert s.(queue := s.queue) == s;
  }

  /** The buffer after a read, before it is drained. */
  function ReadUp(s: Stream, len: nat): Stream {
    var k := if len > |s.data| then |s.data| else len;
    s.(consumed := s.consumed + k, data := s.data[k..])
  }

  lemma ByteOfRead(s: Stream, len: nat, o: int)
    requires !(o < s.consumed + len && o < s.Next())
    ensures ByteAt(ReadUp(s, len), o) == ByteAt(s, o)
  {
    hide Lookup;
  }

  lemma ReadAhead(cfg: Config, s: Stream, len: nat)
    requires Good(cfg, s)
    ensures NoStraddle(ReadUp(s, len)) && ReadUp(s, len).queue == s.queue
    ensures len > 0 ==> Consume(cfg, s, len) == Drain(cfg.maxBuffer, ReadUp(s, len))
    ensures len == 0 ==> Consume(cfg, s, len) == s
  {
    assert ReadUp(s, len).Next() == s.Next();
    assert forall x :: x in s.queue ==> s.Next() <= x.off;
    hide Drain, Sorted, Short;
  }

  lemma ReadBytes(cfg: Config, s: Stream, len: nat, o: int)
    requires Good(cfg, s) && Laminar(s.queue) && !Disturbs(cfg, s, Out(len), o)
    ensures ByteAt(Consume(cfg, s, len), o) == ByteAt(s, o)
  {
    assert !(o < s.consumed + len && o < s.Next());
    hide *;
    ReadAhead(cfg, s, len);
    DrainBytes(cfg.maxBuffer, ReadUp(s, len), o);
    ByteOfRead(s, len, o);
  }

  lemma {:induction false} DrainConsumed(max: int, s: Stream)
    ensures Drain(max, s).consumed == s.consumed
    decreases |s.queue|
  {
    if s.queue != [] {
      DrainConsumed(max, s.(queue := s.queue[1..]));
      DrainConsumed(max, Deliver(s, s.queue[0].bytes).(queue := s.queue[1..]));
    }
  }

  /** A read takes out as many bytes as it asks for and the buffer holds, from the front, and changes no other. */
  lemma ReadTakes(cfg: Config, s: Stream, len: nat, o: int)
    requires Good(cfg, s) && Laminar(s.queue)
    ensures var r := Consume(cfg, s, len);
            && (|s.data| <= len ==> r.consumed == s.consumed + |s.data|)
            && (len <= |s.data| ==> r.consumed == s.consumed + len)
            && ByteAt(r, o) == if o < r.consumed then None else ByteAt(s, o)
  {
    ReadAhead(cfg, s, len);
    DrainConsumed(cfg.maxBuffer, ReadUp(s, len));
    hide Consume, Drain, Lookup, Laminar, Good;
    if !(o < s.consumed + len && o < s.Next()) { ReadBytes(cfg, s, len, o); }
  }

  /** An input that neither delivers nor queues anything leaves the stream as it is. */
  lemma Refused(cfg: Config, s: Stream, n: Segment, mem: Memory)
    requires Good(cfg, s) && !Delivers(cfg, s, n) && !Queues(cfg, s, n, mem)
    ensures Insert(cfg, s, n, mem) == s
  {
    hide Drain, Enqueue;
  }

  /** The byte at `o` after one input: the input's own if it writes there, else the one before unless disturbed. */
  lemma InputBytes(cfg: Config, s: Stream, e: Input, o: int)
    requires Good(cfg, s) && Laminar(s.queue) && Fits(cfg, s, e)
    ensures Writes(cfg, s, e, o) ==> ByteAt(Feed(cfg, s, e), o) == Some(e.n.At(o))
    ensures !Writes(cfg, s, e, o) && !Disturbs(cfg, s, e, o) ==> ByteAt(Feed(cfg, s, e), o) == ByteAt(s, o)
  {
    match e
    case Any(n, mem) =>
      hide Insert, ByteAt, Good, Laminar, MergeFits, Dominated, Straddled;
      if Delivers(cfg, s, n) {
        DeliveredBytes(cfg, s, n, mem, o);
      } else if Queues(cfg, s, n, mem) {
        QueuedBytes(cfg, s, n, mem, o);
      } else {
        Refused(cfg, s, n, mem);
      }
    case Out(len) =>
      hide Consume, ByteAt, Good, Laminar;
      if !Disturbs(cfg, s, e, o) { ReadBytes(cfg, s, len, o); }
  }

  // ----- runs -----

  /** Every merge pass of the run has only runs that fit. */
  ghost predicate AllFit(cfg: Config, inputs: seq<Input>) {
    forall i :: 0 <= i < |inputs| ==> Fits(cfg, RunAny(cfg, inputs[..i]), inputs[i])
  }

  /** From input `i` on, nothing writes or disturbs the byte at `o`. */
  ghost predicate Settled(cfg: Config, inputs: seq<Input>, i: nat, o: int) {
    forall j :: i <= j < |inputs| ==>
      !Writes(cfg, RunAny(cfg, inputs[..j]), inputs[j], o) && !Disturbs(cfg, RunAny(cfg, inputs[..j]), inputs[j], o)
  }

  lemma RunPrefix(cfg: Config, inputs: seq<Input>)
    requires inputs != [] && AllPlausible(cfg, inputs) && AllFit(cfg, inputs)
    ensures var front, last := inputs[..|inputs| - 1], inputs[|inputs| - 1];
            && AllPlausible(cfg, front) && AllFit(cfg, front) && Fits(cfg, RunAny(cfg, front), last)
            && RunAny(cfg, inputs) == Feed(cfg, RunAny(cfg, front), last)
  {
    hide Fits, Feed;
    var front := inputs[..|inputs| - 1];
    forall i | 0 <= i < |front| ensures Fits(cfg, RunAny(cfg, front[..i]), front[i]) {
      assert front[..i] == inputs[..i];
    }
  }

  lemma SettledPrefix(cfg: Config, inputs: seq<Input>, i: nat, o: int)
    requires i < |inputs| && Settled(cfg, inputs, i, o)
    ensures Settled(cfg, inputs[..|inputs| - 1], i, o)
    ensures var front, last := inputs[..|inputs| - 1], inputs[|inputs| - 1];
            !Writes(cfg, RunAny(cfg, front), last, o) && !Disturbs(cfg, RunAny(cfg, front), last, o)
  {
    hide Writes, Disturbs, RunAny;
    var front := inputs[..|inputs| - 1];
    forall j | i <= j < |front|
      ensures !Writes(cfg, RunAny(cfg, front[..j]), front[j], o)
           && !Disturbs(cfg, RunAny(cfg, front[..j]), front[j], o)
    {
      assert front[..j] == inputs[..j];
    }
  }

  /** A settled byte stays. */
  lemma {:induction false} SettledStays(cfg: Config, inputs: seq<Input>, i: nat, o: int)
    requires 0 <= cfg.maxBuffer && 0 <= cfg.maxSegments && AllPlausible(cfg, inputs) && AllFit(cfg, inputs)
    requires i <= |inputs| && Settled(cfg, inputs, i, o)
    ensures ByteAt(RunAny(cfg, inputs), o) == ByteAt(RunAny(cfg, inputs[..i]), o)
  {
    if i == |inputs| {
      assert inputs[..i] == inputs;
    } else {
      hide *;
      var front, last := inputs[..|inputs| - 1], inputs[|inputs| - 1];
      RunPrefix(cfg, inputs);
      SettledPrefix(cfg, inputs, i, o);
      SettledStays(cfg, front, i, o);
      assert front[..i] == inputs[..i];
      ReachableShape(cfg, front);
      InputBytes(cfg, RunAny(cfg, front), last, o);
    }
  }

  /** What a run shows at `o` is the byte of the last arrival that wrote it, if nothing has disturbed it since. */
  lemma LastWriterShows(cfg: Config, inputs: seq<Input>, i: nat, o: int)
    requires 0 <= cfg.maxBuffer && 0 <= cfg.maxSegments && AllPlausible(cfg, inputs) && AllFit(cfg, inputs)
    requires i < |inputs| && Writes(cfg, RunAny(cfg, inputs[..i]), inputs[i], o) && Settled(cfg, inputs, i + 1, o)
    ensures ByteAt(RunAny(cfg, inputs), o) == Some(inputs[i].n.At(o))
  {
    hide *;
    SettledStays(cfg, inputs, i + 1, o);
    PrefixRun(cfg, inputs, i + 1);
    var upTo := inputs[..i + 1];
    assert upTo[..|upTo| - 1] == inputs[..i] && upTo[|upTo| - 1] == inputs[i];
    RunPrefix(cfg, upTo);
    ReachableShape(cfg, inputs[..i]);
    InputBytes(cfg, RunAny(cfg, inputs[..i]), inputs[i], o);
  }

  lemma {:induction false} PrefixRun(cfg: Config, inputs: seq<Input>, i: nat)
    requires i <= |inputs| && AllPlausible(cfg, inputs) && AllFit(cfg, inputs)
    ensures AllPlausible(cfg, inputs[..i]) && AllFit(cfg, inputs[..i])
    decreases |inputs|
  {
    if i == |inputs| {
      assert inputs[..i] == inputs;
    } else {
      hide *;
      RunPrefix(cfg, inputs);
      PrefixRun(cfg, inputs[..|inputs| - 1], i);
      assert inputs[..|inputs| - 1][..i] == inputs[..i];
    }
  }

  /** An offset that no arrival has written shows nothing. */
  lemma NothingShows(cfg: Config, inputs: seq<Input>, o: int)
    requires 0 <= cfg.maxBuffer && 0 <= cfg.maxSegments && AllPlausible(cfg, inputs) && AllFit(cfg, inputs)
    requires Settled(cfg, inputs, 0, o)
    ensures ByteAt(RunAny(cfg, inputs), o) == None
  {
    SettledStays(cfg, inputs, 0, o);
    assert RunAny(cfg, inputs[..0]) == Fresh();
  }
}
