/**
 What is left of a join that is wider than a segment record can say: the length keeps its low 16 bits, so the joined
 record is a prefix of the first of the two.
 */
module WideMerges {
  import opened ArbitraryRuns
  import opened ByteHistory
  import opened Options
  import opened SegmentQueue
  import opened StreamModel

  /**
   Two adjacent segments of more than 65535 bytes together are replaced by the start of the first: all but the last
   65536 bytes of both.
   */
  lemma WideJoin(a: Segment, b: Segment, r: Queue, failed: set<nat>, k: nat)
    requires |a.bytes| <= 65535 && |b.bytes| <= 65535 && b.off == a.End() && |a.bytes| + |b.bytes| > 65535
    requires k !in failed
    ensures Merge([a, b] + r, failed, k)
         == Merge([Segment(a.off, a.bytes[..|a.bytes| + |b.bytes| - 65536])] + r, failed, k + 1)
  {
    var q, j := [a, b] + r, Segment(a.off, a.bytes[..|a.bytes| + |b.bytes| - 65536]);
    assert q[0] == a && q[1] == b && q[2..] == r;
    assert a.bytes + b.bytes[0..] == a.bytes + b.bytes;
    assert (a.bytes + b.bytes)[..|a.bytes| + |b.bytes| - 65536] == j.bytes;
    assert Join(a, b) == j;
  }

  /** Up to 65535 bytes they are simply put together. */
  lemma NarrowJoin(a: Segment, b: Segment, r: Queue, failed: set<nat>, k: nat)
    requires b.off == a.End() < b.End() && |a.bytes| + |b.bytes| <= 65535 && k !in failed
    ensures Merge([a, b] + r, failed, k) == Merge([Segment(a.off, a.bytes + b.bytes)] + r, failed, k + 1)
  {
    var q := [a, b] + r;
    assert q[0] == a && q[1] == b && q[2..] == r;
    assert b.bytes[0..] == b.bytes && (a.bytes + b.bytes)[..|a.bytes + b.bytes|] == a.bytes + b.bytes;
    assert Join(a, b) == Segment(a.off, a.bytes + b.bytes);
  }

  /** If there is no memory for the joined record, both stay, whatever their length, and the pass goes on behind. */
  lemma FailedJoin(a: Segment, b: Segment, r: Queue, failed: set<nat>, k: nat)
    requires b.off <= a.End() < b.End() && k in failed
    ensures Merge([a, b] + r, failed, k) == [a] + Merge([b] + r, failed, k + 1)
  {
    var q := [a, b] + r;
    assert q[0] == a && q[1] == b && q[1..] == [b] + r;
  }

  /** What two adjacent segments are replaced by: their bytes, but the last 65536 of more than 65535. */
  function Replacement(a: Segment, b: Segment): Segment {
    var len := |a.bytes| + |b.bytes|;
    if len <= 65535 then Segment(a.off, a.bytes + b.bytes) else Segment(a.off, (a.bytes + b.bytes)[..len - 65536])
  }

  lemma AnyJoin(a: Segment, b: Segment, r: Queue, k: nat)
    requires |a.bytes| <= 65535 && 0 < |b.bytes| <= 65535 && b.off == a.End()
    ensures Merge([a, b] + r, {}, k) == Merge([Replacement(a, b)] + r, {}, k + 1)
  {
    var len := |a.bytes| + |b.bytes|;
    if len <= 65535 {
      NarrowJoin(a, b, r, {}, k);
    } else {
      assert (a.bytes + b.bytes)[..len - 65536] == a.bytes[..len - 65536];
      WideJoin(a, b, r, {}, k);
    }
    hide Merge;
  }

  /** Alone, they become one segment, which shows at each of its offsets what was shown before. */
  lemma WidePair(a: Segment, b: Segment, k: nat)
    requires |a.bytes| <= 65535 && |b.bytes| <= 65535 && b.off == a.End() && |a.bytes| + |b.bytes| > 65535
    ensures var m := Merge([a, b], {}, k);
            && |m| == 1 && m[0].off == a.off && |m[0].bytes| == b.End() - a.off - 65536
            && forall o :: Lookup(m, o) == if a.off <= o < b.End() - 65536 then Lookup([a, b], o) else None
  {
    assert [a, b] + [] == [a, b];
    WideJoin(a, b, [], {}, k);
    var j := Segment(a.off, a.bytes[..|a.bytes| + |b.bytes| - 65536]);
    assert [j] + [] == [j] && [j][1..] == [] && [a, b][1..] == [b] && [b][1..] == [];
    assert Merge([j], {}, k + 1) == [j];
    hide Merge;
  }

  // ----- a whole pass over disjoint segments -----

  /** Sorted and disjoint, and none empty but perhaps the first, which a cut may have emptied. */
  ghost predicate Flat(q: Queue) {
    && (forall i :: 0 < i < |q| ==> q[i].bytes != [])
    && (forall i, j :: 0 <= i < j < |q| ==> q[i].End() <= q[j].off)
  }

  /** Where a pass cuts: `[lo, hi)` is the run put together so far, and each wrap drops its last 65536 offsets. */
  predicate CutOff(lo: int, hi: int, rest: Queue, o: int)
    decreases |rest|
  {
    if rest == [] then false
    else
      var b, later := rest[0], rest[1..];
      if hi < b.off then CutOff(b.off, b.End(), later, o)
      else if b.End() - lo <= 65535 then CutOff(lo, b.End(), later, o)
      else b.End() - 65536 <= o < b.End() || CutOff(lo, b.End() - 65536, later, o)
  }

  lemma {:induction false} CutsInside(lo: int, hi: int, rest: Queue, o: int)
    requires CutOff(lo, hi, rest, o) && lo <= hi && forall i :: 0 <= i < |rest| ==> hi <= rest[i].off
    requires Flat(rest)
    ensures lo <= o
    decreases |rest|
  {
    var b, later := rest[0], rest[1..];
    FlatTail(rest);
    if hi < b.off {
      CutsInside(b.off, b.End(), later, o);
    } else if b.End() - lo <= 65535 {
      CutsInside(lo, b.End(), later, o);
    } else if !(b.End() - 65536 <= o < b.End()) {
      CutsInside(lo, b.End() - 65536, later, o);
    }
  }

  lemma FlatTail(q: Queue)
    requires q != [] && Flat(q)
    ensures Flat(q[1..]) && forall i :: 0 <= i < |q[1..]| ==> q[0].End() <= q[1..][i].off
  {
    forall i | 0 <= i < |q[1..]| ensures q[0].End() <= q[1..][i].off {
      assert q[1..][i] == q[i + 1];
    }
    assert forall i :: 0 < i < |q[1..]| ==> q[1..][i] == q[i + 1];
    forall i, j | 0 <= i < j < |q[1..]| ensures q[1..][i].End() <= q[1..][j].off {
      assert q[i + 1].End() <= q[j + 1].off;
    }
  }

  lemma FlatFront(q: Queue, a: Segment)
    requires |q| >= 2 && Flat(q) && a.End() <= q[1].End()
    ensures Flat([a] + q[2..]) && forall i :: 0 <= i < |q[2..]| ==> q[1].End() <= q[2..][i].off
  {
    var r := [a] + q[2..];
    forall i | 0 <= i < |q[2..]| ensures q[1].End() <= q[2..][i].off {
      assert q[1].End() <= q[i + 2].off;
    }
    forall i, j | 0 <= i < j < |r| ensures r[i].End() <= r[j].off {
      assert r[j] == q[j + 1];
      assert i > 0 ==> q[i + 1].End() <= q[j + 1].off;
    }
  }

  lemma JoinedBytes(a: Segment, b: Segment, j: Segment, o: int)
    requires a.End() == b.off && j.off == a.off && j.bytes <= a.bytes + b.bytes && j.Covers(o)
    ensures if a.Covers(o) then j.At(o) == a.At(o) else b.Covers(o) && j.At(o) == b.At(o)
  {
    assert j.At(o) == (a.bytes + b.bytes)[o - a.off];
  }

  /** A prefix of two adjacent segments in place of both. */
  lemma FlatJoin(q: Queue, j: Segment, o: int)
    requires |q| >= 2 && Flat(q) && Short(q) && q[0].End() == q[1].off && j.off == q[0].off
    requires |j.bytes| <= 65535 && j.bytes <= q[0].bytes + q[1].bytes
    ensures var n := [j] + q[2..];
            && Flat(n) && Short(n) && n[0] == j && n[1..] == q[2..]
            && Lookup(n, o) == if j.End() <= o < q[1].End() then None else Lookup(q, o)
  {
    var a, b, r := q[0], q[1], q[2..];
    assert q == [a, b] + r;
    FlatFront(q, j);
    LookupTwo(a, b, r, o);
    LookupTwo(j, b, r, o);
    forall x | x in [j] + r ensures |x.bytes| <= 65535 { assert x == j || x in q; }
    hide Flat, Short, Lookup;
    if j.Covers(o) { JoinedBytes(a, b, j, o); }
    if o < b.End() { CoversNothing(r, o); }
  }

  /** What a pass leaves at one offset. */
  ghost predicate CutLaw(q: Queue, k: nat, o: int)
    requires q != []
  {
    Lookup(Merge(q, {}, k), o) == if CutOff(q[0].off, q[0].End(), q[1..], o) then None else Lookup(q, o)
  }

  lemma CutLawBehind(q: Queue, k: nat, o: int)
    requires |q| >= 2 && Flat(q) && q[0].End() < q[1].off && CutLaw(q[1..], k, o)
    ensures CutLaw(q, k, o)
  {
    var a, b, r, m := q[0], q[1], q[2..], Merge(q[1..], {}, k);
    assert q[1..][0] == b && q[1..][1..] == r && ([a] + m)[1..] == m && Merge(q, {}, k) == [a] + m;
    assert CutOff(a.off, a.End(), q[1..], o) == CutOff(b.off, b.End(), r, o);
    hide Merge;
    FlatTail(q);
    FlatTail(q[1..]);
    if CutOff(b.off, b.End(), r, o) { CutsInside(b.off, b.End(), r, o); }
  }

  lemma CutLawJoined(q: Queue, k: nat, o: int)
    requires |q| >= 2 && Flat(q) && Short(q) && q[0].End() == q[1].off
    requires var j := Replacement(q[0], q[1]);
             CutLaw([j] + q[2..], k + 1, o) && Merge(q, {}, k) == Merge([j] + q[2..], {}, k + 1)
    ensures CutLaw(q, k, o)
  {
    var j := Replacement(q[0], q[1]);
    assert q[1..][0] == q[1] && q[1..][1..] == q[2..] && q[0] in q && q[1] in q;
    assert ([j] + q[2..])[1..] == q[2..];
    FlatJoin(q, j, o);
    hide Merge, Flat, Short, Lookup;
  }

  /**
   A pass over disjoint segments without allocation failures, however wide its runs: every offset shows what it did,
   except those cut off, which show nothing.
   */
  lemma {:induction false} FlatMerge(q: Queue, k: nat, o: int)
    requires q != [] && Flat(q) && Short(q)
    ensures CutLaw(q, k, o)
    decreases |q|
  {
    if |q| >= 2 {
      var a, b, r := q[0], q[1], q[2..];
      assert q == [a, b] + r && a in q && b in q && a.End() <= b.off && b.bytes != [];
      FlatTail(q);
      if a.End() < b.off {
        hide Flat, CutLaw, Merge;
        FlatMerge(q[1..], k, o);
        CutLawBehind(q, k, o);
      } else {
        var j := Replacement(a, b);
        FlatJoin(q, j, o);
        hide Flat, CutLaw, Merge, Short, Replacement;
        AnyJoin(a, b, r, k);
        FlatMerge([j] + r, k + 1, o);
        CutLawJoined(q, k, o);
      }
    }
  }

  // ----- the row of blocks -----

  /** The bytes of the first `m` blocks. */
  function Row(m: nat): (bytes: seq<byte>)
    ensures |bytes| == BLOCK * m
  {
    if m == 0 then [] else Row(m - 1) + Block(m - 1).bytes
  }

  /** Up to nine blocks fit in a record. */
  lemma {:induction false} RowJoins(m: nat)
    requires 1 <= m <= 9
    ensures Merge(Blocks(0, 11), {}, 0) == Merge([Segment(BLOCK, Row(m))] + Blocks(m, 11), {}, m - 1)
  {
    if m == 1 {
      assert Row(0) + Block(0).bytes == Block(0).bytes;
      assert Segment(BLOCK, Row(1)) == Block(0);
      assert Blocks(0, 11) == [Block(0)] + Blocks(1, 11);
    } else {
      RowJoins(m - 1);
      assert Blocks(m - 1, 11) == [Block(m - 1)] + Blocks(m, 11);
      hide *;
      RowStep(m, Blocks(m, 11));
    }
  }

  lemma RowStep(m: nat, r: Queue)
    requires 1 < m <= 9
    ensures Merge([Segment(BLOCK, Row(m - 1))] + ([Block(m - 1)] + r), {}, m - 2)
         == Merge([Segment(BLOCK, Row(m))] + r, {}, m - 1)
  {
    var a, b := Segment(BLOCK, Row(m - 1)), Block(m - 1);
    assert [a] + ([b] + r) == [a, b] + r;
    hide Merge;
    NarrowJoin(a, b, r, {}, m - 2);
  }

  /** With the tenth block the length wraps; the eleventh stays by itself. */
  lemma RowWraps()
    ensures Merge(Blocks(0, 11), {}, 0) == [Segment(7000, Block(0).bytes[..4464]), Block(10)]
  {
    RowJoins(9);
    var a, b, r := Segment(BLOCK, Row(9)), Block(9), Blocks(10, 11);
    assert Blocks(9, 11) == [b] + r && Blocks(10, 11) == [Block(10)] + Blocks(11, 11);
    assert [a] + ([b] + r) == [a, b] + r;
    WideJoin(a, b, r, {}, 8);
    RowStarts(9);
    var j := Segment(7000, Block(0).bytes[..4464]);
    assert a.bytes[..4464] == j.bytes;
    assert r == [Block(10)] && [j] + r == [j, Block(10)] && j.End() == 11464 && Block(10).off == 77000;
    assert [j, Block(10)][1..] == [Block(10)];
    assert Merge([Block(10)], {}, 9) == [Block(10)];
  }

  lemma {:induction false} RowStarts(m: nat)
    requires m >= 1
    ensures Row(m)[..BLOCK] == Block(0).bytes
  {
    if m == 1 {
      assert Row(0) + Block(0).bytes == Block(0).bytes;
    } else {
      RowStarts(m - 1);
    }
  }

  /** The missing first 7000 bytes. */
  function Head(): Segment { Segment(0, seq(BLOCK, _ => 0)) }

  /** Eleven blocks arrive, and then what was missing before them. */
  function WideInputs(): seq<Input> { BlockInputs(11) + [Any(Head(), Memory(true, {}))] }

  /** The two segments that the pass leaves, waiting behind the gap. */
  function CutQueue(): Queue { [Segment(7000, Block(0).bytes[..4464]), Block(10)] }

  lemma BlockQueue()
    ensures Enqueue(Blocks(0, 10), Block(10), {}) == CutQueue()
  {
    BlockPlaced(10);
    RowWraps();
    NeverDuplicate(Blocks(0, 10), Block(10));
    assert |Blocks(0, 11)| == 11;
    hide Merge, Blocks, Block;
  }

  lemma QueueStays(cfg: Config, q: Queue, n: Segment, r: Queue)
    requires 0 < n.off && n.bytes != [] && |q| < cfg.maxSegments
    requires Enqueue(q, n, {}) == r && r != [] && 0 < r[0].off
    ensures Insert(cfg, Stream(0, [], q, 0), n, Memory(true, {})) == Stream(0, [], r, 0)
  {
    hide Enqueue;
  }

  lemma BlockStays(cfg: Config)
    requires 0 <= cfg.maxBuffer && MERGE_ABOVE < cfg.maxSegments
    ensures Insert(cfg, Stream(0, [], Blocks(0, 10), 0), Block(10), Memory(true, {})) == Stream(0, [], CutQueue(), 0)
  {
    BlockQueue();
    assert |Blocks(0, 10)| == 10 && CutQueue()[0].off == 7000 && Block(10).off == 77000 && Block(10).bytes != [];
    hide Enqueue, Blocks, Block, CutQueue, Insert;
    QueueStays(cfg, Blocks(0, 10), Block(10), CutQueue());
  }

  lemma BlockStep(cfg: Config)
    requires 0 <= cfg.maxBuffer && MERGE_ABOVE < cfg.maxSegments
    ensures RunAny(cfg, BlockInputs(11)) == Stream(0, [], CutQueue(), 0)
  {
    BlocksArrive(cfg, 10);
    BlockStays(cfg);
    assert BlockInputs(11) == BlockInputs(10) + [Any(Block(10), Memory(true, {}))];
    RunLast(cfg, BlockInputs(10), Any(Block(10), Memory(true, {})));
    hide Insert, Block, Blocks, CutQueue, BlockInputs, RunAny;
  }

  /** The missing bytes arrive, and the cut record is delivered behind them. */
  lemma HeadDelivered(cfg: Config)
    requires 11464 <= cfg.maxBuffer
    ensures Insert(cfg, Stream(0, [], CutQueue(), 0), Head(), Memory(true, {}))
         == Stream(0, Head().bytes + Block(0).bytes[..4464], [Block(10)], 11464)
  {
    var s, cut := Stream(0, [], CutQueue(), 0), Block(0).bytes[..4464];
    var s1 := Deliver(s, Head().bytes);
    var s2 := Deliver(s1, cut).(queue := [Block(10)]);
    assert After(Head(), 0) == Head() && s1.queue[1..] == [Block(10)] && [] + Head().bytes == Head().bytes;
    assert s2.Next() == 11464 < Block(10).off;
    assert Drain(cfg.maxBuffer, s1) == Drain(cfg.maxBuffer, s2) == s2;
  }

  lemma CutBytes(o: int)
    ensures var s := Stream(0, [], CutQueue(), 0);
            && (7000 <= o < 11464 ==> ByteAt(s, o) == Some(Block(0).At(o)))
            && (11464 <= o < 77000 ==> ByteAt(s, o) == None)
    ensures var s := Stream(0, Head().bytes + Block(0).bytes[..4464], [Block(10)], 11464);
            && (7000 <= o < 11464 ==> ByteAt(s, o) == Some(Block(0).At(o)))
            && (11464 <= o < 77000 ==> ByteAt(s, o) == None)
  {
    var cut := Segment(7000, Block(0).bytes[..4464]);
    LookupTwo(cut, Block(10), [], o);
    LookupTwo(Block(10), cut, [], o);
    assert CutQueue() == [cut, Block(10)] + [] && [Block(10)] == [Block(10)] + [];
    assert Lookup([], o) == None;
    hide Lookup;
  }

  /**
   The run in which a merge pass is too wide: the ten joined blocks are cut to their first 4464 bytes.  When the
   missing bytes arrive, those 4464 are delivered with them; the rest of the ten blocks is gone.
   */
  lemma WideMergeShows(cfg: Config, o: int)
    requires 11464 <= cfg.maxBuffer && MERGE_ABOVE < cfg.maxSegments
    ensures RunAny(cfg, WideInputs()) == Stream(0, Head().bytes + Block(0).bytes[..4464], [Block(10)], 11464)
    ensures 7000 <= o < 11464 ==>
              && ByteAt(RunAny(cfg, BlockInputs(11)), o) == Some(Block(0).At(o))
              && ByteAt(RunAny(cfg, WideInputs()), o) == Some(Block(0).At(o))
    ensures 11464 <= o < 77000 ==>
              ByteAt(RunAny(cfg, BlockInputs(11)), o) == None == ByteAt(RunAny(cfg, WideInputs()), o)
  {
    BlockStep(cfg);
    HeadDelivered(cfg);
    CutBytes(o);
    RunLast(cfg, BlockInputs(11), Any(Head(), Memory(true, {})));
    hide Insert, Block, ByteAt, CutQueue, BlockInputs, RunAny, Head;
  }
}
