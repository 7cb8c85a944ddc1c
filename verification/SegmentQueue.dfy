/**
 The out-of-order queue of a stream buffer, on unbounded stream offsets.

 The queue is the linked list of `tcp_segment` records.  Its meaning is a partial map from stream
 offset to byte: the byte of the first list element that covers the offset (`Lookup`).  The operations
 are those of the favour-new policy.
 */
module SegmentQueue {
  import opened Options

  newtype byte = x: int | 0 <= x < 256

  /** The widest length a segment record can hold: `payload_len` has 16 bits. */
  const MAX_LEN := 65535

  datatype Segment = Segment(off: int, bytes: seq<byte>) {
    function End(): int { off + |bytes| }

    predicate Covers(o: int) { off <= o < End() }

    function At(o: int): byte
      requires Covers(o)
    {
      bytes[o - off]
    }
  }

  type Queue = seq<Segment>

  /** The meaning of a queue at one offset. */
  function Lookup(q: Queue, o: int): Option<byte> {
    if q == [] then None
    else if q[0].Covers(o) then Some(q[0].At(o))
    else Lookup(q[1..], o)
  }

  ghost predicate SameMeaning(p: Queue, q: Queue) {
    forall o :: Lookup(p, o) == Lookup(q, o)
  }

  /** `a` may precede `b` in the list: `b` starts after `a`, or lies inside it. */
  predicate Before(a: Segment, b: Segment) {
    || a.End() <= b.off
    || (a.off <= b.off && b.End() <= a.End())
  }

  /** Any two segments are disjoint or nested; the list is sorted and an outer segment comes first. */
  ghost predicate Laminar(q: Queue) {
    forall i, j :: 0 <= i < j < |q| ==> Before(q[i], q[j])
  }

  ghost predicate Sorted(q: Queue) {
    forall i, j :: 0 <= i < j < |q| ==> q[i].off <= q[j].off
  }

  /** No two segments overlap or even touch. */
  ghost predicate Separated(q: Queue) {
    forall i, j :: 0 <= i < j < |q| ==> q[i].End() < q[j].off
  }

  /** A queued segment starts at or before `n` and ends strictly after it. */
  ghost predicate Dominated(q: Queue, n: Segment) {
    exists i :: 0 <= i < |q| && Dominates(q[i], n)
  }

  predicate Dominates(c: Segment, n: Segment) {
    c.off <= n.off && n.End() < c.End()
  }

  // ----- the operations -----

  /** What one queued segment becomes when `n` arrives: removed, trimmed at one end, or kept. */
  function Trim(c: Segment, n: Segment): (r: Queue)
    ensures |r| <= 1
  {
    if n.off <= c.off && n.End() >= c.End() then []
    else if n.off < c.off && n.End() > c.off && n.End() < c.End() then
      [Segment(n.End(), c.bytes[n.End() - c.off..])]
    else if n.off > c.off && n.off < c.End() && n.End() >= c.End() then
      [Segment(c.off, c.bytes[..n.off - c.off])]
    else [c]
  }

  function TrimAll(q: Queue, n: Segment): (r: Queue)
    ensures |r| <= |q|
  {
    if q == [] then [] else Trim(q[0], n) + TrimAll(q[1..], n)
  }

  /** The walk met a queued segment with the start and the length of `n`. */
  predicate MeetsDuplicate(q: Queue, n: Segment) {
    q != [] && n.off >= q[0].off
    && ((n.off == q[0].off && |n.bytes| == |q[0].bytes|) || MeetsDuplicate(q[1..], n))
  }

  /** Insertion after every segment that starts at or before `n`. */
  function SortedInsert(q: Queue, n: Segment): (r: Queue)
    ensures |r| == |q| + 1
  {
    if q == [] || n.off < q[0].off then [n] + q
    else [q[0]] + SortedInsert(q[1..], n)
  }

  /** Two touching segments as one record, whose length keeps 16 bits only. */
  function Join(a: Segment, b: Segment): (r: Segment)
    requires b.off <= a.End() < b.End()
  {
    var merged := a.bytes + b.bytes[a.End() - b.off..];
    Segment(a.off, merged[..|merged| % (MAX_LEN + 1)])
  }

  /** One pass over the list; the k-th allocation of the pass fails exactly when `k in failed`. */
  function Merge(q: Queue, failed: set<nat>, k: nat): (r: Queue)
    ensures |r| <= |q|
    decreases |q|
  {
    if |q| < 2 then q
    else if q[0].End() < q[1].off then [q[0]] + Merge(q[1..], failed, k)
    else if q[1].End() <= q[0].End() then Merge([q[0]] + q[2..], failed, k)
    else if k in failed then [q[0]] + Merge(q[1..], failed, k + 1)
    else Merge([Join(q[0], q[1])] + q[2..], failed, k + 1)
  }

  /** Queue lengths above this trigger a merge pass. */
  const MERGE_ABOVE := 10

  function Enqueue(q: Queue, n: Segment, failed: set<nat>): (r: Queue)
    ensures |r| <= |q| + 1
  {
    var t := TrimAll(q, n);
    if MeetsDuplicate(t, n) then t
    else
      var u := SortedInsert(t, n);
      if |u| > MERGE_ABOVE then Merge(u, failed, 0) else u
  }

  // ----- meaning: trimming and insertion -----

  lemma {:induction false} LookupConcat(p: Queue, q: Queue, o: int)
    ensures Lookup(p + q, o) == if Lookup(p, o).Some? then Lookup(p, o) else Lookup(q, o)
  {
    if p == [] {
      assert p + q == q;
    } else {
      LookupConcat(p[1..], q, o);
      assert (p + q)[1..] == p[1..] + q;
    }
  }

  lemma {:induction false} LookupNone(q: Queue, o: int)
    ensures Lookup(q, o).None? <==> forall i :: 0 <= i < |q| ==> !q[i].Covers(o)
  {
    if q != [] {
      LookupNone(q[1..], o);
      assert forall i :: 0 <= i < |q[1..]| ==> q[1..][i] == q[i + 1];
      assert forall i :: 1 <= i < |q| ==> q[i] == q[1..][i - 1];
    }
  }

  /** Outside `n`, trimming changes nothing. */
  lemma {:induction false} TrimAllOutside(q: Queue, n: Segment, o: int)
    requires !n.Covers(o)
    ensures Lookup(TrimAll(q, n), o) == Lookup(q, o)
  {
    if q != [] {
      TrimAllOutside(q[1..], n, o);
      LookupConcat(Trim(q[0], n), TrimAll(q[1..], n), o);
    }
  }

  /** Inside an undominated `n`, trimming removes every queued byte. */
  lemma {:induction false} TrimAllInside(q: Queue, n: Segment, o: int)
    requires n.Covers(o) && !Dominated(q, n)
    ensures Lookup(TrimAll(q, n), o).None?
  {
    if q != [] {
      assert forall i :: 0 <= i < |q[1..]| ==> q[1..][i] == q[i + 1];
      TrimAllInside(q[1..], n, o);
      assert !Dominates(q[0], n);
      LookupConcat(Trim(q[0], n), TrimAll(q[1..], n), o);
    }
  }

  lemma {:induction false} SortedInsertOutside(q: Queue, n: Segment, o: int)
    requires !n.Covers(o)
    ensures Lookup(SortedInsert(q, n), o) == Lookup(q, o)
  {
    if q == [] || n.off < q[0].off {
      assert ([n] + q)[1..] == q;
    } else {
      SortedInsertOutside(q[1..], n, o);
      assert SortedInsert(q, n)[1..] == SortedInsert(q[1..], n);
    }
  }

  lemma {:induction false} SortedInsertFresh(q: Queue, n: Segment, o: int)
    requires n.Covers(o) && Lookup(q, o).None?
    ensures Lookup(SortedInsert(q, n), o) == Some(n.At(o))
  {
    if q != [] && n.off >= q[0].off {
      SortedInsertFresh(q[1..], n, o);
      assert SortedInsert(q, n)[1..] == SortedInsert(q[1..], n);
    }
  }

  lemma LaminarTail(q: Queue)
    requires q != [] && Laminar(q)
    ensures Laminar(q[1..])
  {
    forall i, j | 0 <= i < j < |q[1..]| ensures Before(q[1..][i], q[1..][j]) {
      assert Before(q[i + 1], q[j + 1]);
    }
  }

  /** A dominated segment is nested: the queued bytes keep winning everywhere. */
  lemma {:induction false} DominatedKeeps(q: Queue, n: Segment, o: int)
    requires Laminar(q) && Dominated(q, n) && n.Covers(o)
    ensures Lookup(SortedInsert(TrimAll(q, n), n), o) == Lookup(q, o)
  {
    var d :| 0 <= d < |q| && Dominates(q[d], n);
    var c, rest := q[0], TrimAll(q[1..], n);
    assert d > 0 ==> Before(c, q[d]);
    if c.Covers(o) {
      assert Dominates(c, n);
      assert TrimAll(q, n) == [c] + rest;
      assert SortedInsert(TrimAll(q, n), n)[0] == c;
    } else {
      assert q[1..][d - 1] == q[d];
      LaminarTail(q);
      DominatedKeeps(q[1..], n, o);
      if Trim(c, n) == [] {
        assert TrimAll(q, n) == rest;
      } else {
        var c' := Trim(c, n)[0];
        assert c'.off <= n.off && !c'.Covers(o);
        assert TrimAll(q, n) == [c'] + rest;
        assert TrimAll(q, n)[1..] == rest;
        assert SortedInsert(TrimAll(q, n), n)[1..] == SortedInsert(rest, n);
      }
    }
  }

  /** Trimming leaves no segment that starts with `n` and has its length. */
  lemma {:induction false} NeverDuplicate(q: Queue, n: Segment)
    requires n.bytes != []
    ensures !MeetsDuplicate(TrimAll(q, n), n)
  {
    if q != [] {
      NeverDuplicate(q[1..], n);
      var t := Trim(q[0], n);
      if t == [] {
        assert TrimAll(q, n) == TrimAll(q[1..], n);
      } else {
        assert TrimAll(q, n)[1..] == TrimAll(q[1..], n);
      }
    }
  }

  /** The queue's meaning after `n` is queued and before any merge pass, at every offset. */
  lemma InsertMeaning(q: Queue, n: Segment, o: int)
    requires Laminar(q)
    ensures Lookup(SortedInsert(TrimAll(q, n), n), o)
         == if n.Covers(o) && !Dominated(q, n) then Some(n.At(o)) else Lookup(q, o)
  {
    if !n.Covers(o) {
      TrimAllOutside(q, n, o);
      SortedInsertOutside(TrimAll(q, n), n, o);
    } else if Dominated(q, n) {
      DominatedKeeps(q, n, o);
    } else {
      TrimAllInside(q, n, o);
      SortedInsertFresh(TrimAll(q, n), n, o);
    }
  }

  // ----- shape: trimming and insertion -----

  lemma TrimKeepsBefore(a: Segment, b: Segment, n: Segment)
    requires Before(a, b)
    ensures forall x, y :: x in Trim(a, n) && y in Trim(b, n) ==> Before(x, y)
  {
  }

  /** What trimming leaves is clear of `n`, or strictly contains it. */
  predicate ClearOf(c: Segment, n: Segment) {
    c.End() <= n.off || n.End() <= c.off || Dominates(c, n)
  }

  /** Every element of a trimmed queue is the trace of one original. */
  lemma {:induction false} TrimAllMember(q: Queue, n: Segment, x: Segment)
    requires x in TrimAll(q, n)
    ensures exists i :: 0 <= i < |q| && x in Trim(q[i], n)
  {
    if q != [] {
      if x in Trim(q[0], n) {
      } else {
        TrimAllMember(q[1..], n, x);
        var i :| 0 <= i < |q[1..]| && x in Trim(q[1..][i], n);
        assert x in Trim(q[i + 1], n);
      }
    }
  }

  lemma {:induction false} TrimAllLaminar(q: Queue, n: Segment)
    requires Laminar(q)
    ensures Laminar(TrimAll(q, n))
  {
    if q != [] {
      LaminarTail(q);
      TrimAllLaminar(q[1..], n);
      var rest := TrimAll(q[1..], n);
      forall x, y | x in Trim(q[0], n) && y in rest ensures Before(x, y) {
        TrimAllMember(q[1..], n, y);
        var i :| 0 <= i < |q[1..]| && y in Trim(q[1..][i], n);
        assert Before(q[0], q[i + 1]);
        TrimKeepsBefore(q[0], q[i + 1], n);
      }
      LaminarConcat(Trim(q[0], n), rest);
    }
  }

  lemma LaminarConcat(p: Queue, q: Queue)
    requires |p| <= 1 && Laminar(q)
    requires forall x, y :: x in p && y in q ==> Before(x, y)
    ensures Laminar(p + q)
  {
  }

  lemma TrimAllClear(q: Queue, n: Segment)
    requires n.bytes != []
    ensures forall x :: x in TrimAll(q, n) ==> ClearOf(x, n)
  {
    forall x | x in TrimAll(q, n) ensures ClearOf(x, n) {
      TrimAllMember(q, n, x);
      var i :| 0 <= i < |q| && x in Trim(q[i], n);
    }
  }

  lemma {:induction false} SortedInsertMember(q: Queue, n: Segment, x: Segment)
    requires x in SortedInsert(q, n)
    ensures x == n || x in q
  {
    if q != [] && n.off >= q[0].off && x != q[0] {
      SortedInsertMember(q[1..], n, x);
    }
  }

  lemma {:induction false} SortedInsertLaminar(q: Queue, n: Segment)
    requires n.bytes != [] && Laminar(q)
    requires forall x :: x in q ==> ClearOf(x, n)
    ensures Laminar(SortedInsert(q, n))
  {
    if q == [] || n.off < q[0].off {
      forall y | y in q ensures Before(n, y) {
        var i :| 0 <= i < |q| && q[i] == y;
        assert i > 0 ==> Before(q[0], q[i]);
      }
      LaminarConcat([n], q);
    } else {
      LaminarTail(q);
      SortedInsertLaminar(q[1..], n);
      forall y | y in SortedInsert(q[1..], n) ensures Before(q[0], y) {
        SortedInsertMember(q[1..], n, y);
        if y != n {
          var i :| 0 <= i < |q[1..]| && q[1..][i] == y;
          assert Before(q[0], q[i + 1]);
        } else {
          assert ClearOf(q[0], n);
        }
      }
      LaminarConcat([q[0]], SortedInsert(q[1..], n));
    }
  }

  lemma InsertLaminar(q: Queue, n: Segment)
    requires Laminar(q) && n.bytes != []
    ensures Laminar(SortedInsert(TrimAll(q, n), n))
  {
    TrimAllLaminar(q, n);
    TrimAllClear(q, n);
    SortedInsertLaminar(TrimAll(q, n), n);
  }

  // ----- merging -----

  ghost predicate Short(q: Queue) {
    forall x :: x in q ==> |x.bytes| <= MAX_LEN
  }

  /** Every maximal run of touching segments, the first of them [lo, hi), spans at most MAX_LEN bytes. */
  predicate RunFits(lo: int, hi: int, rest: Queue)
    decreases |rest|
  {
    && hi - lo <= MAX_LEN
    && (rest == [] ||
        if rest[0].off <= hi then RunFits(lo, Max(hi, rest[0].End()), rest[1..])
        else RunFits(rest[0].off, rest[0].End(), rest[1..]))
  }

  predicate RunsFit(q: Queue) {
    q == [] || RunFits(q[0].off, q[0].End(), q[1..])
  }

  function Max(a: int, b: int): int { if a < b then b else a }

  lemma SortedTail(q: Queue)
    requires q != [] && Sorted(q)
    ensures Sorted(q[1..])
  {
    forall i, j | 0 <= i < j < |q[1..]| ensures q[1..][i].off <= q[1..][j].off {
      assert q[i + 1].off <= q[j + 1].off;
    }
  }

  lemma LaminarSorted(q: Queue)
    requires Laminar(q)
    ensures Sorted(q)
  {
    forall i, j | 0 <= i < j < |q| ensures q[i].off <= q[j].off {
      assert Before(q[i], q[j]);
    }
  }

  lemma SortedReplace(q: Queue, a: Segment)
    requires |q| >= 2 && Sorted(q) && a.off == q[0].off
    ensures Sorted([a] + q[2..])
  {
    var r := [a] + q[2..];
    forall i, j | 0 <= i < j < |r| ensures r[i].off <= r[j].off {
      assert q[0].off <= q[j + 1].off;
      assert i > 0 ==> q[i + 1].off <= q[j + 1].off;
    }
  }

  /** A merge pass whose allocations all succeed leaves no two segments overlapping or touching. */
  lemma {:induction false} MergeSeparates(q: Queue, k: nat)
    requires Sorted(q)
    ensures Separated(Merge(q, {}, k))
    ensures q != [] ==> Merge(q, {}, k) != [] && Merge(q, {}, k)[0].off == q[0].off
    decreases |q|
  {
    if |q| >= 2 {
      if q[0].End() < q[1].off {
        SortedTail(q);
        MergeSeparates(q[1..], k);
        var m := Merge(q[1..], {}, k);
        assert forall j :: 0 < j < |m| ==> m[0].End() < m[j].off;
      } else if q[1].End() <= q[0].End() {
        SortedReplace(q, q[0]);
        MergeSeparates([q[0]] + q[2..], k);
      } else {
        SortedReplace(q, Join(q[0], q[1]));
        MergeSeparates([Join(q[0], q[1])] + q[2..], k + 1);
      }
    }
  }

  lemma LaminarDrop(q: Queue)
    requires |q| >= 2 && Laminar(q)
    ensures Laminar([q[0]] + q[2..])
  {
    var r := [q[0]] + q[2..];
    forall i, j | 0 <= i < j < |r| ensures Before(r[i], r[j]) {
      assert Before(q[0], q[j + 1]);
      assert i > 0 ==> Before(q[i + 1], q[j + 1]);
    }
  }

  lemma LaminarJoin(q: Queue)
    requires |q| >= 2 && Laminar(q) && q[1].off <= q[0].End() < q[1].End()
    requires q[1].End() - q[0].off <= MAX_LEN
    ensures q[1].off == q[0].End()
    ensures Join(q[0], q[1]) == Segment(q[0].off, q[0].bytes + q[1].bytes)
    ensures Laminar([Join(q[0], q[1])] + q[2..])
  {
    assert Before(q[0], q[1]);
    var r := [Join(q[0], q[1])] + q[2..];
    forall i, j | 0 <= i < j < |r| ensures Before(r[i], r[j]) {
      assert Before(q[0], q[j + 1]) && Before(q[1], q[j + 1]);
      assert i > 0 ==> Before(q[i + 1], q[j + 1]);
    }
  }

  lemma LookupTwo(a: Segment, b: Segment, r: Queue, o: int)
    ensures Lookup([a, b] + r, o) ==
            if a.Covers(o) then Some(a.At(o)) else if b.Covers(o) then Some(b.At(o)) else Lookup(r, o)
    ensures Lookup([a] + r, o) == if a.Covers(o) then Some(a.At(o)) else Lookup(r, o)
  {
    assert ([a, b] + r)[1..] == [b] + r;
    assert ([b] + r)[1..] == r && ([a] + r)[1..] == r;
  }

  /** Dropping a nested neighbour, or joining an adjacent one, keeps the meaning. */
  lemma DropKeeps(q: Queue, o: int)
    requires |q| >= 2 && q[0].off <= q[1].off && q[1].End() <= q[0].End()
    ensures Lookup([q[0]] + q[2..], o) == Lookup(q, o)
  {
    assert q == [q[0], q[1]] + q[2..];
    LookupTwo(q[0], q[1], q[2..], o);
  }

  lemma JoinKeeps(q: Queue, o: int)
    requires |q| >= 2 && q[1].off == q[0].End() < q[1].End() && q[1].End() - q[0].off <= MAX_LEN
    ensures Lookup([Join(q[0], q[1])] + q[2..], o) == Lookup(q, o)
  {
    assert q == [q[0], q[1]] + q[2..];
    LookupTwo(q[0], q[1], q[2..], o);
    LookupTwo(Join(q[0], q[1]), q[1], q[2..], o);
  }

  lemma {:induction false} MergeFrom(q: Queue, failed: set<nat>, k: nat, lo: int)
    requires forall x :: x in q ==> lo <= x.off
    ensures forall x :: x in Merge(q, failed, k) ==> lo <= x.off
    decreases |q|
  {
    if |q| >= 2 {
      var r := q[2..];
      if q[0].End() < q[1].off {
        MergeFrom(q[1..], failed, k, lo);
      } else if q[1].End() <= q[0].End() {
        MergeFrom([q[0]] + r, failed, k, lo);
      } else if k in failed {
        MergeFrom(q[1..], failed, k + 1, lo);
      } else {
        MergeFrom([Join(q[0], q[1])] + r, failed, k + 1, lo);
      }
    }
  }

  lemma {:induction false} RunShrinks(lo: int, lo': int, hi: int, rest: Queue)
    requires RunFits(lo, hi, rest) && lo <= lo'
    ensures RunFits(lo', hi, rest)
    decreases |rest|
  {
    if rest != [] && rest[0].off <= hi {
      RunShrinks(lo, lo', Max(hi, rest[0].End()), rest[1..]);
    }
  }

  /** A join keeps the shape even when its length is cut: the cut end lies before everything that follows. */
  lemma LaminarJoinAny(q: Queue)
    requires |q| >= 2 && Laminar(q) && Short(q) && q[1].off <= q[0].End() < q[1].End()
    ensures Laminar([Join(q[0], q[1])] + q[2..]) && Short([Join(q[0], q[1])] + q[2..])
  {
    assert Before(q[0], q[1]) && q[0] in q && q[1] in q;
    var j := Join(q[0], q[1]);
    var r := [j] + q[2..];
    JoinEnd(q[0], q[1]);
    forall i, k | 0 <= i < k < |r| ensures Before(r[i], r[k]) {
      assert Before(q[0], q[k + 1]) && Before(q[1], q[k + 1]);
      assert i > 0 ==> Before(q[i + 1], q[k + 1]);
    }
    assert forall x :: x in r ==> x == j || x in q;
  }

  lemma JoinEnd(a: Segment, b: Segment)
    requires |a.bytes| <= MAX_LEN && |b.bytes| <= MAX_LEN && b.off == a.End() < b.End()
    ensures var j := Join(a, b); j.off == a.off && |j.bytes| <= MAX_LEN && (j.End() == b.End() || j.End() < b.off)
  {
  }

  /** What is merged behind a segment stays behind it. */
  lemma MergedBehind(q: Queue, failed: set<nat>, k: nat)
    requires |q| >= 2 && Laminar(q) && Laminar(Merge(q[1..], failed, k)) && (q[0].End() <= q[1].off)
    ensures Laminar([q[0]] + Merge(q[1..], failed, k))
  {
    LaminarSorted(q);
    var a, lo := q[0], q[1].off;
    forall x | x in q[1..] ensures lo <= x.off {
      var i :| 0 <= i < |q[1..]| && q[1..][i] == x;
      assert q[1].off <= q[i + 1].off;
    }
    hide Laminar, Merge;
    MergeFrom(q[1..], failed, k, lo);
    LaminarConcat([a], Merge(q[1..], failed, k));
  }

  /** A merge pass keeps the queue laminar, whichever allocations fail and whatever lengths are cut. */
  lemma {:induction false} MergeLaminar(q: Queue, failed: set<nat>, k: nat)
    requires Laminar(q) && Short(q)
    ensures Laminar(Merge(q, failed, k))
    decreases |q|
  {
    if |q| >= 2 {
      assert Before(q[0], q[1]);
      LaminarTail(q);
      assert Short(q[1..]) && Short([q[0]] + q[2..]);
      hide Laminar, Short, Join;
      if q[0].End() < q[1].off {
        MergeLaminar(q[1..], failed, k);
        MergedBehind(q, failed, k);
      } else if q[1].End() <= q[0].End() {
        LaminarDrop(q);
        MergeLaminar([q[0]] + q[2..], failed, k);
      } else if k in failed {
        MergeLaminar(q[1..], failed, k + 1);
        MergedBehind(q, failed, k + 1);
      } else {
        LaminarJoinAny(q);
        MergeLaminar([Join(q[0], q[1])] + q[2..], failed, k + 1);
      }
    }
  }

  /** With runs that fit, a merge pass keeps shape and meaning, whichever allocations fail. */
  lemma {:induction false} MergeKeeps(q: Queue, failed: set<nat>, k: nat)
    requires Laminar(q) && RunsFit(q)
    ensures Laminar(Merge(q, failed, k))
    ensures SameMeaning(Merge(q, failed, k), q)
    decreases |q|
  {
    if |q| >= 2 {
      var a, b, r := q[0], q[1], q[2..];
      assert q[1..][1..] == r && q[1..][0] == b;
      assert Before(a, b);
      if a.End() < b.off || (b.End() > a.End() && k in failed) {
        var k' := if a.End() < b.off then k else k + 1;
        if a.End() >= b.off { RunShrinks(a.off, b.off, b.End(), r); }
        LaminarTail(q);
        MergeKeeps(q[1..], failed, k');
        var m := Merge(q[1..], failed, k');
        LaminarSorted(q);
        MergeFrom(q[1..], failed, k', b.off);
        LaminarConcat([a], m);
        forall o ensures Lookup([a] + m, o) == Lookup(q, o) {
          assert ([a] + m)[1..] == m;
        }
      } else if b.End() <= a.End() {
        LaminarDrop(q);
        assert ([a] + r)[1..] == r;
        MergeKeeps([a] + r, failed, k);
        forall o { DropKeeps(q, o); }
      } else {
        assert RunFits(a.off, b.End(), r);
        LaminarJoin(q);
        assert ([Join(a, b)] + r)[1..] == r;
        MergeKeeps([Join(a, b)] + r, failed, k + 1);
        forall o { JoinKeeps(q, o); }
      }
    }
  }

  /** A merge pass covers no offset that was not covered. */
  lemma {:induction false} MergeInventsNothing(q: Queue, failed: set<nat>, k: nat, o: int)
    requires Sorted(q) && Lookup(q, o).None?
    ensures Lookup(Merge(q, failed, k), o).None?
    decreases |q|
  {
    if |q| >= 2 {
      var a, b, r := q[0], q[1], q[2..];
      assert q == [a, b] + r;
      LookupTwo(a, b, r, o);
      if a.End() < b.off || (b.End() > a.End() && k in failed) {
        var k' := if a.End() < b.off then k else k + 1;
        SortedTail(q);
        MergeInventsNothing(q[1..], failed, k', o);
        assert ([a] + Merge(q[1..], failed, k'))[1..] == Merge(q[1..], failed, k');
      } else if b.End() <= a.End() {
        SortedReplace(q, a);
        MergeInventsNothing([a] + r, failed, k, o);
      } else {
        SortedReplace(q, Join(a, b));
        LookupTwo(Join(a, b), b, r, o);
        MergeInventsNothing([Join(a, b)] + r, failed, k + 1, o);
      }
    }
  }

  lemma CutJoin(a: Segment, b: Segment)
    requires |a.bytes| <= MAX_LEN && |b.bytes| <= MAX_LEN && b.off == a.End() < b.End() && b.End() - a.off > MAX_LEN
    ensures a.Covers(a.End() - 1) && !Join(a, b).Covers(a.End() - 1) && Join(a, b).off == a.off
  {
  }

  /** Segments that start later cover nothing before. */
  lemma CoversNothing(r: Queue, o: int)
    requires forall i :: 0 <= i < |r| ==> o < r[i].off
    ensures Lookup(r, o).None?
  {
    LookupNone(r, o);
    hide Lookup;
  }

  /** Joining a run longer than 16 bits can say loses the byte just before the second segment. */
  lemma TruncationLoses(q: Queue, k: nat)
    requires |q| >= 2 && Laminar(q) && Short(q)
    requires q[1].off <= q[0].End() < q[1].End() && q[1].End() - q[0].off > MAX_LEN
    ensures !SameMeaning(Merge(q, {}, k), q)
  {
    var a, b, r := q[0], q[1], q[2..];
    assert q == [a, b] + r && a in q && b in q;
    assert Before(a, b);
    LaminarSorted(q);
    CutJoin(a, b);
    var j, o := Join(a, b), a.End() - 1;
    forall i | 0 <= i < |r| ensures o < r[i].off { assert b.off <= q[i + 2].off; }
    assert Merge(q, {}, k) == Merge([j] + r, {}, k + 1);
    hide Laminar, Short, Merge, Join, Before, Lookup;
    SortedReplace(q, j);
    hide Sorted;
    CoversNothing(r, o);
    LookupTwo(a, b, r, o);
    LookupTwo(j, b, r, o);
    MergeInventsNothing([j] + r, {}, k + 1, o);
  }

  /** When every allocation succeeds, a merge pass keeps the meaning exactly when all runs fit in 16 bits. */
  lemma {:induction false} MergeMeaning(q: Queue, k: nat)
    requires Laminar(q) && Short(q)
    ensures SameMeaning(Merge(q, {}, k), q) <==> RunsFit(q)
    decreases |q|
  {
    if RunsFit(q) {
      MergeKeeps(q, {}, k);
    } else {
      MergeLoses(q, k);
    }
  }

  lemma LosesBehind(q: Queue, k: nat)
    requires |q| >= 2 && Laminar(q) && q[0].End() < q[1].off
    requires !SameMeaning(Merge(q[1..], {}, k), q[1..])
    ensures !SameMeaning(Merge(q, {}, k), q)
  {
    LaminarSorted(q);
    var a, lo, rest := q[0], q[1].off, q[1..];
    forall i | 0 <= i < |rest| ensures lo <= rest[i].off { assert q[1].off <= q[i + 1].off; }
    var m := Merge(rest, {}, k);
    assert ([a] + m)[1..] == m && Merge(q, {}, k) == [a] + m;
    assert forall x :: x in rest ==> lo <= x.off;
    hide Laminar, Merge, Sorted;
    MergeFrom(rest, {}, k, lo);
    assert forall i :: 0 <= i < |m| ==> m[i] in m;
    var o :| Lookup(m, o) != Lookup(rest, o);
    if a.Covers(o) {
      CoversNothing(m, o);
      CoversNothing(rest, o);
    }
    assert Lookup([a] + m, o) == Lookup(m, o) && Lookup(q, o) == Lookup(rest, o);
  }

  lemma {:induction false} MergeLoses(q: Queue, k: nat)
    requires Laminar(q) && Short(q) && !RunsFit(q)
    ensures !SameMeaning(Merge(q, {}, k), q)
    decreases |q|
  {
    assert q[0] in q;
    if |q| >= 2 {
      var a, b, r := q[0], q[1], q[2..];
      assert q[1..][1..] == r && q[1..][0] == b && b in q;
      assert Before(a, b);
      if a.End() < b.off {
        LaminarTail(q);
        MergeLoses(q[1..], k);
        LosesBehind(q, k);
      } else if b.End() <= a.End() {
        LaminarDrop(q);
        assert ([a] + r)[1..] == r;
        MergeLoses([a] + r, k);
        forall o { DropKeeps(q, o); }
      } else if b.End() - a.off > MAX_LEN {
        TruncationLoses(q, k);
      } else {
        LaminarJoin(q);
        assert ([Join(a, b)] + r)[1..] == r;
        MergeLoses([Join(a, b)] + r, k + 1);
        forall o { JoinKeeps(q, o); }
      }
    }
  }

  // ----- queueing one segment -----

  /** The queue just before the merge pass. */
  function Placed(q: Queue, n: Segment): (r: Queue)
    ensures |r| <= |q| + 1
  {
    SortedInsert(TrimAll(q, n), n)
  }

  /** Queueing `n` triggers no merge pass, or one whose runs fit in a segment record. */
  predicate MergeFits(q: Queue, n: Segment) {
    |Placed(q, n)| <= MERGE_ABOVE || RunsFit(Placed(q, n))
  }

  /** The favour-new law: `n` overrides the queue on its own range unless a queued segment dominates it. */
  ghost predicate Overrides(q: Queue, n: Segment, r: Queue) {
    forall o :: Lookup(r, o) == if n.Covers(o) && !Dominated(q, n) then Some(n.At(o)) else Lookup(q, o)
  }

  lemma EnqueueMeaning(q: Queue, n: Segment, failed: set<nat>)
    requires Laminar(q) && n.bytes != [] && MergeFits(q, n)
    ensures Overrides(q, n, Enqueue(q, n, failed))
    ensures Laminar(Enqueue(q, n, failed))
  {
    NeverDuplicate(q, n);
    InsertLaminar(q, n);
    if |Placed(q, n)| > MERGE_ABOVE { MergeKeeps(Placed(q, n), failed, 0); }
    forall o { InsertMeaning(q, n, o); }
  }

  lemma PlacedShort(q: Queue, n: Segment)
    requires Short(q) && |n.bytes| <= MAX_LEN
    ensures Short(Placed(q, n))
  {
    forall x | x in Placed(q, n) ensures |x.bytes| <= MAX_LEN {
      SortedInsertMember(TrimAll(q, n), n, x);
      if x != n { TrimAllMember(q, n, x); }
    }
  }

  /** Queueing keeps the shape whatever the merge pass does. */
  lemma EnqueueLaminar(q: Queue, n: Segment, failed: set<nat>)
    requires Laminar(q) && Short(q) && n.bytes != [] && |n.bytes| <= MAX_LEN
    ensures Laminar(Enqueue(q, n, failed))
  {
    NeverDuplicate(q, n);
    InsertLaminar(q, n);
    PlacedShort(q, n);
    MergeLaminar(Placed(q, n), failed, 0);
  }

  /** When no allocation fails the law holds exactly when the merge fits, and the shape is kept regardless. */
  lemma EnqueueExact(q: Queue, n: Segment)
    requires Laminar(q) && Short(q) && n.bytes != [] && |n.bytes| <= MAX_LEN
    ensures Overrides(q, n, Enqueue(q, n, {})) <==> MergeFits(q, n)
    ensures Laminar(Enqueue(q, n, {}))
  {
    var u := Placed(q, n);
    NeverDuplicate(q, n);
    assert Enqueue(q, n, {}) == if |u| > MERGE_ABOVE then Merge(u, {}, 0) else u;
    InsertLaminar(q, n);
    assert Laminar(u);
    hide Trim, TrimAll, SortedInsert, Merge, RunsFit, Enqueue, Lookup;
    forall o { InsertMeaning(q, n, o); }
    assert Overrides(q, n, u);
    if |u| > MERGE_ABOVE {
      PlacedShort(q, n);
      MergeMeaning(u, 0);
      LaminarSorted(u);
      MergeSeparates(u, 0);
      assert SameMeaning(Merge(u, {}, 0), u) <==> RunsFit(u);
      SameOverrides(q, n, u, Merge(u, {}, 0));
    }
  }

  lemma SameOverrides(q: Queue, n: Segment, u: Queue, r: Queue)
    requires Overrides(q, n, u)
    ensures Overrides(q, n, r) <==> SameMeaning(r, u)
  {
    hide Lookup, Dominated;
  }
}
