/**
 The intrusive doubly linked lists: a ring of nodes through the list head, changed in place. A ring is
 described by the sequence of its nodes, head first; its elements are the nodes after the head.
 */
module ListRing {
  import opened Sequences

  /** A link. A poisoned link is null. */
  class Node {
    var next: Node?
    var prev: Node?

    constructor ()
      ensures IsRing([this])
    {
      next, prev := this, this;
    }
  }

  ghost predicate Linked(a: Node, b: Node)
    reads a, b
  {
    a.next == b && b.prev == a
  }

  /** Consecutive nodes are linked both ways. */
  ghost predicate Path(s: seq<Node>)
    reads s
  {
    forall i :: 0 < i < |s| ==> Linked(s[i - 1], s[i])
  }

  /** The nodes form a path that closes. */
  ghost predicate IsRing(ring: seq<Node>)
    reads ring
  {
    |ring| > 0 && NoRepeat(ring) && Path(ring) && Linked(ring[|ring| - 1], ring[0])
  }

  /** The ring without its `i`-th node. */
  function Without(ring: seq<Node>, i: nat): seq<Node>
    requires i < |ring|
  {
    ring[..i] + ring[i + 1..]
  }

  // ----- the abstraction is well defined -----

  lemma {:induction false} SamePrefix(a: seq<Node>, b: seq<Node>, i: nat)
    requires IsRing(a) && IsRing(b) && a[0] == b[0]
    requires i < |a| && i < |b|
    ensures a[i] == b[i]
  {
    if i > 0 {
      SamePrefix(a, b, i - 1);
      assert Linked(a[i - 1], a[i]) && Linked(b[i - 1], b[i]);
    }
  }

  lemma NotLonger(a: seq<Node>, b: seq<Node>)
    requires IsRing(a) && IsRing(b) && a[0] == b[0]
    ensures |b| <= |a|
  {
    if |a| < |b| {
      var last := |a| - 1;
      MutualInverse(a, last);
      MutualInverse(b, last);
      SamePrefix(a, b, last);
    }
  }

  /** A head determines its ring, so "the elements of a list" is a function of the heap. */
  lemma RingUnique(a: seq<Node>, b: seq<Node>)
    requires IsRing(a) && IsRing(b) && a[0] == b[0]
    ensures a == b
  {
    NotLonger(a, b);
    NotLonger(b, a);
    forall i: nat | i < |a| ensures a[i] == b[i] {
      SamePrefix(a, b, i);
    }
  }

  /** The successor and predecessor are inverse to each other all around a ring. */
  lemma MutualInverse(ring: seq<Node>, i: nat)
    requires IsRing(ring) && i < |ring|
    ensures ring[i].next in ring && ring[i].prev in ring
    ensures ring[i].next == ring[if i + 1 == |ring| then 0 else i + 1] && ring[i].next.prev == ring[i]
    ensures ring[i].prev == ring[if i == 0 then |ring| - 1 else i - 1] && ring[i].prev.next == ring[i]
  {
    if i > 0 { assert Linked(ring[i - 1], ring[i]); }
    if i < |ring| - 1 { assert Linked(ring[i], ring[i + 1]); }
  }

  // ----- cutting and joining -----

  lemma Join(a: seq<Node>, b: seq<Node>)
    requires Path(a) && Path(b) && a != [] && (b != [] ==> Linked(a[|a| - 1], b[0]))
    ensures Path(a + b)
  {
    var s := a + b;
    forall i | 0 < i < |s| ensures Linked(s[i - 1], s[i]) {
      if i < |a| {
        assert Linked(a[i - 1], a[i]);
      } else if i > |a| {
        assert Linked(b[i - |a| - 1], b[i - |a|]);
      }
    }
  }

  lemma Close(a: seq<Node>, b: seq<Node>)
    requires Path(a) && Path(b) && a != [] && b != []
    requires Linked(a[|a| - 1], b[0]) && Linked(b[|b| - 1], a[0])
    requires NoRepeat(a) && NoRepeat(b) && forall n :: n in b ==> n !in a
    ensures IsRing(a + b)
  {
    Join(a, b);
    forall i, j | 0 <= i < j < |a + b| ensures (a + b)[i] != (a + b)[j] {
      if i < |a| && |a| <= j { assert b[j - |a|] in b && a[i] in a; }
    }
  }

  /** Two paths, the second perhaps empty, that close around. */
  lemma Bridge(a: seq<Node>, b: seq<Node>)
    requires Path(a) && Path(b) && a != [] && NoRepeat(a + b)
    requires Linked(a[|a| - 1], if b == [] then a[0] else b[0])
    requires b != [] ==> Linked(b[|b| - 1], a[0])
    ensures IsRing(a + b)
  {
    Join(a, b);
  }

  lemma Cut(s: seq<Node>, i: nat)
    requires Path(s) && i <= |s|
    ensures Path(s[..i]) && Path(s[i..])
  {
    forall k | 0 < k < |s[i..]| ensures Linked(s[i..][k - 1], s[i..][k]) {
      assert Linked(s[i + k - 1], s[i + k]);
    }
  }

  /** No link inside the path was touched. */
  twostate predicate Kept(s: seq<Node>)
    reads s
  {
    && (forall i :: 0 <= i < |s| - 1 ==> s[i].next == old(s[i].next))
    && (forall i :: 1 <= i < |s| ==> s[i].prev == old(s[i].prev))
  }

  twostate lemma KeptPath(s: seq<Node>)
    requires old(Path(s)) && Kept(s)
    ensures Path(s)
  {
    forall i | 0 < i < |s| ensures Linked(s[i - 1], s[i]) {
      assert old(Linked(s[i - 1], s[i]));
    }
  }

  // ----- operations -----

  /** Turns a node into an empty list. */
  method InitListHead(list: Node)
    modifies list
    ensures IsRing([list])
  {
    list.next := list;
    list.prev := list;
  }

  /** Puts a node between two neighbours. */
  method Insert(entry: Node, prev: Node, next: Node)
    requires entry != prev && entry != next
    modifies entry, prev`next, next`prev
    ensures Linked(prev, entry) && Linked(entry, next)
  {
    next.prev := entry;
    entry.next := next;
    entry.prev := prev;
    prev.next := entry;
  }

  /** Adds a node at the front. */
  method ListAdd(entry: Node, head: Node, ghost ring: seq<Node>)
    requires IsRing(ring) && ring[0] == head && entry !in ring
    modifies entry, head, head.next
    ensures IsRing([head, entry] + ring[1..])
  {
    MutualInverse(ring, 0);
    Cut(ring, 1);
    Insert(entry, head, head.next);
    KeptPath(ring[1..]);
    Join([head, entry], ring[1..]);
    hide Path;
    MovedIn(ring, entry);
  }

  lemma MovedIn(ring: seq<Node>, entry: Node)
    requires NoRepeat(ring) && entry !in ring && ring != []
    ensures NoRepeat([ring[0], entry] + ring[1..]) && NoRepeat(ring + [entry])
  {
  }

  /** Adds a node at the end. */
  method ListAddTail(entry: Node, head: Node, ghost ring: seq<Node>)
    requires IsRing(ring) && ring[0] == head && entry !in ring
    modifies entry, head, head.prev
    ensures IsRing(ring + [entry])
  {
    MutualInverse(ring, 0);
    Insert(entry, head.prev, head);
    KeptPath(ring);
    Join(ring, [entry]);
    hide Path;
    MovedIn(ring, entry);
  }

  lemma StillDistinct(ring: seq<Node>, i: nat)
    requires NoRepeat(ring) && 0 < i < |ring|
    ensures NoRepeat(Without(ring, i)) && ring[i] !in Without(ring, i)
    ensures forall n :: n in Without(ring, i) <==> n in ring && n != ring[i]
  {
    assert ring == ring[..i] + [ring[i]] + ring[i + 1..];
  }

  /** Closes the gap around an element, leaving the element's own links as they are. */
  method Unlink(entry: Node, ghost ring: seq<Node>, ghost i: nat)
    requires IsRing(ring) && 0 < i < |ring| && ring[i] == entry
    modifies entry.prev, entry.next
    ensures IsRing(Without(ring, i)) && entry !in Without(ring, i)
    ensures forall n :: n in Without(ring, i) <==> n in ring && n != entry
    ensures entry.next == old(entry.next) && entry.prev == old(entry.prev)
  {
    MutualInverse(ring, i);
    Cut(ring, i);
    Cut(ring, i + 1);
    StillDistinct(ring, i);
    var next, prev := entry.next, entry.prev;
    next.prev := prev;
    prev.next := next;
    KeptPath(ring[..i]);
    KeptPath(ring[i + 1..]);
    assert ring[..i][0] == ring[0] && ring[..i][i - 1] == prev;
    assert next == if i + 1 == |ring| then ring[0] else ring[i + 1..][0];
    hide Path, NoRepeat;
    Bridge(ring[..i], ring[i + 1..]);
  }

  method ListDel(entry: Node, ghost ring: seq<Node>, ghost i: nat)
    requires IsRing(ring) && 0 < i < |ring| && ring[i] == entry
    modifies entry, entry.prev, entry.next
    ensures IsRing(Without(ring, i)) && entry !in Without(ring, i)
    ensures entry.next == null && entry.prev == null
  {
    Unlink(entry, ring, i);
    entry.next := null;
    entry.prev := null;
  }

  /** Removes an element and leaves it an empty list of its own. */
  method ListDelInit(entry: Node, ghost ring: seq<Node>, ghost i: nat)
    requires IsRing(ring) && 0 < i < |ring| && ring[i] == entry
    modifies entry, entry.prev, entry.next
    ensures IsRing(Without(ring, i)) && entry !in Without(ring, i)
    ensures IsRing([entry])
  {
    Unlink(entry, ring, i);
    InitListHead(entry);
  }

  /** Moves an element to the end of a list: its own list, or another one. */
  method ListMoveTail(entry: Node, head: Node, ghost from: seq<Node>, ghost i: nat, ghost to: seq<Node>)
    requires IsRing(from) && 0 < i < |from| && from[i] == entry
    requires IsRing(to) && to[0] == head
    requires from == to || forall n :: n in from ==> n !in to
    modifies from, to
    ensures from == to ==> IsRing(Without(from, i) + [entry])
    ensures from != to ==> IsRing(Without(from, i)) && IsRing(to + [entry])
  {
    hide Path, NoRepeat, Linked;
    MutualInverse(from, i);
    Unlink(entry, from, i);
    assert from != to ==> forall n :: n in Without(from, i) ==> n in from && n !in to && n != entry;
    ghost var target := if from == to then Without(from, i) else to;
    MutualInverse(target, 0);
    assert head in target && head.prev in target;
    label Unlinked:
    ListAddTail(entry, head, target);
    assert from != to ==>
        forall n :: n in Without(from, i) ==> n.next == old@Unlinked(n.next) && n.prev == old@Unlinked(n.prev);
  }

  predicate ListEmpty(head: Node)
    reads head
  {
    head.next == head
  }

  lemma EmptyExact(ring: seq<Node>)
    requires IsRing(ring)
    ensures ListEmpty(ring[0]) <==> |ring| == 1
  {
    MutualInverse(ring, 0);
  }

  /** Links the elements of a list between two neighbours. */
  method Splice(list: Node, prev: Node, next: Node)
    requires list.next != null && list.prev != null && list !in {list.next, list.prev, prev, next}
    requires {list.next, list.prev} !! {prev, next}
    modifies list.next`prev, list.prev`next, prev`next, next`prev
    ensures Linked(prev, list.next) && Linked(list.prev, next)
  {
    var first, last := list.next, list.prev;
    first.prev := prev;
    prev.next := first;
    last.next := next;
    next.prev := last;
  }

  /** Appends all elements of one list to another and leaves the first empty. */
  method ListSpliceTailInit(list: Node, head: Node, ghost l: seq<Node>, ghost h: seq<Node>)
    requires IsRing(l) && l[0] == list && IsRing(h) && h[0] == head
    requires forall n :: n in l ==> n !in h
    modifies l, h
    ensures IsRing([list]) && IsRing(h + l[1..])
  {
    EmptyExact(l);
    MutualInverse(l, 0);
    MutualInverse(h, 0);
    if !ListEmpty(list) {
      Cut(l, 1);
      assert list in l && list !in h && list !in l[1..];
      assert head in h && head !in l[1..] && head.prev !in l[1..];
      Splice(list, head.prev, head);
      InitListHead(list);
      KeptPath(h);
      KeptPath(l[1..]);
      Close(h, l[1..]);
    } else {
      assert h + l[1..] == h;
    }
  }

  method ListIsLast(list: Node, head: Node, ghost ring: seq<Node>, ghost i: nat) returns (last: bool)
    requires IsRing(ring) && ring[0] == head && i < |ring| && ring[i] == list
    ensures last <==> i == |ring| - 1
  {
    MutualInverse(ring, i);
    last := list.next == head;
  }

  /** The number of elements; the walk ends because it visits each node of the ring once. */
  method ListElems(head: Node, ghost ring: seq<Node>) returns (nb: nat)
    requires IsRing(ring) && ring[0] == head
    ensures nb == |ring| - 1
  {
    nb := 0;
    MutualInverse(ring, 0);
    var node := head.next;
    while node != head
      invariant nb < |ring| && node == ring[if nb + 1 == |ring| then 0 else nb + 1]
      decreases |ring| - nb
    {
      nb := nb + 1;
      MutualInverse(ring, nb);
      node := node.next;
    }
  }
}
