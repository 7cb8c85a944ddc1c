/**
 A table of hash chains, as the trackers use it: buckets of singly linked records, new records at the head,
 ageing by unlinking.  Its meaning is a map from key to record.
 */
module HashChains {
  import opened Chains
  import opened Options

  /** The map without the records that `stale` picks. */
  function Kept<K, V>(m: map<K, V>, stale: V -> bool): map<K, V> {
    map k | k in m && !stale(m[k]) :: m[k]
  }

  /** The records of one bucket: each is the record of its key, no key twice. */
  ghost predicate ChainOf<K(!new), V(!new)>(chain: seq<(K, V)>, m: map<K, V>) {
    && (forall i :: 0 <= i < |chain| ==> chain[i].0 in m && m[chain[i].0] == chain[i].1)
    && (forall i, j :: 0 <= i < j < |chain| ==> chain[i].0 != chain[j].0)
  }

  function OnRecord<K, V>(stale: V -> bool): ((K, V)) -> bool { (e: (K, V)) => stale(e.1) }

  lemma {:induction false} UnlinkedChain<K(!new), V(!new)>(chain: seq<(K, V)>, m: map<K, V>, stale: V -> bool)
    requires ChainOf(chain, m)
    ensures ChainOf(Unlinked(chain, OnRecord(stale)), Kept(m, stale))
  {
    if chain != [] {
      var rest := chain[1..];
      UnlinkedChain(rest, m, stale);
      UnlinkedMembers(rest, OnRecord(stale));
      var u := Unlinked(rest, OnRecord(stale));
      forall j | 0 <= j < |u| ensures u[j].0 != chain[0].0 {
        assert u[j] in rest;
      }
    }
  }

  lemma ChainElsewhere<K(!new), V(!new)>(chain: seq<(K, V)>, m: map<K, V>, k: K, v: V)
    requires ChainOf(chain, m) && forall i :: 0 <= i < |chain| ==> chain[i].0 != k
    ensures ChainOf(chain, m[k := v])
  {
  }

  lemma ChainHere<K(!new), V(!new)>(chain: seq<(K, V)>, m: map<K, V>, k: K, v: V, i: nat)
    requires ChainOf(chain, m) && i < |chain| && chain[i].0 == k
    ensures ChainOf(chain[i := (k, v)], m[k := v])
  {
  }

  class Table<K(==, !new), V(!new)> {
    const hash: K -> nat
    const size: nat
    var chains: seq<seq<(K, V)>>
    ghost var contents: map<K, V>

    ghost predicate Valid()
      reads this
    {
      && size > 0 && |chains| == size
      && (forall b :: 0 <= b < size ==> ChainOf(chains[b], contents))
      && (forall b, i :: 0 <= b < size && 0 <= i < |chains[b]| ==> hash(chains[b][i].0) % size == b)
      && (forall k :: k in contents ==> (k, contents[k]) in chains[hash(k) % size])
    }

    constructor (hash: K -> nat, size: nat)
      requires size > 0
      ensures Valid() && contents == map[] && this.hash == hash
    {
      this.hash, this.size := hash, size;
      chains := seq(size, _ => []);
      contents := map[];
    }

    /** The walk along one bucket: the position of the key, or the length of the chain. */
    method Find(k: K) returns (i: nat)
      requires Valid()
      ensures i <= |chains[hash(k) % size]|
      ensures i < |chains[hash(k) % size]| <==> k in contents
      ensures k in contents ==> chains[hash(k) % size][i] == (k, contents[k])
    {
      var chain := chains[hash(k) % size];
      i := 0;
      while i < |chain| && chain[i].0 != k
        invariant i <= |chain| && forall j :: 0 <= j < i ==> chain[j].0 != k
      {
        i := i + 1;
      }
      assert k in contents ==> (k, contents[k]) in chain;
    }

    /** Look up a record, or insert a new one at the head of its chain, if there is memory for it. */
    method GetOrCreate(k: K, initial: V, memory: bool) returns (found: Option<V>)
      requires Valid()
      modifies this
      ensures Valid()
      ensures found == if k in old(contents) then Some(old(contents)[k]) else if memory then Some(initial) else None
      ensures contents == if found.Some? then old(contents)[k := found.value] else old(contents)
    {
      var b := hash(k) % size;
      var i := Find(k);
      if i < |chains[b]| {
        found := Some(chains[b][i].1);
        assert contents == contents[k := found.value];
      } else if !memory {
        found := None;
      } else {
        found := Some(initial);
        Insert(k, initial);
      }
    }

    /** A new record at the head of its chain. */
    method Insert(k: K, v: V)
      requires Valid() && k !in contents
      modifies this
      ensures Valid() && contents == old(contents)[k := v]
    {
      var b := hash(k) % size;
      ghost var m, c := contents, chains;
      chains := chains[b := [(k, v)] + chains[b]];
      contents := contents[k := v];
      InsertedValid(c, m, k, v);
    }

    lemma InsertedValid(c: seq<seq<(K, V)>>, m: map<K, V>, k: K, v: V)
      requires size > 0 && |c| == size && contents == m[k := v] && k !in m
      requires chains == c[hash(k) % size := [(k, v)] + c[hash(k) % size]]
      requires forall b :: 0 <= b < size ==> ChainOf(c[b], m)
      requires forall b, i :: 0 <= b < size && 0 <= i < |c[b]| ==> hash(c[b][i].0) % size == b
      requires forall x :: x in m ==> (x, m[x]) in c[hash(x) % size]
      ensures Valid()
    {
      var b := hash(k) % size;
      forall a | 0 <= a < size ensures ChainOf(chains[a], contents) {
        ChainElsewhere(c[a], m, k, v);
        if a == b { assert chains[b][0] == (k, v); }
      }
      hide ChainOf;
      forall a, i | 0 <= a < size && 0 <= i < |chains[a]| ensures hash(chains[a][i].0) % size == a {
        if a == b && i > 0 { assert chains[a][i] == c[a][i - 1]; }
      }
      forall x | x in contents ensures (x, contents[x]) in chains[hash(x) % size] {
        var a := hash(x) % size;
        if x == k {
          assert chains[b][0] == (x, contents[x]);
        } else {
          var j :| 0 <= j < |c[a]| && c[a][j] == (x, m[x]);
          assert chains[a][if a == b then j + 1 else j] == c[a][j];
        }
      }
    }

    /** Update the record of a key in place. */
    method Store(k: K, v: V)
      requires Valid() && k in contents
      modifies this
      ensures Valid() && contents == old(contents)[k := v]
    {
      var b := hash(k) % size;
      var i := Find(k);
      ghost var m, c := contents, chains;
      chains := chains[b := chains[b][i := (k, v)]];
      contents := contents[k := v];
      StoredValid(c, m, k, v, i);
    }

    lemma StoredValid(c: seq<seq<(K, V)>>, m: map<K, V>, k: K, v: V, i: nat)
      requires size > 0 && |c| == size && contents == m[k := v] && i < |c[hash(k) % size]|
      requires c[hash(k) % size][i].0 == k
      requires chains == c[hash(k) % size := c[hash(k) % size][i := (k, v)]]
      requires forall b :: 0 <= b < size ==> ChainOf(c[b], m)
      requires forall b, i :: 0 <= b < size && 0 <= i < |c[b]| ==> hash(c[b][i].0) % size == b
      requires forall x :: x in m ==> (x, m[x]) in c[hash(x) % size]
      ensures Valid()
    {
      var b := hash(k) % size;
      hide ChainOf;
      forall a | 0 <= a < size ensures ChainOf(chains[a], contents) {
        if a == b { ChainHere(c[b], m, k, v, i); } else { ChainElsewhere(c[a], m, k, v); }
      }
      forall x | x in contents ensures (x, contents[x]) in chains[hash(x) % size] {
        var a := hash(x) % size;
        if x == k {
          assert chains[b][i] == (x, contents[x]);
        } else {
          var j :| 0 <= j < |c[a]| && c[a][j] == (x, m[x]);
          assert chains[a][j] == c[a][j];
        }
      }
    }

    /** Walk one chain and unlink its stale records. */
    method AgeChain(b: nat, stale: V -> bool)
      requires b < size == |chains|
      modifies this`chains
      ensures chains == old(chains)[b := Unlinked(old(chains)[b], OnRecord(stale))]
    {
      ghost var c := chains;
      var i := 0;
      UnlinkEnds(chains[b], OnRecord(stale));
      hide Unlinked;
      while i < |chains[b]|
        invariant |chains| == size && i <= |chains[b]| && chains == c[b := chains[b]]
        invariant Unlinked(c[b], OnRecord(stale)) == chains[b][..i] + Unlinked(chains[b][i..], OnRecord(stale))
        decreases |chains[b]| - i
      {
        UnlinkStep(chains[b], i, OnRecord(stale));
        if stale(chains[b][i].1) {
          chains := chains[b := chains[b][..i] + chains[b][i + 1..]];
        } else {
          i := i + 1;
        }
      }
      UnlinkEnds(chains[b], OnRecord(stale));
    }

    /** Walk every chain and unlink the stale records. */
    method AgeOut(stale: V -> bool)
      requires Valid()
      modifies this
      ensures Valid() && contents == Kept(old(contents), stale)
    {
      ghost var m, c := contents, chains;
      for b := 0 to size
        invariant |chains| == size && contents == m
        invariant forall a :: 0 <= a < b ==> chains[a] == Unlinked(c[a], OnRecord(stale))
        invariant forall a :: b <= a < size ==> chains[a] == c[a]
      {
        AgeChain(b, stale);
      }
      contents := Kept(m, stale);
      AgedValid(c, m, stale);
    }

    lemma AgedValid(c: seq<seq<(K, V)>>, m: map<K, V>, stale: V -> bool)
      requires size > 0 && |c| == size && |chains| == size && contents == Kept(m, stale)
      requires forall b :: 0 <= b < size ==> ChainOf(c[b], m)
      requires forall b, i :: 0 <= b < size && 0 <= i < |c[b]| ==> hash(c[b][i].0) % size == b
      requires forall k :: k in m ==> (k, m[k]) in c[hash(k) % size]
      requires forall b :: 0 <= b < size ==> chains[b] == Unlinked(c[b], OnRecord(stale))
      ensures Valid()
    {
      forall b | 0 <= b < size ensures ChainOf(chains[b], contents) {
        UnlinkedChain(c[b], m, stale);
      }
      forall b, i | 0 <= b < size && 0 <= i < |chains[b]| ensures hash(chains[b][i].0) % size == b {
        UnlinkedMembers(c[b], OnRecord(stale));
        assert chains[b][i] in c[b];
      }
      forall k | k in contents ensures (k, contents[k]) in chains[hash(k) % size] {
        UnlinkedMembers(c[hash(k) % size], OnRecord(stale));
      }
    }
  }
}
