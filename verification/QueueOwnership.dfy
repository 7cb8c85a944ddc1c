/**
 The start-up check of the lcore configuration: which lcore polls which port queue. An accepted configuration
 gives every queue of a port exactly one owner.
 */
module QueueOwnership {
  import opened Sequences

  const MAX_QUEUES := 16
  const MAX_RTE_PORTS := 64
  const INVALID := 4096

  datatype Kind = Rx | Tx

  /** One port as one lcore serves it. */
  datatype PortQueues = PortQueues(pid: nat, rxqs: seq<nat>, txqs: seq<nat>) {
    function Queues(kind: Kind): seq<nat> { if kind.Rx? then rxqs else txqs }
  }

  datatype Lcore = Lcore(id: nat, ports: seq<PortQueues>)

  datatype Claim = Claim(pid: nat, qid: nat)

  datatype Verdict =
    | Accepted | RepeatedRx | RepeatedTx | Discontinuous | PortNotEnough | IncorrectTxQueueNum | NoSlaveLcores

  /** The bounds the configuration's fixed arrays impose. */
  predicate WellFormed(confs: seq<Lcore>) {
    forall i, j :: 0 <= i < |confs| && 0 <= j < |confs[i].ports| ==> PortWellFormed(confs[i].ports[j])
  }

  predicate PortWellFormed(p: PortQueues) {
    && p.pid < MAX_RTE_PORTS
    && (forall k :: 0 <= k < |p.rxqs| ==> p.rxqs[k] < MAX_QUEUES)
    && (forall k :: 0 <= k < |p.txqs| ==> p.txqs[k] < MAX_QUEUES)
  }

  // ----- claims -----

  /** The entries in use end at the first one without ports. */
  function ActiveFrom(confs: seq<Lcore>, i: nat): (n: nat)
    requires i <= |confs|
    ensures i <= n <= |confs|
    decreases |confs| - i
  {
    if i < |confs| && confs[i].ports != [] then ActiveFrom(confs, i + 1) else i
  }

  function Active(confs: seq<Lcore>): seq<Lcore> { confs[..ActiveFrom(confs, 0)] }

  /** The entries the check looks at: the first one, and the others up to the number of lcores. */
  function CheckedCount(lcores: nat, confs: seq<Lcore>): nat {
    var limit := if lcores < 1 then 1 else lcores;
    if ActiveFrom(confs, 0) < limit then ActiveFrom(confs, 0) else limit
  }

  function Checked(lcores: nat, confs: seq<Lcore>): seq<Lcore> { confs[..CheckedCount(lcores, confs)] }

  function ClaimsOf(pid: nat, ids: seq<nat>): seq<Claim> { seq(|ids|, k requires 0 <= k < |ids| => Claim(pid, ids[k])) }

  function LcoreClaims(ports: seq<PortQueues>, kind: Kind): seq<Claim> {
    if ports == [] then []
    else
      var last := ports[|ports| - 1];
      LcoreClaims(ports[..|ports| - 1], kind) + ClaimsOf(last.pid, last.Queues(kind))
  }

  /** Every queue claimed, lcore by lcore. */
  function Claims(confs: seq<Lcore>, kind: Kind): seq<Claim> {
    if confs == [] then []
    else Claims(confs[..|confs| - 1], kind) + LcoreClaims(confs[|confs| - 1].ports, kind)
  }

  /** The queue ids claimed on one port. */
  function Ids(claims: seq<Claim>, pid: nat): seq<nat> {
    if claims == [] then []
    else
      var rest := Ids(claims[..|claims| - 1], pid);
      var last := claims[|claims| - 1];
      if last.pid == pid then rest + [last.qid] else rest
  }

  function PortIds(confs: seq<Lcore>, kind: Kind, pid: nat): seq<nat> { Ids(Claims(Active(confs), kind), pid) }

  /** The ids are exactly 0 .. n-1, each once. */
  ghost predicate Permutation(ids: seq<nat>) {
    NoRepeat(ids) && forall q: nat :: q in ids <==> q < |ids|
  }

  /** What the continuity test sees: the number of queues, kept in eight bits, and the marks of the checked lcores. */
  predicate Continuous(lcores: nat, confs: seq<Lcore>, pid: nat, kind: Kind) {
    var marked := Claims(Checked(lcores, confs), kind);
    var n := |PortIds(confs, kind, pid)| % 256;
    n <= MAX_QUEUES && forall q: nat :: q < n ==> Claim(pid, q) in marked
  }

  function Pids(ports: seq<PortQueues>): seq<nat> { seq(|ports|, j requires 0 <= j < |ports| => ports[j].pid) }

  /** The ports the lcores serve. */
  function PortSet(confs: seq<Lcore>): set<nat> {
    if confs == [] then {} else PortSet(confs[..|confs| - 1]) + Elements(Pids(confs[|confs| - 1].ports))
  }

  function Counted(lcores: nat, confs: seq<Lcore>): seq<Lcore> {
    confs[..if ActiveFrom(confs, 0) < lcores then ActiveFrom(confs, 0) else lcores]
  }

  predicate Enough(lcores: nat, confs: seq<Lcore>, nports: nat) {
    forall i :: 0 <= i < |Checked(lcores, confs)| ==> |Checked(lcores, confs)[i].ports| <= nports
  }

  predicate UniqueClaims(lcores: nat, confs: seq<Lcore>, kind: Kind) { NoRepeat(Claims(Checked(lcores, confs), kind)) }

  predicate AllContinuous(lcores: nat, confs: seq<Lcore>, nports: nat) {
    forall pid: nat :: pid < nports ==> Continuous(lcores, confs, pid, Rx) && Continuous(lcores, confs, pid, Tx)
  }

  predicate Covered(l: Lcore, ports: nat) {
    |l.ports| == ports && forall j :: 0 <= j < |l.ports| ==> |l.ports[j].txqs| >= 1
  }

  predicate AllCovered(lcores: nat, confs: seq<Lcore>) {
    forall i :: 0 <= i < |Checked(lcores, confs)| ==>
      Covered(Checked(lcores, confs)[i], |PortSet(Counted(lcores, confs))|)
  }

  predicate Accepts(lcores: nat, confs: seq<Lcore>, nports: nat) {
    && Checked(lcores, confs) != []
    && Enough(lcores, confs, nports)
    && UniqueClaims(lcores, confs, Rx) && UniqueClaims(lcores, confs, Tx)
    && AllContinuous(lcores, confs, nports)
    && AllCovered(lcores, confs)
  }

  // ----- sequences and counting -----

  lemma {:induction false} IdsConcat(a: seq<Claim>, b: seq<Claim>, pid: nat)
    ensures Ids(a + b, pid) == Ids(a, pid) + Ids(b, pid)
  {
    if b == [] {
      assert a + b == a;
    } else {
      IdsConcat(a, b[..|b| - 1], pid);
      assert (a + b)[..|a + b| - 1] == a + b[..|b| - 1];
    }
  }

  lemma {:induction false} IdsOfPort(at: nat, ids: seq<nat>, pid: nat)
    ensures Ids(ClaimsOf(at, ids), pid) == if at == pid then ids else []
  {
    if ids != [] {
      var front := ids[..|ids| - 1];
      IdsOfPort(at, front, pid);
      assert ClaimsOf(at, ids)[..|ids| - 1] == ClaimsOf(at, front);
      assert ids == front + [ids[|ids| - 1]];
    }
  }

  lemma {:induction false} IdsMembers(claims: seq<Claim>, pid: nat)
    ensures forall q: nat :: q in Ids(claims, pid) <==> Claim(pid, q) in claims
    ensures NoRepeat(claims) ==> NoRepeat(Ids(claims, pid))
  {
    if claims != [] {
      var front := claims[..|claims| - 1];
      IdsMembers(front, pid);
      assert claims == front + [claims[|claims| - 1]];
    }
  }

  lemma {:induction false} ClaimsAppend(confs: seq<Lcore>, n: nat, kind: Kind)
    requires n < |confs|
    ensures Claims(confs[..n + 1], kind) == Claims(confs[..n], kind) + LcoreClaims(confs[n].ports, kind)
  {
    assert confs[..n + 1][..n] == confs[..n];
  }

  /** Claims of a prefix of the lcores are a prefix of all claims. */
  lemma {:induction false} ClaimsPrefix(confs: seq<Lcore>, m: nat, n: nat, kind: Kind)
    requires m <= n <= |confs|
    ensures Claims(confs[..m], kind) <= Claims(confs[..n], kind)
    decreases n
  {
    if m < n {
      ClaimsPrefix(confs, m, n - 1, kind);
      ClaimsAppend(confs, n - 1, kind);
    }
  }

  function Below(n: nat): (r: set<nat>)
    ensures |r| == n && forall q: nat :: q in r <==> q < n
  {
    if n == 0 then {} else Below(n - 1) + {n - 1}
  }

  /** Pigeonhole: distinct ids covering 0 .. n-1 are at least n, and if there are n, they are just these. */
  lemma Pigeonhole(ids: seq<nat>, n: nat)
    requires NoRepeat(ids) && forall q: nat :: q < n ==> q in ids
    ensures n <= |ids|
    ensures n == |ids| ==> Permutation(ids)
  {
    ElementCount(ids);
    SubsetSize(Below(n), Elements(ids));
    if n == |ids| {
      forall q: nat ensures q in ids <==> q < n {
        assert q in Elements(ids) <==> q in Below(n);
      }
    }
  }

  lemma DistinctBounded(ids: seq<nat>, n: nat)
    requires NoRepeat(ids) && forall q: nat :: q in ids ==> q < n
    ensures |ids| <= n
  {
    ElementCount(ids);
    SubsetSize(Elements(ids), Below(n));
  }

  // ----- ownership -----

  lemma {:induction false} LcoreClaimsBounded(ports: seq<PortQueues>, kind: Kind)
    requires forall j :: 0 <= j < |ports| ==> PortWellFormed(ports[j])
    ensures forall c :: c in LcoreClaims(ports, kind) ==> c.pid < MAX_RTE_PORTS && c.qid < MAX_QUEUES
  {
    if ports != [] { LcoreClaimsBounded(ports[..|ports| - 1], kind); }
  }

  lemma {:induction false} ClaimsBounded(confs: seq<Lcore>, kind: Kind)
    requires WellFormed(confs)
    ensures forall c :: c in Claims(confs, kind) ==> c.pid < MAX_RTE_PORTS && c.qid < MAX_QUEUES
  {
    if confs != [] {
      ClaimsBounded(confs[..|confs| - 1], kind);
      LcoreClaimsBounded(confs[|confs| - 1].ports, kind);
    }
  }

  lemma CheckedIds(lcores: nat, confs: seq<Lcore>, pid: nat, kind: Kind)
    requires UniqueClaims(lcores, confs, kind)
    ensures var ids := Ids(Claims(Checked(lcores, confs), kind), pid);
            && NoRepeat(ids) && ids <= PortIds(confs, kind, pid)
            && forall q: nat :: q in ids <==> Claim(pid, q) in Claims(Checked(lcores, confs), kind)
  {
    var part, all := Claims(Checked(lcores, confs), kind), Claims(Active(confs), kind);
    ClaimsPrefix(confs, CheckedCount(lcores, confs), ActiveFrom(confs, 0), kind);
    IdsMembers(part, pid);
    IdsConcat(part, all[|part|..], pid);
    assert all == part + all[|part|..];
  }

  /**
   In an accepted configuration the queue ids of a port, over all lcores and not only the checked ones, are a
   permutation of 0 .. n-1 if and only if their number survived the eight bits it is counted in.
   */
  lemma OwnershipExact(lcores: nat, confs: seq<Lcore>, nports: nat, pid: nat, kind: Kind)
    requires WellFormed(confs) && Accepts(lcores, confs, nports) && pid < nports
    ensures Permutation(PortIds(confs, kind, pid)) <==> |PortIds(confs, kind, pid)| < 256
  {
    hide Claims, Ids, Enough, AllCovered, Permutation;
    var ids := PortIds(confs, kind, pid);
    var part := Ids(Claims(Checked(lcores, confs), kind), pid);
    CheckedIds(lcores, confs, pid, kind);
    if |ids| < 256 {
      assert Continuous(lcores, confs, pid, kind);
      Pigeonhole(part, |ids|);
      assert part == ids;
    } else {
      TooManyIds(confs, kind, pid);
    }
  }

  lemma TooManyIds(confs: seq<Lcore>, kind: Kind, pid: nat)
    requires WellFormed(confs) && |PortIds(confs, kind, pid)| > MAX_QUEUES
    ensures !Permutation(PortIds(confs, kind, pid))
  {
    ClaimsBounded(Active(confs), kind);
    IdsMembers(Claims(Active(confs), kind), pid);
    if Permutation(PortIds(confs, kind, pid)) { DistinctBounded(PortIds(confs, kind, pid), MAX_QUEUES); }
  }

  /** With no more configured lcores than the check counts, every accepted configuration has unique owners. */
  lemma OwnershipWhenAllChecked(lcores: nat, confs: seq<Lcore>, nports: nat, pid: nat, kind: Kind)
    requires WellFormed(confs) && Accepts(lcores, confs, nports) && pid < nports
    requires ActiveFrom(confs, 0) <= lcores
    ensures Permutation(PortIds(confs, kind, pid)) && |PortIds(confs, kind, pid)| <= 16
  {
    hide Claims, Ids, Enough, AllCovered, AllContinuous;
    CheckedIds(lcores, confs, pid, kind);
    var ids := PortIds(confs, kind, pid);
    ClaimsBounded(Active(confs), kind);
    IdsMembers(Claims(Active(confs), kind), pid);
    DistinctBounded(ids, MAX_QUEUES);
    OwnershipExact(lcores, confs, nports, pid, kind);
  }

  // ----- an accepted repetition -----

  function AllQueues(): seq<nat> { seq(MAX_QUEUES, k requires 0 <= k < MAX_QUEUES => k) }

  /** The first lcore and `n` more all claim the sixteen receive queues of port 0; the first also transmits. */
  function Greedy(n: nat): (confs: seq<Lcore>)
    ensures |confs| == n + 1
    ensures confs[0] == Lcore(0, [PortQueues(0, AllQueues(), [0])])
    ensures forall i :: 1 <= i <= n ==> confs[i] == Lcore(1, [PortQueues(0, AllQueues(), [])])
  {
    if n == 0 then [Lcore(0, [PortQueues(0, AllQueues(), [0])])]
    else Greedy(n - 1) + [Lcore(1, [PortQueues(0, AllQueues(), [])])]
  }

  lemma OnePort(l: Lcore, kind: Kind)
    requires |l.ports| == 1 && l.ports[0].pid == 0
    ensures LcoreClaims(l.ports, kind) == ClaimsOf(0, l.ports[0].Queues(kind))
    ensures Ids(LcoreClaims(l.ports, kind), 0) == l.ports[0].Queues(kind)
  {
    assert l.ports[..0] == [];
    assert LcoreClaims(l.ports, kind) == [] + ClaimsOf(0, l.ports[0].Queues(kind));
    IdsOfPort(0, l.ports[0].Queues(kind), 0);
  }

  lemma OneLcore(confs: seq<Lcore>, kind: Kind)
    requires |confs| == 1
    ensures Claims(confs, kind) == LcoreClaims(confs[0].ports, kind)
    ensures PortSet(confs) == Elements(Pids(confs[0].ports))
  {
    assert confs[..0] == [];
    assert [] + LcoreClaims(confs[0].ports, kind) == LcoreClaims(confs[0].ports, kind);
  }

  lemma {:induction false} GreedyIds(n: nat, kind: Kind)
    ensures |Ids(Claims(Greedy(n), kind), 0)| == if kind.Rx? then MAX_QUEUES * (n + 1) else 1
  {
    hide Ids, LcoreClaims;
    if n == 0 {
      OneLcore(Greedy(0), kind);
      OnePort(Greedy(0)[0], kind);
    } else {
      GreedyIds(n - 1, kind);
      var front, last := Greedy(n - 1), Greedy(n)[n];
      assert Greedy(n)[..n] == front;
      OnePort(last, kind);
      IdsConcat(Claims(front, kind), LcoreClaims(last.ports, kind), 0);
    }
  }

  lemma {:induction false} AllActive(confs: seq<Lcore>, i: nat)
    requires i <= |confs| && forall k :: 0 <= k < |confs| ==> confs[k].ports != []
    ensures ActiveFrom(confs, i) == |confs|
    decreases |confs| - i
  {
    if i < |confs| { AllActive(confs, i + 1); }
  }

  lemma GreedyFirst()
    ensures Claims(Greedy(0), Rx) == ClaimsOf(0, AllQueues()) && Claims(Greedy(0), Tx) == ClaimsOf(0, [0])
    ensures |PortSet(Greedy(0))| == 1
  {
    hide Claims, LcoreClaims, PortSet;
    OneLcore(Greedy(0), Rx);
    OneLcore(Greedy(0), Tx);
    OnePort(Greedy(0)[0], Rx);
    OnePort(Greedy(0)[0], Tx);
    assert Pids(Greedy(0)[0].ports) == [0];
    assert Elements(Pids(Greedy(0)[0].ports)) == {0};
  }

  lemma GreedyViews()
    ensures Active(Greedy(16)) == Greedy(16)
    ensures Checked(1, Greedy(16)) == Greedy(0) && Counted(1, Greedy(16)) == Greedy(0)
  {
    hide Greedy;
    AllActive(Greedy(16), 0);
    assert Greedy(16)[..1] == Greedy(0);
  }

  lemma FirstClaims(q: nat)
    requires q < MAX_QUEUES
    ensures Claim(0, q) in ClaimsOf(0, AllQueues()) && Claim(0, 0) in ClaimsOf(0, [0])
  {
    assert ClaimsOf(0, AllQueues())[q] == Claim(0, q);
    assert ClaimsOf(0, [0])[0] == Claim(0, 0);
  }

  /**
   The eight-bit count does let a repetition through when more lcores are configured than counted: seventeen
   lcores each claiming all sixteen receive queues of port 0 are accepted if only the first is checked.
   */
  lemma WrappedCountAccepted()
    ensures WellFormed(Greedy(16)) && Accepts(1, Greedy(16), 1)
    ensures |PortIds(Greedy(16), Rx, 0)| == 272 && !Permutation(PortIds(Greedy(16), Rx, 0))
  {
    hide Claims, Ids, PortSet, ActiveFrom, Permutation, Greedy, Active, Checked, Counted;
    var confs := Greedy(16);
    GreedyViews();
    GreedyFirst();
    GreedyIds(16, Rx);
    GreedyIds(16, Tx);
    forall q: nat | q < MAX_QUEUES ensures Claim(0, q) in Claims(Greedy(0), Rx) {
      FirstClaims(q);
    }
    FirstClaims(0);
    assert Continuous(1, confs, 0, Rx) && Continuous(1, confs, 0, Tx);
    assert Covered(Greedy(0)[0], 1);
    TooManyIds(confs, Rx, 0);
  }

  // ----- coverage -----

  lemma {:induction false} PortsIncluded(confs: seq<Lcore>, i: nat)
    requires i < |confs|
    ensures Elements(Pids(confs[i].ports)) <= PortSet(confs)
  {
    if i < |confs| - 1 { PortsIncluded(confs[..|confs| - 1], i); }
  }

  /** An lcore is checked if and only if all up to it list ports, and it is the first or below the number of lcores. */
  lemma CheckedExact(lcores: nat, confs: seq<Lcore>, i: nat)
    ensures i < |Checked(lcores, confs)| <==>
            i < |confs| && (forall j :: 0 <= j <= i ==> confs[j].ports != []) && (i == 0 || i < lcores)
    ensures i < |Checked(lcores, confs)| ==> Checked(lcores, confs)[i] == confs[i]
  {
    ActiveExact(confs, 0, i);
  }

  lemma {:induction false} ActiveExact(confs: seq<Lcore>, from: nat, i: nat)
    requires from <= i && from <= |confs|
    ensures i < ActiveFrom(confs, from) <==> i < |confs| && forall j :: from <= j <= i ==> confs[j].ports != []
    decreases |confs| - from
  {
    if from < |confs| && confs[from].ports != [] && from < i { ActiveExact(confs, from + 1, i); }
  }

  /**
   In an accepted configuration some lcore is counted, no checked one lists more ports than there are, and every port
   has, in eight bits, at most sixteen queues, each below that number claimed by a checked lcore.
   */
  lemma AcceptedMeans(lcores: nat, confs: seq<Lcore>, nports: nat, pid: nat, kind: Kind, q: nat)
    requires Accepts(lcores, confs, nports) && pid < nports
    ensures lcores >= 1
    ensures forall i :: 0 <= i < |Checked(lcores, confs)| ==> |Checked(lcores, confs)[i].ports| <= nports
    ensures |PortIds(confs, kind, pid)| % 256 <= 16
    ensures q < |PortIds(confs, kind, pid)| % 256 ==> Claim(pid, q) in Claims(Checked(lcores, confs), kind)
  {
    hide Claims, UniqueClaims, PortSet, PortIds;
    assert Continuous(lcores, confs, pid, kind);
    FirstActive(confs);
    NoPorts();
    assert Counted(0, confs) == [];
    assert Covered(Checked(lcores, confs)[0], |PortSet(Counted(lcores, confs))|);
  }

  /**
   What the transmit-queue test is for: in an accepted configuration a checked lcore has a transmit queue on
   every configured port if and only if it lists no port twice.
   */
  lemma CoverageExact(lcores: nat, confs: seq<Lcore>, nports: nat, i: nat)
    requires Accepts(lcores, confs, nports) && i < |Checked(lcores, confs)|
    ensures var l := Checked(lcores, confs)[i];
            && (forall j :: 0 <= j < |l.ports| ==> l.ports[j].txqs != [])
            && (Elements(Pids(l.ports)) == PortSet(Checked(lcores, confs)) <==> NoRepeat(Pids(l.ports)))
  {
    hide Claims, UniqueClaims, AllContinuous, Enough, PortSet;
    var l := Checked(lcores, confs)[i];
    assert Covered(l, |PortSet(Counted(lcores, confs))|);
    FirstActive(confs);
    NoPorts();
    assert Counted(0, confs) == [];
    assert lcores >= 1;
    assert Counted(lcores, confs) == Checked(lcores, confs);
    PortsIncluded(Checked(lcores, confs), i);
    ElementCount(Pids(l.ports));
    SubsetSize(Elements(Pids(l.ports)), PortSet(Checked(lcores, confs)));
  }

  lemma NoPorts()
    ensures PortSet([]) == {}
  {
  }

  lemma FirstActive(confs: seq<Lcore>)
    ensures ActiveFrom(confs, 0) > 0 ==> confs[0].ports != []
  {
  }

  // ----- owners -----

  /** The lcore written last into a queue's map entry. */
  function LastOwner(confs: seq<Lcore>, kind: Kind, c: Claim): nat {
    if confs == [] then INVALID
    else
      var last := confs[|confs| - 1];
      if c in LcoreClaims(last.ports, kind) then last.id else LastOwner(confs[..|confs| - 1], kind, c)
  }

  lemma {:induction false} Unclaimed(confs: seq<Lcore>, kind: Kind, c: Claim)
    ensures c in Claims(confs, kind) <==> exists i :: 0 <= i < |confs| && c in LcoreClaims(confs[i].ports, kind)
    ensures c !in Claims(confs, kind) ==> LastOwner(confs, kind, c) == INVALID
  {
    if confs != [] {
      hide LcoreClaims;
      var front, last := confs[..|confs| - 1], confs[|confs| - 1];
      Unclaimed(front, kind, c);
      assert Claims(confs, kind) == Claims(front, kind) + LcoreClaims(last.ports, kind);
      assert forall i :: 0 <= i < |front| ==> front[i] == confs[i];
      assert forall i :: 0 <= i < |confs| ==> i < |front| || confs[i] == last;
    }
  }

  /** The entry of a claim is the lcore that claims it last, or 4096 if none does. */
  lemma {:induction false} LastClaimant(confs: seq<Lcore>, kind: Kind, c: Claim, i: nat)
    requires i <= |confs| && forall k :: i <= k < |confs| ==> c !in LcoreClaims(confs[k].ports, kind)
    ensures i > 0 && c in LcoreClaims(confs[i - 1].ports, kind) ==> LastOwner(confs, kind, c) == confs[i - 1].id
    ensures i == 0 ==> LastOwner(confs, kind, c) == 4096
  {
    hide LcoreClaims;
    if i < |confs| { LastClaimant(confs[..|confs| - 1], kind, c, i); }
  }

  /** Where a port's ids are distinct, the last lcore claims none that an earlier one claims. */
  lemma LastDisjoint(confs: seq<Lcore>, kind: Kind, pid: nat, q: nat)
    requires confs != [] && NoRepeat(Ids(Claims(confs, kind), pid))
    ensures NoRepeat(Ids(Claims(confs[..|confs| - 1], kind), pid))
    ensures Claim(pid, q) in LcoreClaims(confs[|confs| - 1].ports, kind) ==>
              Claim(pid, q) !in Claims(confs[..|confs| - 1], kind)
  {
    hide Ids, LcoreClaims, NoRepeat;
    var before, mine := Claims(confs[..|confs| - 1], kind), LcoreClaims(confs[|confs| - 1].ports, kind);
    IdsConcat(before, mine, pid);
    IdsMembers(before, pid);
    IdsMembers(mine, pid);
    DisjointParts(Ids(before, pid), Ids(mine, pid));
  }

  lemma {:induction false} OnlyOwner(confs: seq<Lcore>, kind: Kind, pid: nat, q: nat, i: nat)
    requires NoRepeat(Ids(Claims(confs, kind), pid))
    requires i < |confs| && Claim(pid, q) in LcoreClaims(confs[i].ports, kind)
    ensures LastOwner(confs, kind, Claim(pid, q)) == confs[i].id
    ensures forall k :: 0 <= k < |confs| && Claim(pid, q) in LcoreClaims(confs[k].ports, kind) ==> k == i
  {
    hide Ids, LcoreClaims, NoRepeat, Claims;
    var last := |confs| - 1;
    var front := confs[..last];
    Unclaimed(front, kind, Claim(pid, q));
    LastDisjoint(confs, kind, pid, q);
    if i < last {
      assert Claim(pid, q) in LcoreClaims(front[i].ports, kind);
      OnlyOwner(front, kind, pid, q, i);
    } else {
      assert forall k :: 0 <= k < last ==> confs[k] == front[k];
    }
  }

  lemma DisjointParts(a: seq<nat>, b: seq<nat>)
    requires NoRepeat(a + b)
    ensures NoRepeat(a) && NoRepeat(b) && forall q :: q in a ==> q !in b
  {
    var s := a + b;
    assert forall i :: 0 <= i < |a| ==> s[i] == a[i];
    assert forall j :: 0 <= j < |b| ==> s[|a| + j] == b[j];
  }

  predicate OnlyClaimant(confs: seq<Lcore>, kind: Kind, c: Claim, i: nat) {
    forall k :: 0 <= k < |confs| && c in LcoreClaims(confs[k].ports, kind) ==> k == i
  }

  /**
   The port-queue map of an accepted configuration: each queue below the port's count is claimed by one lcore
   and no other, the map names that lcore, and all other entries stay unset, so no entry was ever overwritten.
   */
  lemma OneOwnerEach(lcores: nat, confs: seq<Lcore>, nports: nat, pid: nat, kind: Kind, q: nat)
    requires WellFormed(confs) && Accepts(lcores, confs, nports) && pid < nports
    requires |PortIds(confs, kind, pid)| < 256
    ensures q >= |PortIds(confs, kind, pid)| ==> LastOwner(Active(confs), kind, Claim(pid, q)) == INVALID
    ensures q < |PortIds(confs, kind, pid)| ==>
              exists i :: && 0 <= i < |Active(confs)| && Claim(pid, q) in LcoreClaims(Active(confs)[i].ports, kind)
                          && LastOwner(Active(confs), kind, Claim(pid, q)) == Active(confs)[i].id
                          && OnlyClaimant(Active(confs), kind, Claim(pid, q), i)
  {
    hide Claims, Ids, LcoreClaims, LastOwner, Accepts, WellFormed, ActiveFrom;
    var active := Active(confs);
    OwnershipExact(lcores, confs, nports, pid, kind);
    IdsMembers(Claims(active, kind), pid);
    Unclaimed(active, kind, Claim(pid, q));
    if q < |PortIds(confs, kind, pid)| {
      var i :| 0 <= i < |active| && Claim(pid, q) in LcoreClaims(active[i].ports, kind);
      OnlyOwner(active, kind, pid, q, i);
    }
  }

  // ----- the loops -----

  lemma LcoreClaimsAppend(ports: seq<PortQueues>, j: nat, kind: Kind)
    requires j < |ports|
    ensures LcoreClaims(ports[..j + 1], kind)
         == LcoreClaims(ports[..j], kind) + ClaimsOf(ports[j].pid, ports[j].Queues(kind))
  {
    assert ports[..j + 1][..j] == ports[..j];
  }

  /** How many queues of a port are configured, over all lcores. */
  method CountQueues(confs: seq<Lcore>, kind: Kind, pid: nat) returns (count: nat)
    ensures count == |PortIds(confs, kind, pid)|
  {
    hide Claims, LcoreClaims, Ids;
    NothingClaimed(kind, pid);
    var i := 0;
    count := 0;
    while i < |confs| && |confs[i].ports| > 0
      invariant i <= |confs| && ActiveFrom(confs, i) == ActiveFrom(confs, 0)
      invariant count == |Ids(Claims(confs[..i], kind), pid)|
    {
      var ports := confs[i].ports;
      ghost var before := Claims(confs[..i], kind);
      assert before + [] == before;
      for j := 0 to |ports|
        invariant count == |Ids(before + LcoreClaims(ports[..j], kind), pid)|
      {
        CountStep(before, ports, j, kind, pid);
        if ports[j].pid == pid {
          count := count + |ports[j].Queues(kind)|;
        }
      }
      assert ports[..|ports|] == ports;
      ClaimsAppend(confs, i, kind);
      i := i + 1;
    }
  }

  lemma NothingClaimed(kind: Kind, pid: nat)
    ensures Claims([], kind) == [] && LcoreClaims([], kind) == [] && Ids([], pid) == []
  {
  }

  lemma CountStep(before: seq<Claim>, ports: seq<PortQueues>, j: nat, kind: Kind, pid: nat)
    requires j < |ports|
    ensures |Ids(before + LcoreClaims(ports[..j + 1], kind), pid)|
         == |Ids(before + LcoreClaims(ports[..j], kind), pid)|
            + if ports[j].pid == pid then |ports[j].Queues(kind)| else 0
  {
    var so, next := LcoreClaims(ports[..j], kind), ClaimsOf(ports[j].pid, ports[j].Queues(kind));
    LcoreClaimsAppend(ports, j, kind);
    assert before + (so + next) == (before + so) + next;
    IdsConcat(before + so, next, pid);
    IdsOfPort(ports[j].pid, ports[j].Queues(kind), pid);
  }

  /** How many different ports the first `lcores` entries serve. */
  method CountPorts(lcores: nat, confs: seq<Lcore>) returns (count: nat)
    ensures count == |PortSet(Counted(lcores, confs))|
  {
    hide Elements, NoRepeat, PortSet;
    var found: seq<nat> := [];
    NothingFound();
    var i := 0;
    while i < |confs| && |confs[i].ports| > 0 && i < lcores
      invariant i <= |confs| && i <= lcores && ActiveFrom(confs, i) == ActiveFrom(confs, 0)
      invariant Elements(found) == PortSet(confs[..i]) && NoRepeat(found)
    {
      var ports := confs[i].ports;
      for j := 0 to |ports|
        invariant Elements(found) == PortSet(confs[..i]) + Elements(Pids(ports)[..j]) && NoRepeat(found)
      {
        var pid := ports[j].pid;
        var exist := false;
        for k := 0 to |found|
          invariant exist <==> pid in found[..k]
        {
          if found[k] == pid { exist := true; break; }
        }
        Snoc(found, pid);
        assert Pids(ports)[..j + 1] == Pids(ports)[..j] + [pid];
        Snoc(Pids(ports)[..j], pid);
        if !exist { found := found + [pid]; }
      }
      assert Pids(ports)[..|ports|] == Pids(ports);
      PortSetAppend(confs, i);
      i := i + 1;
    }
    ElementCount(found);
    count := |found|;
  }

  lemma NothingFound()
    ensures Elements<nat>([]) == {} == PortSet([]) && NoRepeat<nat>([])
  {
  }

  lemma PortSetAppend(confs: seq<Lcore>, n: nat)
    requires n < |confs|
    ensures PortSet(confs[..n + 1]) == PortSet(confs[..n]) + Elements(Pids(confs[n].ports))
  {
    assert confs[..n + 1][..n] == confs[..n];
  }

  /** The marks set so far are exactly the claims seen so far. */
  ghost predicate Marks(mark: array2<bool>, claims: seq<Claim>)
    reads mark
  {
    && mark.Length0 == MAX_RTE_PORTS && mark.Length1 == MAX_QUEUES
    && forall p: nat, q: nat :: p < MAX_RTE_PORTS && q < MAX_QUEUES ==> (mark[p, q] <==> Claim(p, q) in claims)
  }

  lemma Extended(claims: seq<Claim>, more: seq<Claim>, c: Claim)
    requires NoRepeat(claims)
    ensures NoRepeat(claims + [c]) <==> c !in claims
    ensures c in claims ==> !NoRepeat(claims + [c] + more)
  {
    var s := claims + [c];
    assert s[|claims|] == c;
    if c in claims {
      var i :| 0 <= i < |claims| && claims[i] == c;
      assert s[i] == s[|claims|];
      assert (s + more)[i] == (s + more)[|claims|];
    }
  }

  /** Marks one lcore's queues on one port, stopping at a queue that is marked already. */
  method MarkQueues(mark: array2<bool>, pid: nat, ids: seq<nat>, ghost before: seq<Claim>) returns (unused: bool)
    requires Marks(mark, before) && NoRepeat(before)
    requires pid < MAX_RTE_PORTS && forall k :: 0 <= k < |ids| ==> ids[k] < MAX_QUEUES
    modifies mark
    ensures unused <==> NoRepeat(before + ClaimsOf(pid, ids))
    ensures unused ==> Marks(mark, before + ClaimsOf(pid, ids))
  {
    hide NoRepeat;
    assert before + ClaimsOf(pid, []) == before;
    for k := 0 to |ids|
      invariant Marks(mark, before + ClaimsOf(pid, ids[..k])) && NoRepeat(before + ClaimsOf(pid, ids[..k]))
    {
      var qid := ids[k];
      ghost var so := before + ClaimsOf(pid, ids[..k]);
      ghost var rest := ClaimsOf(pid, ids[k + 1..]);
      Extended(so, rest, Claim(pid, qid));
      assert so + [Claim(pid, qid)] == before + ClaimsOf(pid, ids[..k + 1]);
      assert so + [Claim(pid, qid)] + rest == before + ClaimsOf(pid, ids);
      if mark[pid, qid] {
        return false;
      }
      mark[pid, qid] := true;
    }
    assert ids[..|ids|] == ids;
    return true;
  }

  /** Marks everything one lcore claims; receive queues of a port before its transmit queues. */
  method MarkLcore(rx: array2<bool>, tx: array2<bool>, ports: seq<PortQueues>,
                   ghost rxBefore: seq<Claim>, ghost txBefore: seq<Claim>) returns (v: Verdict)
    requires rx != tx && forall j :: 0 <= j < |ports| ==> PortWellFormed(ports[j])
    requires Marks(rx, rxBefore) && NoRepeat(rxBefore) && Marks(tx, txBefore) && NoRepeat(txBefore)
    modifies rx, tx
    ensures v == Accepted ==>
              && Marks(rx, rxBefore + LcoreClaims(ports, Rx)) && NoRepeat(rxBefore + LcoreClaims(ports, Rx))
              && Marks(tx, txBefore + LcoreClaims(ports, Tx)) && NoRepeat(txBefore + LcoreClaims(ports, Tx))
    ensures v == RepeatedRx ==> !NoRepeat(rxBefore + LcoreClaims(ports, Rx))
    ensures v == RepeatedTx ==> !NoRepeat(txBefore + LcoreClaims(ports, Tx))
    ensures v in {Accepted, RepeatedRx, RepeatedTx}
  {
    hide Marks, NoRepeat, LcoreClaims;
    NothingClaimed(Rx, 0);
    NothingClaimed(Tx, 0);
    assert rxBefore + [] == rxBefore && txBefore + [] == txBefore;
    for j := 0 to |ports|
      invariant Marks(rx, rxBefore + LcoreClaims(ports[..j], Rx)) && NoRepeat(rxBefore + LcoreClaims(ports[..j], Rx))
      invariant Marks(tx, txBefore + LcoreClaims(ports[..j], Tx)) && NoRepeat(txBefore + LcoreClaims(ports[..j], Tx))
    {
      var p := ports[j];
      AppendStep(rxBefore, ports, j, Rx);
      AppendStep(txBefore, ports, j, Tx);
      assert PortWellFormed(p);
      var unused := MarkQueues(rx, p.pid, p.rxqs, rxBefore + LcoreClaims(ports[..j], Rx));
      if !unused {
        return RepeatedRx;
      }
      unused := MarkQueues(tx, p.pid, p.txqs, txBefore + LcoreClaims(ports[..j], Tx));
      if !unused {
        return RepeatedTx;
      }
    }
    assert ports[..|ports|] == ports;
    return Accepted;
  }

  lemma AppendStep(before: seq<Claim>, ports: seq<PortQueues>, j: nat, kind: Kind)
    requires j < |ports|
    ensures before + LcoreClaims(ports[..j + 1], kind)
         == before + LcoreClaims(ports[..j], kind) + ClaimsOf(ports[j].pid, ports[j].Queues(kind))
    ensures !NoRepeat(before + LcoreClaims(ports[..j + 1], kind)) ==> !NoRepeat(before + LcoreClaims(ports, kind))
  {
    LcoreClaimsAppend(ports, j, kind);
    LcoreClaimsPrefix(ports, j + 1, |ports|, kind);
    assert ports[..|ports|] == ports;
    hide LcoreClaims, ClaimsOf, NoRepeat;
    var so, next := LcoreClaims(ports[..j], kind), ClaimsOf(ports[j].pid, ports[j].Queues(kind));
    assert before + (so + next) == before + so + next;
    PrefixBehind(before, LcoreClaims(ports[..j + 1], kind), LcoreClaims(ports, kind));
  }

  lemma PrefixBehind(before: seq<Claim>, a: seq<Claim>, b: seq<Claim>)
    requires a <= b
    ensures !NoRepeat(before + a) ==> !NoRepeat(before + b)
  {
    assert (before + b)[..|before + a|] == before + a;
    if NoRepeat(before + b) { PrefixDistinct(before + a, before + b); }
  }

  lemma {:induction false} LcoreClaimsPrefix(ports: seq<PortQueues>, m: nat, n: nat, kind: Kind)
    requires m <= n <= |ports|
    ensures LcoreClaims(ports[..m], kind) <= LcoreClaims(ports[..n], kind)
    decreases n
  {
    if m < n {
      LcoreClaimsPrefix(ports, m, n - 1, kind);
      LcoreClaimsAppend(ports, n - 1, kind);
    }
  }

  lemma PrefixDistinct(a: seq<Claim>, b: seq<Claim>)
    requires a <= b && NoRepeat(b)
    ensures NoRepeat(a)
  {
  }

  method TestContinuity(lcores: nat, confs: seq<Lcore>, mark: array2<bool>, pid: nat, kind: Kind) returns (ok: bool)
    requires pid < MAX_RTE_PORTS && Marks(mark, Claims(Checked(lcores, confs), kind))
    ensures ok <==> Continuous(lcores, confs, pid, kind)
  {
    hide Claims, Checked, PortIds;
    var n := CountQueues(confs, kind, pid);
    var nqueues := n % 256;
    for q := 0 to nqueues
      invariant q <= MAX_QUEUES && forall k: nat :: k < q ==> Claim(pid, k) in Claims(Checked(lcores, confs), kind)
    {
      if q >= MAX_QUEUES || !mark[pid, q] {
        return false;
      }
    }
    return true;
  }

  method TestCoverage(lcores: nat, confs: seq<Lcore>, ports: nat) returns (ok: bool)
    requires ports == |PortSet(Counted(lcores, confs))|
    ensures ok <==> AllCovered(lcores, confs)
  {
    hide PortSet, Counted;
    var i := 0;
    while i < |confs| && |confs[i].ports| > 0
      invariant i <= |confs| && ActiveFrom(confs, i) == ActiveFrom(confs, 0)
      invariant i == 0 || i < lcores
      invariant forall k :: 0 <= k < i ==> Covered(confs[k], ports)
    {
      assert i < |Checked(lcores, confs)| && Checked(lcores, confs)[i] == confs[i];
      if |confs[i].ports| != ports {
        return false;
      }
      for j := 0 to |confs[i].ports|
        invariant forall k :: 0 <= k < j ==> |confs[i].ports[k].txqs| >= 1
      {
        if |confs[i].ports[j].txqs| < 1 {
          return false;
        }
      }
      i := i + 1;
      if i >= lcores {
        break;
      }
    }
    return true;
  }

  /** What each verdict says about the configuration. */
  predicate Explains(v: Verdict, lcores: nat, confs: seq<Lcore>, nports: nat) {
    match v
    case Accepted => Accepts(lcores, confs, nports)
    case NoSlaveLcores => Checked(lcores, confs) == []
    case PortNotEnough => !Enough(lcores, confs, nports)
    case RepeatedRx => !UniqueClaims(lcores, confs, Rx)
    case RepeatedTx => !UniqueClaims(lcores, confs, Tx)
    case Discontinuous =>
      Enough(lcores, confs, nports) && UniqueClaims(lcores, confs, Rx) && UniqueClaims(lcores, confs, Tx)
      && !AllContinuous(lcores, confs, nports)
    case IncorrectTxQueueNum =>
      Enough(lcores, confs, nports) && UniqueClaims(lcores, confs, Rx) && UniqueClaims(lcores, confs, Tx)
      && AllContinuous(lcores, confs, nports) && !AllCovered(lcores, confs)
  }

  lemma LcoreStep(lcores: nat, confs: seq<Lcore>, i: nat, kind: Kind)
    requires i < CheckedCount(lcores, confs)
    ensures Claims(confs[..i + 1], kind) == Claims(confs[..i], kind) + LcoreClaims(confs[i].ports, kind)
    ensures !NoRepeat(Claims(confs[..i + 1], kind)) ==> !UniqueClaims(lcores, confs, kind)
  {
    ClaimsAppend(confs, i, kind);
    ClaimsPrefix(confs, i + 1, CheckedCount(lcores, confs), kind);
    if UniqueClaims(lcores, confs, kind) {
      PrefixDistinct(Claims(confs[..i + 1], kind), Claims(Checked(lcores, confs), kind));
    }
  }

  /** The first part of the check: port numbers and repeated queues, lcore by lcore. */
  method MarkAll(lcores: nat, confs: seq<Lcore>, nports: nat, rx: array2<bool>, tx: array2<bool>) returns (v: Verdict)
    requires WellFormed(confs) && rx != tx && Marks(rx, []) && Marks(tx, [])
    modifies rx, tx
    ensures v in {Accepted, PortNotEnough, RepeatedRx, RepeatedTx, NoSlaveLcores}
    ensures v != Accepted ==> Explains(v, lcores, confs, nports)
    ensures v == Accepted ==>
              && Checked(lcores, confs) != [] && Enough(lcores, confs, nports)
              && UniqueClaims(lcores, confs, Rx) && UniqueClaims(lcores, confs, Tx)
              && Marks(rx, Claims(Checked(lcores, confs), Rx)) && Marks(tx, Claims(Checked(lcores, confs), Tx))
  {
    hide Claims, LcoreClaims, NoRepeat, Marks;
    NoClaims();
    var i := 0;
    while i < |confs| && |confs[i].ports| > 0
      invariant i <= |confs| && ActiveFrom(confs, i) == ActiveFrom(confs, 0)
      invariant i == 0 || i < lcores
      invariant forall k :: 0 <= k < i ==> |confs[k].ports| <= nports
      invariant Marks(rx, Claims(confs[..i], Rx)) && NoRepeat(Claims(confs[..i], Rx))
      invariant Marks(tx, Claims(confs[..i], Tx)) && NoRepeat(Claims(confs[..i], Tx))
    {
      assert i < |Checked(lcores, confs)| && Checked(lcores, confs)[i] == confs[i];
      if |confs[i].ports| > nports {
        return PortNotEnough;
      }
      LcoreStep(lcores, confs, i, Rx);
      LcoreStep(lcores, confs, i, Tx);
      var result := MarkLcore(rx, tx, confs[i].ports, Claims(confs[..i], Rx), Claims(confs[..i], Tx));
      if result != Accepted {
        return result;
      }
      i := i + 1;
      if i >= lcores {
        break;
      }
    }
    assert i == CheckedCount(lcores, confs);
    if i == 0 {
      return NoSlaveLcores;
    }
    return Accepted;
  }

  lemma NoClaims()
    ensures Claims([], Rx) == Claims([], Tx) == [] && NoRepeat<Claim>([])
  {
  }

  method Check(lcores: nat, confs: seq<Lcore>, nports: nat) returns (v: Verdict)
    requires WellFormed(confs) && nports <= MAX_RTE_PORTS
    ensures Explains(v, lcores, confs, nports)
    ensures v == Accepted <==> Accepts(lcores, confs, nports)
  {
    hide Enough, UniqueClaims, Checked, Claims, PortSet, Counted, Continuous, AllCovered;
    var configured := CountPorts(lcores, confs);
    var rx := new bool[MAX_RTE_PORTS, MAX_QUEUES]((p, q) => false);
    var tx := new bool[MAX_RTE_PORTS, MAX_QUEUES]((p, q) => false);
    v := MarkAll(lcores, confs, nports, rx, tx);
    if v != Accepted {
      return;
    }
    for pid := 0 to nports
      invariant Marks(rx, Claims(Checked(lcores, confs), Rx)) && Marks(tx, Claims(Checked(lcores, confs), Tx))
      invariant forall k: nat :: k < pid ==> Continuous(lcores, confs, k, Rx) && Continuous(lcores, confs, k, Tx)
    {
      var ok := TestContinuity(lcores, confs, rx, pid, Rx);
      if !ok {
        return Discontinuous;
      }
      ok := TestContinuity(lcores, confs, tx, pid, Tx);
      if !ok {
        return Discontinuous;
      }
    }
    var ok := TestCoverage(lcores, confs, configured);
    if !ok {
      return IncorrectTxQueueNum;
    }
  }

  // ----- building the map -----

  /** Gives the listed queues of a port to an lcore. */
  method Assign(owner: array2<nat>, pid: nat, ids: seq<nat>, cid: nat)
    requires owner.Length0 == MAX_RTE_PORTS && owner.Length1 == MAX_QUEUES && pid < MAX_RTE_PORTS
    requires forall k :: 0 <= k < |ids| ==> ids[k] < MAX_QUEUES
    modifies owner
    ensures forall p: nat, q: nat :: p < MAX_RTE_PORTS && q < MAX_QUEUES ==>
              owner[p, q] == if Claim(p, q) in ClaimsOf(pid, ids) then cid else old(owner[p, q])
  {
    for k := 0 to |ids|
      invariant forall p: nat, q: nat :: p < MAX_RTE_PORTS && q < MAX_QUEUES ==>
                  owner[p, q] == if Claim(p, q) in ClaimsOf(pid, ids[..k]) then cid else old(owner[p, q])
    {
      owner[pid, ids[k]] := cid;
      assert ClaimsOf(pid, ids[..k + 1]) == ClaimsOf(pid, ids[..k]) + [Claim(pid, ids[k])];
    }
    assert ids[..|ids|] == ids;
  }

  ghost predicate Records(owner: array2<nat>, confs: seq<Lcore>, ports: seq<PortQueues>, cid: nat, kind: Kind)
    reads owner
  {
    && owner.Length0 == MAX_RTE_PORTS && owner.Length1 == MAX_QUEUES
    && forall p: nat, q: nat :: p < MAX_RTE_PORTS && q < MAX_QUEUES ==>
         owner[p, q] == if Claim(p, q) in LcoreClaims(ports, kind) then cid else LastOwner(confs, kind, Claim(p, q))
  }

  /** One more port of the lcore is entered. */
  method AssignPort(owner: array2<nat>, ghost confs: seq<Lcore>, ports: seq<PortQueues>, j: nat, cid: nat, kind: Kind)
    requires j < |ports| && PortWellFormed(ports[j]) && Records(owner, confs, ports[..j], cid, kind)
    modifies owner
    ensures Records(owner, confs, ports[..j + 1], cid, kind)
  {
    hide LcoreClaims, LastOwner;
    LcoreClaimsAppend(ports, j, kind);
    Assign(owner, ports[j].pid, ports[j].Queues(kind), cid);
  }

  lemma NextLcore(owner: array2<nat>, confs: seq<Lcore>, i: nat, kind: Kind)
    requires i < |confs| && Records(owner, confs[..i], confs[i].ports, confs[i].id, kind)
    ensures Records(owner, confs[..i + 1], [], INVALID, kind)
  {
    assert confs[..i + 1][..i] == confs[..i];
  }

  /** The port-queue map: every entry names the last lcore that claims it. */
  method BuildMap(confs: seq<Lcore>) returns (rx: array2<nat>, tx: array2<nat>)
    requires WellFormed(confs)
    ensures Records(rx, Active(confs), [], INVALID, Rx) && Records(tx, Active(confs), [], INVALID, Tx)
  {
    hide LcoreClaims, LastOwner, Records;
    rx := new nat[MAX_RTE_PORTS, MAX_QUEUES]((p, q) => INVALID);
    tx := new nat[MAX_RTE_PORTS, MAX_QUEUES]((p, q) => INVALID);
    EmptyMap(rx, Rx);
    EmptyMap(tx, Tx);
    var i := 0;
    while i < |confs| && |confs[i].ports| > 0
      invariant i <= |confs| && ActiveFrom(confs, i) == ActiveFrom(confs, 0)
      invariant Records(rx, confs[..i], [], INVALID, Rx) && Records(tx, confs[..i], [], INVALID, Tx)
      invariant fresh(rx) && fresh(tx) && rx != tx
    {
      var ports := confs[i].ports;
      SameMap(rx, confs[..i], confs[i].id, Rx);
      SameMap(tx, confs[..i], confs[i].id, Tx);
      for j := 0 to |ports|
        invariant Records(rx, confs[..i], ports[..j], confs[i].id, Rx)
        invariant Records(tx, confs[..i], ports[..j], confs[i].id, Tx)
      {
        assert PortWellFormed(ports[j]);
        AssignPort(rx, confs[..i], ports, j, confs[i].id, Rx);
        AssignPort(tx, confs[..i], ports, j, confs[i].id, Tx);
      }
      assert ports[..|ports|] == ports;
      NextLcore(rx, confs, i, Rx);
      NextLcore(tx, confs, i, Tx);
      i := i + 1;
    }
  }

  lemma EmptyMap(owner: array2<nat>, kind: Kind)
    requires owner.Length0 == MAX_RTE_PORTS && owner.Length1 == MAX_QUEUES
    requires forall p: nat, q: nat :: p < MAX_RTE_PORTS && q < MAX_QUEUES ==> owner[p, q] == INVALID
    ensures Records(owner, [], [], INVALID, kind)
  {
  }

  lemma SameMap(owner: array2<nat>, confs: seq<Lcore>, cid: nat, kind: Kind)
    requires Records(owner, confs, [], INVALID, kind)
    ensures Records(owner, confs, [], cid, kind)
  {
  }
}
