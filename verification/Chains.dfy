/** Singly linked chains walked and unlinked in place, as sequences. */
module Chains {
  import opened Sequences

  /** The chain after unlinking the elements that `drop` picks. */
  function Unlinked<T>(chain: seq<T>, drop: T -> bool): seq<T> {
    if chain == [] then []
    else (if drop(chain[0]) then [] else [chain[0]]) + Unlinked(chain[1..], drop)
  }

  lemma {:induction false} UnlinkedMembers<T(!new)>(chain: seq<T>, drop: T -> bool)
    ensures forall e :: e in Unlinked(chain, drop) <==> e in chain && !drop(e)
    ensures |Unlinked(chain, drop)| <= |chain|
  {
    if chain != [] {
      UnlinkedMembers(chain[1..], drop);
      assert forall e :: e in chain <==> e == chain[0] || e in chain[1..];
    }
  }

  lemma {:induction false} UnlinkedNoRepeat<T(!new)>(chain: seq<T>, drop: T -> bool)
    requires NoRepeat(chain)
    ensures NoRepeat(Unlinked(chain, drop))
  {
    if chain != [] {
      UnlinkedNoRepeat(chain[1..], drop);
      UnlinkedMembers(chain[1..], drop);
      var u := Unlinked(chain[1..], drop);
      forall j | 0 <= j < |u| ensures u[j] != chain[0] { assert u[j] in chain[1..]; }
    }
  }

  /** One step of the unlinking walk. */
  lemma UnlinkStep<T(!new)>(chain: seq<T>, i: nat, drop: T -> bool)
    requires i < |chain|
    ensures var u := chain[..i] + chain[i + 1..];
            && (drop(chain[i]) ==> chain[..i] + Unlinked(chain[i..], drop) == u[..i] + Unlinked(u[i..], drop))
            && (!drop(chain[i]) ==>
                  chain[..i] + Unlinked(chain[i..], drop) == chain[..i + 1] + Unlinked(chain[i + 1..], drop))
  {
    var u := chain[..i] + chain[i + 1..];
    assert chain[i..][1..] == chain[i + 1..] && u[..i] == chain[..i] && u[i..] == chain[i + 1..];
    assert chain[..i] + ([chain[i]] + Unlinked(chain[i + 1..], drop))
        == chain[..i + 1] + Unlinked(chain[i + 1..], drop);
  }

  lemma UnlinkEnds<T(!new)>(chain: seq<T>, drop: T -> bool)
    ensures chain[..0] + Unlinked(chain[0..], drop) == Unlinked(chain, drop)
    ensures chain[..|chain|] + Unlinked(chain[|chain|..], drop) == chain
  {
    assert chain[0..] == chain && chain[|chain|..] == [];
  }
}
