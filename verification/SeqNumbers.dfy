/**
 32-bit sequence numbers and their comparison (section 3.4 of RFC 9293, section 3.2 of RFC 1982).
 Unbounded offsets wrap onto numbers; the comparison agrees with the order of the offsets within half
 the number space.
 */
module SeqNumbers {
  import opened Words

  const MODULUS := 0x1_0000_0000
  const HALF_SPACE := 0x8000_0000

  function Sign(x: int): int { if x < 0 then -1 else if x == 0 then 0 else 1 }

  /** The sign bit of the 32-bit difference decides. */
  function SeqCompare(a: int, b: int): int {
    if a == b then 0 else if Wrap32(a - b) >= HALF_SPACE then -1 else 1
  }

  predicate SeqBetween(x: int, start: int, end: int) {
    SeqCompare(x, start) >= 0 && SeqCompare(x, end) < 0
  }

  lemma WrapSmall(x: int)
    requires 0 <= x < MODULUS
    ensures Wrap32(x) == x
  {
  }

  lemma WrapShift(x: int, k: int)
    ensures Wrap32(x + k * MODULUS) == Wrap32(x)
  {
    assert x + k * MODULUS == (x / MODULUS + k) * MODULUS + x % MODULUS;
  }

  lemma WrapDifference(a: int, b: int)
    ensures Wrap32(Wrap32(a) - Wrap32(b)) == Wrap32(a - b)
    ensures Wrap32(Wrap32(a) + b) == Wrap32(a + b)
  {
    WrapShift(Wrap32(a) - Wrap32(b), a / MODULUS - b / MODULUS);
    WrapShift(Wrap32(a) + b, a / MODULUS);
  }

  /** Comparing wrapped offsets agrees with comparing the offsets. */
  lemma CompareAgrees(a: int, b: int)
    requires -HALF_SPACE <= a - b < HALF_SPACE
    ensures SeqCompare(Wrap32(a), Wrap32(b)) == Sign(a - b)
    ensures Wrap32(a) == Wrap32(b) <==> a == b
  {
    WrapDifference(a, b);
  }

  lemma BetweenAgrees(x: int, start: int, end: int)
    requires start <= end < start + HALF_SPACE && start - HALF_SPACE < x < start + HALF_SPACE
    requires -HALF_SPACE <= x - end
    ensures SeqBetween(Wrap32(x), Wrap32(start), Wrap32(end)) <==> start <= x < end
  {
    CompareAgrees(x, start);
    CompareAgrees(x, end);
  }

  /** Where the receiver places a segment with this number and length, given the offset of its base. */
  function Place(isn: int, base: int, number: int, len: int): int {
    var e := Wrap32(number + len - Wrap32(isn + base));
    base + (if e >= HALF_SPACE then e - MODULUS else e) - len
  }

  lemma WrapPlace(a: int, b: int, len: int)
    ensures Wrap32(Wrap32(a) + len - Wrap32(b)) == Wrap32(a + len - b)
  {
    WrapShift(Wrap32(a) + len - Wrap32(b), a / MODULUS - b / MODULUS);
  }

  /** The signed reading of a wrapped difference is the difference, exactly within half the space. */
  lemma SignedExact(d: int)
    ensures var e := Wrap32(d);
            (if e >= HALF_SPACE then e - MODULUS else e) == d <==> -HALF_SPACE <= d < HALF_SPACE
  {
    if 0 <= d < HALF_SPACE {
      WrapSmall(d);
    } else if -HALF_SPACE <= d < 0 {
      WrapShift(d, 1);
      WrapSmall(d + MODULUS);
    }
    hide Wrap32;
  }

  /** A sender's segment is placed at its true offset exactly when its end is in the receiver's window. */
  lemma PlaceExact(isn: int, base: int, off: int, len: int)
    ensures Place(isn, base, Wrap32(isn + off), len) == off
       <==> base - HALF_SPACE <= off + len < base + HALF_SPACE
  {
    WrapPlace(isn + off, isn + base, len);
    SignedExact(off + len - base);
    hide Wrap32;
  }

  /** Whatever its number, a segment's end is placed within half the space of the base, and rewraps to it. */
  lemma PlaceRange(isn: int, base: int, number: int, len: int)
    requires 0 <= number < MODULUS
    ensures base - HALF_SPACE <= Place(isn, base, number, len) + len < base + HALF_SPACE
    ensures Wrap32(isn + Place(isn, base, number, len)) == number
  {
  }
}
