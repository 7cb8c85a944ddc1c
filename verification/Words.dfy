/** Unsigned machine words: what is left of a number in 16, 32 or 64 bits. */
module Words {
  import WheelMath

  function Wrap16(x: int): (r: nat)
    ensures r < 0x1_0000
  {
    x % 0x1_0000
  }

  function Wrap32(x: int): (r: nat)
    ensures r < 0x1_0000_0000
  {
    x % 0x1_0000_0000
  }

  function Wrap64(x: int): (r: nat)
    ensures r < 0x1_0000_0000_0000_0000
  {
    x % 0x1_0000_0000_0000_0000
  }

  /** Counting goes on after a wrap. */
  lemma WrapNext(x: nat)
    ensures Wrap32(Wrap32(x) + 1) == Wrap32(x + 1)
    ensures x < 0x1_0000_0000 ==> Wrap32(x) == x
    ensures x < 0xffff_ffff ==> Wrap32(x + 1) == x + 1
  {
    WheelMath.ModAdd(x, 1, 0x1_0000_0000);
  }
}
