/** Bitmaps: bytes seen as bits from the most significant one on, with zeros after the end. */
module Bits {

  /** The mask of bit k of a byte, counting from the most significant bit. */
  function Mask(k: nat): bv8
    requires k < 8
  {
    if k == 0 then 0x80 else if k == 1 then 0x40 else if k == 2 then 0x20 else if k == 3 then 0x10
    else if k == 4 then 8 else if k == 5 then 4 else if k == 6 then 2 else 1
  }

  predicate BitOf(b: bv8, k: nat)
    requires k < 8
  {
    b & Mask(k) != 0
  }

  /** Bit n of the bitmap that is zero after its end. */
  predicate BitAt(p: seq<bv8>, n: nat) {
    n / 8 < |p| && BitOf(p[n / 8], n % 8)
  }

  function One(b: bool): nat {
    if b then 1 else 0
  }

  /** How many bits of a byte are set. */
  function CountByte(b: bv8): nat {
    One(BitOf(b, 0)) + One(BitOf(b, 1)) + One(BitOf(b, 2)) + One(BitOf(b, 3))
    + One(BitOf(b, 4)) + One(BitOf(b, 5)) + One(BitOf(b, 6)) + One(BitOf(b, 7))
  }

  function CountBits(p: seq<bv8>): nat {
    if p == [] then 0 else CountBits(p[..|p| - 1]) + CountByte(p[|p| - 1])
  }

  lemma {:induction false} CountConcat(a: seq<bv8>, b: seq<bv8>)
    ensures CountBits(a + b) == CountBits(a) + CountBits(b)
    decreases |b|
  {
    hide CountByte;
    if b == [] {
      assert a + b == a;
    } else {
      assert (a + b)[..|a + b| - 1] == a + b[..|b| - 1];
      CountConcat(a, b[..|b| - 1]);
    }
  }
}
