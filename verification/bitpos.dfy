/** The position of the first bit of a value in a bitmap, a word at a time. */
module Bitpos {
  import opened Bits
  import Crc64

  const MSB: bv64 := 0x8000_0000_0000_0000
  const ULONG_MAX: bv64 := 0xffff_ffff_ffff_ffff

  /** The byte in which there is no such bit. */
  function Skip(bit: bool): bv8 {
    if bit then 0 else 0xff
  }

  lemma {:induction false} SkippedByte(bit: bool, k: nat)
    requires k < 8
    ensures BitOf(Skip(bit), k) != bit
  {
  }

  lemma {:induction false} OtherByte(b: bv8, bit: bool) returns (k: nat)
    requires b != Skip(bit)
    ensures k < 8 && BitOf(b, k) == bit
  {
    if BitOf(b, 0) == bit {
      k := 0;
    } else if BitOf(b, 1) == bit {
      k := 1;
    } else if BitOf(b, 2) == bit {
      k := 2;
    } else if BitOf(b, 3) == bit {
      k := 3;
    } else if BitOf(b, 4) == bit {
      k := 4;
    } else if BitOf(b, 5) == bit {
      k := 5;
    } else if BitOf(b, 6) == bit {
      k := 6;
    } else {
      k := 7;
    }
  }

  // ---------------------------------------------------------------- words

  /** The word a machine loads from eight bytes is all zeros or all ones exactly when every byte is. */
  lemma {:induction false} ZeroWord(b0: bv8, b1: bv8, b2: bv8, b3: bv8, b4: bv8, b5: bv8, b6: bv8, b7: bv8)
    ensures Crc64.Load(b0, b1, b2, b3, b4, b5, b6, b7) == 0 <==>
            b0 == 0 && b1 == 0 && b2 == 0 && b3 == 0 && b4 == 0 && b5 == 0 && b6 == 0 && b7 == 0
  {
  }

  lemma {:induction false} OnesWord(b0: bv8, b1: bv8, b2: bv8, b3: bv8, b4: bv8, b5: bv8, b6: bv8, b7: bv8)
    ensures Crc64.Load(b0, b1, b2, b3, b4, b5, b6, b7) == ULONG_MAX <==>
            b0 == 0xff && b1 == 0xff && b2 == 0xff && b3 == 0xff && b4 == 0xff && b5 == 0xff && b6 == 0xff && b7 == 0xff
  {
  }

  function LoadAt(s: seq<bv8>, c: nat): bv64
    requires c + 8 <= |s|
  {
    Crc64.Load(s[c], s[c + 1], s[c + 2], s[c + 3], s[c + 4], s[c + 5], s[c + 6], s[c + 7])
  }

  function SkipWord(bit: bool): bv64 {
    if bit then 0 else ULONG_MAX
  }

  lemma {:induction false} WholeWord(s: seq<bv8>, c: nat, bit: bool)
    requires c + 8 <= |s|
    ensures LoadAt(s, c) == SkipWord(bit) <==> forall i :: c <= i < c + 8 ==> s[i] == Skip(bit)
  {
    ZeroWord(s[c], s[c + 1], s[c + 2], s[c + 3], s[c + 4], s[c + 5], s[c + 6], s[c + 7]);
    OnesWord(s[c], s[c + 1], s[c + 2], s[c + 3], s[c + 4], s[c + 5], s[c + 6], s[c + 7]);
    var eight := forall i :: c <= i < c + 8 ==> s[i] == Skip(bit);
    assert eight <==> s[c] == Skip(bit) && s[c + 1] == Skip(bit) && s[c + 2] == Skip(bit) && s[c + 3] == Skip(bit)
                      && s[c + 4] == Skip(bit) && s[c + 5] == Skip(bit) && s[c + 6] == Skip(bit) && s[c + 7] == Skip(bit);
  }

  function Push(w: bv64, b: bv8): bv64 {
    (w << 8) | (b as bv64)
  }

  /** Eight bytes with the first one most significant. */
  function Big(d: seq<bv8>): bv64
    requires |d| == 8
  {
    Crc64.Load(d[7], d[6], d[5], d[4], d[3], d[2], d[1], d[0])
  }

  lemma {:induction false} PushAll(d0: bv8, d1: bv8, d2: bv8, d3: bv8, d4: bv8, d5: bv8, d6: bv8, d7: bv8)
    ensures Push(Push(Push(Push(Push(Push(Push(Push(0, d0), d1), d2), d3), d4), d5), d6), d7)
         == Crc64.Load(d7, d6, d5, d4, d3, d2, d1, d0)
  {
  }

  ghost function Pushed(d: seq<bv8>, j: nat): bv64
    requires j <= |d|
    decreases j
  {
    if j == 0 then 0 else Push(Pushed(d, j - 1), d[j - 1])
  }

  lemma {:induction false} PushedAll(d: seq<bv8>)
    requires |d| == 8
    ensures Pushed(d, 8) == Big(d)
  {
    PushAll(d[0], d[1], d[2], d[3], d[4], d[5], d[6], d[7]);
    hide Push, Crc64.Load;
    assert Pushed(d, 2) == Push(Push(0, d[0]), d[1]);
    assert Pushed(d, 4) == Push(Push(Pushed(d, 2), d[2]), d[3]);
    assert Pushed(d, 6) == Push(Push(Pushed(d, 4), d[4]), d[5]);
    assert Pushed(d, 8) == Push(Push(Pushed(d, 6), d[6]), d[7]);
  }

  // ---------------------------------------------------------------- bits of a word

  /** The mask of the scan: a single bit that moves down from the top. */
  ghost function OneAt(t: nat): bv64
    decreases t
  {
    if t == 0 then MSB else OneAt(t - 1) >> 1
  }

  lemma {:induction false} ShiftTwice(m: bv64)
    ensures (m >> 1) >> 1 == m >> 2
  {
  }

  lemma {:induction false} ShiftFour(m: bv64)
    ensures (m >> 2) >> 2 == m >> 4
  {
  }

  lemma {:induction false} ShiftEight(m: bv64)
    ensures (m >> 4) >> 4 == m >> 8
  {
  }

  lemma {:induction false} MaskTwo(t: nat)
    ensures OneAt(t + 2) == OneAt(t) >> 2
  {
    hide OneAt;
    MaskOne(t);
    MaskOne(t + 1);
    ShiftTwice(OneAt(t));
  }

  lemma {:induction false} MaskOne(t: nat)
    ensures OneAt(t + 1) == OneAt(t) >> 1
  {
  }

  lemma {:induction false} MaskFour(t: nat)
    ensures OneAt(t + 4) == OneAt(t) >> 4
  {
    hide OneAt;
    MaskTwo(t);
    MaskTwo(t + 2);
    ShiftFour(OneAt(t));
  }

  lemma {:induction false} MaskEight(t: nat)
    ensures OneAt(t + 8) == OneAt(t) >> 8
  {
    hide OneAt;
    MaskFour(t);
    MaskFour(t + 4);
    ShiftEight(OneAt(t));
  }

  lemma {:induction false} FirstMasks()
    ensures OneAt(0) == 0x8000_0000_0000_0000 && OneAt(1) == 0x4000_0000_0000_0000
    ensures OneAt(2) == 0x2000_0000_0000_0000 && OneAt(3) == 0x1000_0000_0000_0000
    ensures OneAt(4) == 0x0800_0000_0000_0000 && OneAt(5) == 0x0400_0000_0000_0000
    ensures OneAt(6) == 0x0200_0000_0000_0000 && OneAt(7) == 0x0100_0000_0000_0000
  {
    assert OneAt(1) == 0x4000_0000_0000_0000;
    assert OneAt(3) == 0x1000_0000_0000_0000;
    assert OneAt(5) == 0x0400_0000_0000_0000;
  }

  lemma {:induction false} LastMasks()
    ensures OneAt(63) == 1 && OneAt(64) == 0
  {
    FirstMasks();
    hide OneAt;
    MaskEight(7);
    MaskEight(15);
    MaskEight(23);
    MaskEight(31);
    MaskEight(39);
    MaskEight(47);
    MaskEight(55);
    MaskEight(0);
    MaskEight(8);
    MaskEight(16);
    MaskEight(24);
    MaskEight(32);
    MaskEight(40);
    MaskEight(48);
    MaskEight(56);
  }

  /** The scan looks at 64 bits: the mask is not zero before it has passed all of them. */
  lemma {:induction false} MaskStays(t: nat)
    requires t < 64
    ensures OneAt(t) != 0
    decreases 64 - t
  {
    if t == 63 {
      LastMasks();
    } else {
      MaskStays(t + 1);
      assert OneAt(t + 1) == OneAt(t) >> 1;
    }
  }

  lemma {:induction false} FirstByte(d0: bv8, d1: bv8, d2: bv8, d3: bv8, d4: bv8, d5: bv8, d6: bv8, d7: bv8)
    ensures (0x8000_0000_0000_0000 & Crc64.Load(d7, d6, d5, d4, d3, d2, d1, d0) != 0) == (d0 & 0x80 != 0)
    ensures (0x4000_0000_0000_0000 & Crc64.Load(d7, d6, d5, d4, d3, d2, d1, d0) != 0) == (d0 & 0x40 != 0)
    ensures (0x2000_0000_0000_0000 & Crc64.Load(d7, d6, d5, d4, d3, d2, d1, d0) != 0) == (d0 & 0x20 != 0)
    ensures (0x1000_0000_0000_0000 & Crc64.Load(d7, d6, d5, d4, d3, d2, d1, d0) != 0) == (d0 & 0x10 != 0)
    ensures (0x0800_0000_0000_0000 & Crc64.Load(d7, d6, d5, d4, d3, d2, d1, d0) != 0) == (d0 & 8 != 0)
    ensures (0x0400_0000_0000_0000 & Crc64.Load(d7, d6, d5, d4, d3, d2, d1, d0) != 0) == (d0 & 4 != 0)
    ensures (0x0200_0000_0000_0000 & Crc64.Load(d7, d6, d5, d4, d3, d2, d1, d0) != 0) == (d0 & 2 != 0)
    ensures (0x0100_0000_0000_0000 & Crc64.Load(d7, d6, d5, d4, d3, d2, d1, d0) != 0) == (d0 & 1 != 0)
  {
  }

  lemma {:induction false} BigLeft(d0: bv8, d1: bv8, d2: bv8, d3: bv8, d4: bv8, d5: bv8, d6: bv8, d7: bv8)
    ensures Crc64.Load(d7, d6, d5, d4, d3, d2, d1, d0) << 8 == Crc64.Load(0, d7, d6, d5, d4, d3, d2, d1)
  {
  }

  lemma {:induction false} MoveMask(m: bv64, w: bv64)
    ensures ((m >> 8) & w != 0) == (m & (w << 8) != 0)
  {
  }

  predicate Test(one: bv64, word: bv64) {
    one & word != 0
  }

  lemma {:induction false} ScanFirst(d: seq<bv8>, t: nat)
    requires |d| == 8 && t < 8
    ensures Test(OneAt(t), Big(d)) == BitOf(d[0], t)
  {
    FirstMasks();
    FirstByte(d[0], d[1], d[2], d[3], d[4], d[5], d[6], d[7]);
    hide Crc64.Load, OneAt;
  }

  lemma {:induction false} ScanNext(d: seq<bv8>, t: nat)
    requires |d| == 8
    ensures Test(OneAt(t + 8), Big(d)) == Test(OneAt(t), Big(d[1..] + [0]))
  {
    hide Crc64.Load, OneAt;
    MaskEight(t);
    MoveMask(OneAt(t), Big(d));
    BigLeft(d[0], d[1], d[2], d[3], d[4], d[5], d[6], d[7]);
  }

  /** The bit that the scan tests in its turn t is bit t of the bytes. */
  lemma {:induction false} ScanBit(d: seq<bv8>, t: nat)
    requires |d| == 8 && t < 64
    ensures Test(OneAt(t), Big(d)) == BitOf(d[t / 8], t % 8)
    decreases t
  {
    hide Test, OneAt, Big, BitOf;
    if t < 8 {
      ScanFirst(d, t);
    } else {
      var e := d[1..] + [0];
      ScanNext(d, t - 8);
      ScanBit(e, t - 8);
      assert e[(t - 8) / 8] == d[t / 8] && (t - 8) % 8 == t % 8;
    }
  }

  // ---------------------------------------------------------------- the search

  /** The eight bytes from a position on, with zeros after the end. */
  ghost function Eight(s: seq<bv8>, c: nat): (d: seq<bv8>)
    ensures |d| == 8
  {
    [ByteAt(s, c), ByteAt(s, c + 1), ByteAt(s, c + 2), ByteAt(s, c + 3),
     ByteAt(s, c + 4), ByteAt(s, c + 5), ByteAt(s, c + 6), ByteAt(s, c + 7)]
  }

  function ByteAt(s: seq<bv8>, i: nat): bv8 {
    if i < |s| then s[i] else 0
  }

  /** The byte j places ahead of a position. */
  function Ahead(s: seq<bv8>, c: nat, j: nat): bv8 {
    ByteAt(s, c + j)
  }

  lemma {:induction false} EightAt(s: seq<bv8>, c: nat, j: nat)
    requires j < 8
    ensures Eight(s, c)[j] == Ahead(s, c, j)
  {
  }

  lemma {:induction false} BitInByte(s: seq<bv8>, i: nat, k: nat)
    requires k < 8
    ensures BitAt(s, 8 * i + k) == BitOf(ByteAt(s, i), k)
  {
    assert (8 * i + k) / 8 == i && (8 * i + k) % 8 == k;
    assert !BitOf(0, k);
    hide BitOf;
  }

  /** No byte before the position has such a bit. */
  ghost predicate Skipped(s: seq<bv8>, c: nat, bit: bool) {
    forall i :: 0 <= i < c ==> ByteAt(s, i) == Skip(bit)
  }

  lemma {:induction false} SkippedBits(s: seq<bv8>, c: nat, bit: bool, n: nat)
    requires Skipped(s, c, bit) && n < 8 * c
    ensures BitAt(s, n) != bit
  {
    hide BitOf, Skip;
    BitInByte(s, n / 8, n % 8);
    assert ByteAt(s, n / 8) == Skip(bit);
    SkippedByte(bit, n % 8);
  }

  /** Bit t of eight bytes. */
  ghost predicate Bit64(d: seq<bv8>, t: nat)
    requires |d| == 8 && t < 64
  {
    BitOf(d[t / 8], t % 8)
  }

  function Next(one: bv64): bv64 {
    one >> 1
  }

  lemma {:induction false} ScanTurn(d: seq<bv8>, t: nat)
    requires |d| == 8 && t < 64
    ensures Test(OneAt(t), Big(d)) == Bit64(d, t) && OneAt(t) != 0 && Next(OneAt(t)) == OneAt(t + 1)
  {
    hide Big, BitOf;
    MaskOne(t);
    MaskStays(t);
    hide OneAt, Test;
    ScanBit(d, t);
  }

  lemma {:induction false} ScanStart()
    ensures !(ULONG_MAX >> 1) == OneAt(0)
  {
  }

  /** The first bit of the value, found by scanning one word from its top. */
  method ScanWord(word: bv64, pos: nat, bit: bool, ghost d: seq<bv8>, ghost hit: nat) returns (r: nat)
    requires |d| == 8 && word == Big(d) && hit < 64 && Bit64(d, hit) == bit
    ensures pos <= r < pos + 64 && Bit64(d, r - pos) == bit
    ensures forall t :: 0 <= t < r - pos ==> Bit64(d, t) != bit
  {
    hide Big, OneAt, Bit64, Test, Next;
    ScanStart();
    var one := !(ULONG_MAX >> 1);
    ghost var t := 0;
    r := pos;
    while one != 0
      invariant r == pos + t && t <= hit && one == OneAt(t)
      invariant forall u :: 0 <= u < t ==> Bit64(d, u) != bit
      decreases 64 - t
    {
      ScanTurn(d, t);
      if Test(one, word) == bit {
        return;
      }
      r, one, t := r + 1, Next(one), t + 1;
    }
    ScanTurn(d, t);
    assert false;
  }

  /** The word that the loop assembles from the bytes that are left, and zeros. */
  method LoadRest(s: seq<bv8>, c: nat) returns (word: bv64)
    ensures word == Big(Eight(s, c))
  {
    hide Push, Big;
    word := 0;
    for j := 0 to 8
      invariant word == Pushed(Eight(s, c), j)
    {
      EightAt(s, c, j);
      word := Push(word, Ahead(s, c, j));
    }
    PushedAll(Eight(s, c));
  }

  /** A byte among the eight that has such a bit. */
  lemma {:induction false} HitAt(s: seq<bv8>, c: nat, bit: bool, j: nat) returns (hit: nat)
    requires j < 8 && Ahead(s, c, j) != Skip(bit)
    ensures hit < 64 && Bit64(Eight(s, c), hit) == bit
  {
    var k := OtherByte(Ahead(s, c, j), bit);
    hit := 8 * j + k;
    EightAt(s, c, j);
    assert hit / 8 == j && hit % 8 == k;
  }

  lemma {:induction false} ZeroEight(s: seq<bv8>, c: nat, j: nat)
    requires Big(Eight(s, c)) == 0 && j < 8
    ensures Ahead(s, c, j) == 0
  {
    var d := Eight(s, c);
    ZeroWord(d[7], d[6], d[5], d[4], d[3], d[2], d[1], d[0]);
    hide Crc64.Load;
    EightAt(s, c, j);
  }

  /** Where the skipping ends: less than a word is left, or there is such a bit in the next word. */
  ghost predicate Stops(s: seq<bv8>, c: nat, bit: bool) {
    c <= |s| && Skipped(s, c, bit) && (|s| < c + 8 || exists j :: 0 <= j < 8 && Ahead(s, c, j) != Skip(bit))
  }

  /** Whole words without such a bit are skipped. */
  method SkipWords(s: seq<bv8>, start: nat, bit: bool) returns (c: nat)
    requires start <= |s| && Skipped(s, start, bit)
    ensures Stops(s, c, bit)
  {
    hide LoadAt, SkipWord, Skip;
    c := start;
    while |s| - c >= 8
      invariant c <= |s| && Skipped(s, c, bit)
    {
      WholeWord(s, c, bit);
      if LoadAt(s, c) != SkipWord(bit) {
        var i :| c <= i < c + 8 && s[i] != Skip(bit);
        assert Ahead(s, c, i - c) != Skip(bit);
        return;
      }
      c := c + 8;
    }
  }

  lemma {:induction false} SomeHit(s: seq<bv8>, c: nat, bit: bool) returns (hit: nat)
    requires Stops(s, c, bit) && !(bit && Big(Eight(s, c)) == 0)
    ensures hit < 64 && Bit64(Eight(s, c), hit) == bit
  {
    hide BitOf, Eight, Big;
    assert Skip(bit) == if bit then 0 else 0xff;
    if j :| 0 <= j < 8 && Ahead(s, c, j) != Skip(bit) {
      hit := HitAt(s, c, bit, j);
    } else if !bit {
      assert Ahead(s, c, |s| - c) == 0;
      hit := HitAt(s, c, bit, |s| - c);
    } else {
      AllZero(s, c);
      assert false;
    }
  }

  lemma {:induction false} AllZero(s: seq<bv8>, c: nat)
    requires forall j :: 0 <= j < 8 ==> Ahead(s, c, j) == 0
    ensures Big(Eight(s, c)) == 0
  {
    var d := Eight(s, c);
    EightAt(s, c, 0);
    EightAt(s, c, 1);
    EightAt(s, c, 2);
    EightAt(s, c, 3);
    EightAt(s, c, 4);
    EightAt(s, c, 5);
    EightAt(s, c, 6);
    EightAt(s, c, 7);
    hide Eight;
    ZeroWord(d[7], d[6], d[5], d[4], d[3], d[2], d[1], d[0]);
    hide Crc64.Load;
  }

  lemma {:induction false} NoneSet(s: seq<bv8>, c: nat, n: nat)
    requires Stops(s, c, true) && Big(Eight(s, c)) == 0
    ensures !BitAt(s, n)
  {
    hide BitOf, Eight, Big;
    if n < 8 * c {
      SkippedBits(s, c, true, n);
    } else {
      forall j | 0 <= j < 8 ensures Ahead(s, c, j) == 0 {
        ZeroEight(s, c, j);
      }
      BitInByte(s, n / 8, n % 8);
      assert ByteAt(s, n / 8) == 0 by {
        if n / 8 < |s| {
          assert Ahead(s, c, n / 8 - c) == 0;
        }
      }
      SkippedByte(true, n % 8);
    }
  }

  lemma {:induction false} Found(s: seq<bv8>, c: nat, bit: bool, pos: nat)
    requires Skipped(s, c, bit) && 8 * c <= pos < 8 * c + 64
    requires Bit64(Eight(s, c), pos - 8 * c) == bit
    requires forall t :: 0 <= t < pos - 8 * c ==> Bit64(Eight(s, c), t) != bit
    ensures BitAt(s, pos) == bit && forall n :: 0 <= n < pos ==> BitAt(s, n) != bit
  {
    hide BitOf, Eight;
    WordBit(s, c, pos - 8 * c);
    forall n | 0 <= n < pos ensures BitAt(s, n) != bit {
      if n < 8 * c {
        SkippedBits(s, c, bit, n);
      } else {
        WordBit(s, c, n - 8 * c);
      }
    }
  }

  lemma {:induction false} WordBit(s: seq<bv8>, c: nat, t: nat)
    requires t < 64
    ensures BitAt(s, 8 * c + t) == Bit64(Eight(s, c), t)
  {
    hide BitOf, Eight;
    EightAt(s, c, t / 8);
    BitInByte(s, c + t / 8, t % 8);
    assert 8 * (c + t / 8) + t % 8 == 8 * c + t;
  }

  /**
    redisBitpos: the first bit of the value in the bitmap that is zero after its end, or -1 when
    a one is looked for and there is none. The scan of the last word always finds a bit.
   */
  method RedisBitpos(s: seq<bv8>, addr: nat, bit: bool) returns (pos: int)
    ensures pos == -1 <==> bit && forall n: nat :: !BitAt(s, n)
    ensures pos != -1 ==> pos >= 0 && BitAt(s, pos) == bit && forall n :: 0 <= n < pos ==> BitAt(s, n) != bit
  {
    hide BitAt, BitOf, Big, Eight, Skip;
    var c, found := 0, false;
    while (addr + c) % 8 != 0 && c < |s| && !found
      invariant c <= |s| && Skipped(s, c, bit)
      invariant found ==> c < |s| && s[c] != Skip(bit)
      decreases |s| - c, !found
    {
      if s[c] != Skip(bit) {
        found := true;
      } else {
        c := c + 1;
      }
    }
    if !found {
      c := SkipWords(s, c, bit);
    } else {
      assert Ahead(s, c, 0) != Skip(bit);
    }
    var word := LoadRest(s, c);
    if bit && word == 0 {
      forall n: nat ensures !BitAt(s, n) {
        NoneSet(s, c, n);
      }
      return -1;
    }
    ghost var hit := SomeHit(s, c, bit);
    pos := ScanWord(word, 8 * c, bit, Eight(s, c), hit);
    Found(s, c, bit, pos);
  }
}
