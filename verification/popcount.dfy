/** Counting bits 28 bytes at a time. */
module Popcount {
  import opened Bits

  /** The value of a byte of a word as a number, by counting down. */
  function Value(x: bv32): nat
    decreases x
  {
    if x == 0 then 0 else 1 + Value(x - 1)
  }

  /** The value of a word as a number: its bytes are its digits. */
  function Number(x: bv32): nat {
    Value(x & 0xff) + 0x100 * Value((x >> 8) & 0xff) + 0x1_0000 * Value((x >> 16) & 0xff) + 0x100_0000 * Value(x >> 24)
  }

  /** The number of set bits of a byte, as a byte. */
  function Pop(b: bv8): bv8 {
    (if b & 1 != 0 then 1 else 0) + (if b & 2 != 0 then 1 else 0) + (if b & 4 != 0 then 1 else 0) + (if b & 8 != 0 then 1 else 0)
    + (if b & 16 != 0 then 1 else 0) + (if b & 32 != 0 then 1 else 0) + (if b & 64 != 0 then 1 else 0) + (if b & 128 != 0 then 1 else 0)
  }

  /** The 32-bit word of four bytes. */
  function Load(b0: bv8, b1: bv8, b2: bv8, b3: bv8): bv32 {
    (b0 as bv32) | ((b1 as bv32) << 8) | ((b2 as bv32) << 16) | ((b3 as bv32) << 24)
  }

  // ---------------------------------------------------------------- the parallel count of one word

  /** Sums of two bits, without carries: of the two bits of a field one is exclusive-or and the other one is and. */
  function Fields(x: bv32): bv32 {
    ((x & 0x55555555) ^ ((x >> 1) & 0x55555555)) | (((x & 0x55555555) & ((x >> 1) & 0x55555555)) << 1)
  }

  function Twos8(b: bv8): bv8 { ((b & 0x55) ^ ((b >> 1) & 0x55)) | (((b & 0x55) & ((b >> 1) & 0x55)) << 1) }
  function Fours8(b: bv8): bv8 { (b & 0x33) + ((b >> 2) & 0x33) }
  function Eights8(b: bv8): bv8 { (b + (b >> 4)) & 0x0f }

  lemma {:induction false} FieldsByByte(b0: bv8, b1: bv8, b2: bv8, b3: bv8)
    ensures Fields(Load(b0, b1, b2, b3)) == Load(Twos8(b0), Twos8(b1), Twos8(b2), Twos8(b3))
  {
  }

  lemma {:induction false} FoursByByte(b0: bv8, b1: bv8, b2: bv8, b3: bv8)
    ensures (Load(b0, b1, b2, b3) & 0x33333333) + ((Load(b0, b1, b2, b3) >> 2) & 0x33333333)
         == Load(Fours8(b0), Fours8(b1), Fours8(b2), Fours8(b3))
  {
  }

  lemma {:induction false} EightsByByte(b0: bv8, b1: bv8, b2: bv8, b3: bv8)
    requires b0 & 0x88 == 0 && b1 & 0x88 == 0 && b2 & 0x88 == 0 && b3 & 0x88 == 0
    ensures (Load(b0, b1, b2, b3) + (Load(b0, b1, b2, b3) >> 4)) & 0x0F0F0F0F
         == Load(Eights8(b0), Eights8(b1), Eights8(b2), Eights8(b3))
  {
  }

  lemma {:induction false} CountOfByte(b: bv8)
    ensures Eights8(Fours8(Twos8(b))) == Pop(b) && Pop(b) <= 8
    ensures Fours8(Twos8(b)) & 0x88 == 0
  {
  }

  /** The steps of the source on one word: sums of two bits, of four, of eight. */
  function Twos(x: bv32): bv32 { x - ((x >> 1) & 0x55555555) }
  function Fours(x: bv32): bv32 { (x & 0x33333333) + ((x >> 2) & 0x33333333) }
  function Eights(x: bv32): bv32 { (x + (x >> 4)) & 0x0F0F0F0F }

  /** The subtraction of the source adds the two bits of each field. */
  lemma {:induction false} TwosAreFields(x: bv32)
    ensures Twos(x) == Fields(x)
  {
  }

  lemma {:induction false} TwosOfBytes(b0: bv8, b1: bv8, b2: bv8, b3: bv8)
    ensures Twos(Load(b0, b1, b2, b3)) == Load(Twos8(b0), Twos8(b1), Twos8(b2), Twos8(b3))
  {
    hide Load, Twos8, Twos, Fields;
    TwosAreFields(Load(b0, b1, b2, b3));
    FieldsByByte(b0, b1, b2, b3);
  }

  lemma {:induction false} FoursOfBytes(b0: bv8, b1: bv8, b2: bv8, b3: bv8)
    ensures Fours(Load(b0, b1, b2, b3)) == Load(Fours8(b0), Fours8(b1), Fours8(b2), Fours8(b3))
  {
    hide Load, Fours8;
    FoursByByte(b0, b1, b2, b3);
  }

  lemma {:induction false} EightsOfBytes(b0: bv8, b1: bv8, b2: bv8, b3: bv8)
    requires b0 & 0x88 == 0 && b1 & 0x88 == 0 && b2 & 0x88 == 0 && b3 & 0x88 == 0
    ensures Eights(Load(b0, b1, b2, b3)) == Load(Eights8(b0), Eights8(b1), Eights8(b2), Eights8(b3))
  {
    hide Load, Eights8;
    EightsByByte(b0, b1, b2, b3);
  }

  function Parallel(x: bv32): bv32 { Eights(Fours(Twos(x))) }

  /** Each byte of the result is the count of a byte of the word. */
  lemma {:induction false} ParallelCounts(b0: bv8, b1: bv8, b2: bv8, b3: bv8)
    ensures Parallel(Load(b0, b1, b2, b3)) == Load(Pop(b0), Pop(b1), Pop(b2), Pop(b3))
  {
    hide Load, Twos8, Fours8, Eights8, Pop, Twos, Fours, Eights;
    TwosOfBytes(b0, b1, b2, b3);
    FoursOfBytes(Twos8(b0), Twos8(b1), Twos8(b2), Twos8(b3));
    CountOfByte(b0);
    CountOfByte(b1);
    CountOfByte(b2);
    CountOfByte(b3);
    EightsOfBytes(Fours8(Twos8(b0)), Fours8(Twos8(b1)), Fours8(Twos8(b2)), Fours8(Twos8(b3)));
  }

  // ---------------------------------------------------------------- counts as numbers

  lemma {:induction false} CountAsNumber(b: bv8)
    ensures Value(Pop(b) as bv32) == CountByte(b) <= 8
  {
    hide Value;
    SmallValues();
  }

  lemma {:induction false} SmallValues()
    ensures Value(0) == 0 && Value(1) == 1 && Value(2) == 2 && Value(3) == 3 && Value(4) == 4
    ensures Value(5) == 5 && Value(6) == 6 && Value(7) == 7 && Value(8) == 8
  {
    assert Value(2) == 2;
    assert Value(4) == 4;
    assert Value(6) == 6;
    assert Value(8) == 8;
  }

  lemma {:induction false} Digit0(b0: bv8, b1: bv8, b2: bv8, b3: bv8)
    ensures Load(b0, b1, b2, b3) & 0xff == b0 as bv32
  {
  }

  lemma {:induction false} Digit1(b0: bv8, b1: bv8, b2: bv8, b3: bv8)
    ensures (Load(b0, b1, b2, b3) >> 8) & 0xff == b1 as bv32
  {
  }

  lemma {:induction false} Digit2(b0: bv8, b1: bv8, b2: bv8, b3: bv8)
    ensures (Load(b0, b1, b2, b3) >> 16) & 0xff == b2 as bv32
  {
  }

  lemma {:induction false} Digit3(b0: bv8, b1: bv8, b2: bv8, b3: bv8)
    ensures Load(b0, b1, b2, b3) >> 24 == b3 as bv32
  {
  }

  /** The digits of the parallel count of a word are the counts of its bytes. */
  lemma {:induction false} ParallelNumber(b0: bv8, b1: bv8, b2: bv8, b3: bv8)
    ensures Number(Parallel(Load(b0, b1, b2, b3)))
         == CountByte(b0) + 0x100 * CountByte(b1) + 0x1_0000 * CountByte(b2) + 0x100_0000 * CountByte(b3)
    ensures CountByte(b0) <= 8 && CountByte(b1) <= 8 && CountByte(b2) <= 8 && CountByte(b3) <= 8
  {
    hide Load, Pop, Parallel, Value, CountByte;
    ParallelCounts(b0, b1, b2, b3);
    Digit0(Pop(b0), Pop(b1), Pop(b2), Pop(b3));
    Digit1(Pop(b0), Pop(b1), Pop(b2), Pop(b3));
    Digit2(Pop(b0), Pop(b1), Pop(b2), Pop(b3));
    Digit3(Pop(b0), Pop(b1), Pop(b2), Pop(b3));
    CountAsNumber(b0);
    CountAsNumber(b1);
    CountAsNumber(b2);
    CountAsNumber(b3);
  }

  // ---------------------------------------------------------------- a block of 28 bytes

  const UINT: nat := 0x1_0000_0000

  lemma {:induction false} DropHigh(m: nat, high: nat)
    requires m < UINT
    ensures (m + UINT * high) % UINT == m
  {
  }

  lemma {:induction false} TopDigit(low: nat, t: nat)
    requires low < 0x100_0000
    ensures (low + 0x100_0000 * t) / 0x100_0000 == t
  {
  }

  /** The sum of the digits, moved to the top digit by the multiplication; no digit of the product exceeds 224. */
  lemma {:induction false} GatherDigits(s: nat, a0: nat, a1: nat, a2: nat, a3: nat)
    requires a0 <= 56 && a1 <= 56 && a2 <= 56 && a3 <= 56
    requires s == a0 + 0x100 * a1 + 0x1_0000 * a2 + 0x100_0000 * a3
    ensures s < UINT && ((s * 0x01010101) % UINT) / 0x100_0000 == a0 + a1 + a2 + a3
  {
    var t := a0 + a1 + a2 + a3;
    var low := a0 + 0x100 * (a0 + a1) + 0x1_0000 * (a0 + a1 + a2);
    var high := (a1 + a2 + a3) + 0x100 * (a2 + a3) + 0x1_0000 * a3;
    assert s * 0x01010101 == (low + 0x100_0000 * t) + UINT * high;
    DropHigh(low + 0x100_0000 * t, high);
    TopDigit(low, t);
  }

  function WordAt(b: seq<bv8>, k: nat): bv32
    requires 4 * k + 4 <= |b|
  {
    Load(b[4 * k], b[4 * k + 1], b[4 * k + 2], b[4 * k + 3])
  }

  /** The count of every fourth byte, from a position on. */
  ghost function Lane(b: seq<bv8>, k: nat, lane: nat): nat
    requires 4 * k <= |b| && lane < 4
    decreases k
  {
    if k == 0 then 0 else Lane(b, k - 1, lane) + CountByte(b[4 * (k - 1) + lane])
  }

  ghost function Sum(b: seq<bv8>, k: nat): nat
    requires 4 * k <= |b|
    decreases k
  {
    if k == 0 then 0 else Sum(b, k - 1) + Number(Parallel(WordAt(b, k - 1)))
  }

  lemma {:induction false} SumByLanes(b: seq<bv8>, k: nat)
    requires 4 * k <= |b|
    ensures Sum(b, k) == Lane(b, k, 0) + 0x100 * Lane(b, k, 1) + 0x1_0000 * Lane(b, k, 2) + 0x100_0000 * Lane(b, k, 3)
    decreases k
  {
    hide CountByte, Number, Parallel, Load, WordAt;
    if k > 0 {
      SumStep(b, k);
      LanesStep(b, k);
      hide Sum, Lane;
      SumByLanes(b, k - 1);
    }
  }

  lemma {:induction false} SumStep(b: seq<bv8>, k: nat)
    requires 0 < k && 4 * k <= |b|
    ensures Sum(b, k) == Sum(b, k - 1) + CountByte(b[4 * k - 4]) + 0x100 * CountByte(b[4 * k - 3])
                         + 0x1_0000 * CountByte(b[4 * k - 2]) + 0x100_0000 * CountByte(b[4 * k - 1])
  {
    WordIs(b, k - 1);
    hide CountByte, Number, Parallel, Load, WordAt;
    ParallelNumber(b[4 * k - 4], b[4 * k - 3], b[4 * k - 2], b[4 * k - 1]);
  }

  lemma {:induction false} WordIs(b: seq<bv8>, k: nat)
    requires 4 * k + 4 <= |b|
    ensures WordAt(b, k) == Load(b[4 * k], b[4 * k + 1], b[4 * k + 2], b[4 * k + 3])
  {
  }

  lemma {:induction false} LanesStep(b: seq<bv8>, k: nat)
    requires 0 < k && 4 * k <= |b|
    ensures Lane(b, k, 0) == Lane(b, k - 1, 0) + CountByte(b[4 * k - 4])
    ensures Lane(b, k, 1) == Lane(b, k - 1, 1) + CountByte(b[4 * k - 3])
    ensures Lane(b, k, 2) == Lane(b, k - 1, 2) + CountByte(b[4 * k - 2])
    ensures Lane(b, k, 3) == Lane(b, k - 1, 3) + CountByte(b[4 * k - 1])
  {
    hide CountByte;
  }

  lemma {:induction false} LaneBound(b: seq<bv8>, k: nat, lane: nat)
    requires 4 * k <= |b| && lane < 4
    ensures Lane(b, k, lane) <= 8 * k
    decreases k
  {
    if k > 0 {
      LaneBound(b, k - 1, lane);
      CountAtMost8(b[4 * (k - 1) + lane]);
      hide CountByte;
    }
  }

  lemma {:induction false} CountAtMost8(b: bv8)
    ensures CountByte(b) <= 8
  {
  }

  lemma {:induction false} LanesCount(b: seq<bv8>, k: nat)
    requires 4 * k <= |b|
    ensures Lane(b, k, 0) + Lane(b, k, 1) + Lane(b, k, 2) + Lane(b, k, 3) == CountBits(b[..4 * k])
    decreases k
  {
    hide CountByte, Lane, CountBits;
    if k == 0 {
      NoLanes(b);
    } else {
      var i := 4 * (k - 1);
      LanesCount(b, k - 1);
      LanesStep(b, k);
      FourMore(b, i);
    }
  }

  lemma {:induction false} NoLanes(b: seq<bv8>)
    ensures Lane(b, 0, 0) + Lane(b, 0, 1) + Lane(b, 0, 2) + Lane(b, 0, 3) == CountBits(b[..0])
  {
  }

  lemma {:induction false} FourMore(b: seq<bv8>, i: nat)
    requires i + 4 <= |b|
    ensures CountBits(b[..i + 4]) == CountBits(b[..i]) + CountByte(b[i]) + CountByte(b[i + 1]) + CountByte(b[i + 2]) + CountByte(b[i + 3])
  {
    hide CountByte, CountBits;
    OneMoreByte(b, i);
    OneMoreByte(b, i + 1);
    OneMoreByte(b, i + 2);
    OneMoreByte(b, i + 3);
  }

  /** Seven words counted in parallel, their counts added up and gathered. */
  function Block(b: seq<bv8>): nat
    requires |b| == 28
  {
    var sum := Number(Parallel(WordAt(b, 0))) + Number(Parallel(WordAt(b, 1))) + Number(Parallel(WordAt(b, 2)))
               + Number(Parallel(WordAt(b, 3))) + Number(Parallel(WordAt(b, 4))) + Number(Parallel(WordAt(b, 5)))
               + Number(Parallel(WordAt(b, 6)));
    (((sum % UINT) * 0x01010101) % UINT) / 0x100_0000
  }

  lemma {:induction false} BlockCounts(b: seq<bv8>)
    requires |b| == 28
    ensures Block(b) == CountBits(b)
  {
    hide Number, Parallel, WordAt, CountBits, Lane;
    SevenWords(b);
    SumByLanes(b, 7);
    LaneBound(b, 7, 0);
    LaneBound(b, 7, 1);
    LaneBound(b, 7, 2);
    LaneBound(b, 7, 3);
    LanesCount(b, 7);
    assert b[..28] == b;
    GatherDigits(Sum(b, 7), Lane(b, 7, 0), Lane(b, 7, 1), Lane(b, 7, 2), Lane(b, 7, 3));
    SmallMod(Sum(b, 7));
    hide Sum;
  }

  lemma {:induction false} SmallMod(n: nat)
    requires n < UINT
    ensures n % UINT == n
  {
  }

  lemma {:induction false} SevenWords(b: seq<bv8>)
    requires |b| == 28
    ensures Block(b) == (((Sum(b, 7) % UINT) * 0x01010101) % UINT) / 0x100_0000
  {
    hide Number, Parallel, WordAt;
    assert Sum(b, 2) == Number(Parallel(WordAt(b, 0))) + Number(Parallel(WordAt(b, 1)));
    assert Sum(b, 4) == Sum(b, 2) + Number(Parallel(WordAt(b, 2))) + Number(Parallel(WordAt(b, 3)));
    assert Sum(b, 6) == Sum(b, 4) + Number(Parallel(WordAt(b, 4))) + Number(Parallel(WordAt(b, 5)));
    assert Sum(b, 7) == Sum(b, 6) + Number(Parallel(WordAt(b, 6)));
  }

  /** redisPopcount: bytes up to an aligned address, blocks of 28 bytes, and the bytes left. */
  method RedisPopcount(s: seq<bv8>, addr: nat) returns (bits: nat)
    ensures bits == CountBits(s)
  {
    hide CountByte, CountBits, Block;
    bits := 0;
    var p := 0;
    assert CountBits(s[..0]) == 0 by {
      CountNothing();
    }
    while (addr + p) % 4 != 0 && p < |s|
      invariant p <= |s| && bits == CountBits(s[..p])
      decreases |s| - p
    {
      OneMoreByte(s, p);
      bits := bits + CountByte(s[p]);
      p := p + 1;
    }
    while |s| - p >= 28
      invariant p <= |s| && bits == CountBits(s[..p])
    {
      BlockCounts(s[p..p + 28]);
      CountConcat(s[..p], s[p..p + 28]);
      assert s[..p] + s[p..p + 28] == s[..p + 28];
      bits := bits + Block(s[p..p + 28]);
      p := p + 28;
    }
    while p < |s|
      invariant p <= |s| && bits == CountBits(s[..p])
    {
      OneMoreByte(s, p);
      bits := bits + CountByte(s[p]);
      p := p + 1;
    }
    assert s[..p] == s;
  }

  lemma {:induction false} CountNothing()
    ensures CountBits([]) == 0
  {
  }

  lemma {:induction false} OneMoreByte(s: seq<bv8>, p: nat)
    requires p < |s|
    ensures CountBits(s[..p + 1]) == CountBits(s[..p]) + CountByte(s[p])
  {
    hide CountByte;
    assert s[..p + 1][..p] == s[..p];
  }
}
