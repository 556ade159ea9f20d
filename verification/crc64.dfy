/**
  CRC-64 of crc64.c and crcspeed.c: the bit-by-bit reference algorithm, the
  generation of the slice-by-8 tables, and the little-endian and big-endian
  table-driven loops.
 */
module Crc64 {

  const POLY: bv64 := 0xad93d23594c935a9
  /** POLY with its bits in reverse order. */
  const REFLECTED_POLY: bv64 := 0x95ac9329ac4bc9b5

  /** Exclusive or, under a name so that proofs can treat it as a black box. */
  function Xor(a: bv64, b: bv64): bv64 {
    a ^ b
  }

  lemma {:induction false} XorLaws(a: bv64, b: bv64, c: bv64)
    ensures Xor(a, Xor(b, c)) == Xor(Xor(a, b), c) && Xor(a, b) == Xor(b, a) && Xor(a, 0) == a && Xor(0, a) == a
  {
  }

  // ---------------------------------------------------------------- bit reversal

  /** The bits of a in reverse order, by swapping ever larger groups. */
  function Reverse64(a: bv64): bv64 {
    var b := ((a >> 1) & 0x5555555555555555) | ((a & 0x5555555555555555) << 1);
    var c := ((b >> 2) & 0x3333333333333333) | ((b & 0x3333333333333333) << 2);
    var d := ((c >> 4) & 0x0f0f0f0f0f0f0f0f) | ((c & 0x0f0f0f0f0f0f0f0f) << 4);
    var e := ((d >> 8) & 0x00ff00ff00ff00ff) | ((d & 0x00ff00ff00ff00ff) << 8);
    var f := ((e >> 16) & 0x0000ffff0000ffff) | ((e & 0x0000ffff0000ffff) << 16);
    (f >> 32) | (f << 32)
  }

  // The six swaps.

  function Swap1(a: bv64): bv64 { ((a >> 1) & 0x5555555555555555) | ((a & 0x5555555555555555) << 1) }
  function Swap2(a: bv64): bv64 { ((a >> 2) & 0x3333333333333333) | ((a & 0x3333333333333333) << 2) }
  function Swap4(a: bv64): bv64 { ((a >> 4) & 0x0f0f0f0f0f0f0f0f) | ((a & 0x0f0f0f0f0f0f0f0f) << 4) }
  function Swap8(a: bv64): bv64 { ((a >> 8) & 0x00ff00ff00ff00ff) | ((a & 0x00ff00ff00ff00ff) << 8) }
  function Swap16(a: bv64): bv64 { ((a >> 16) & 0x0000ffff0000ffff) | ((a & 0x0000ffff0000ffff) << 16) }
  function Swap32(a: bv64): bv64 { (a >> 32) | (a << 32) }

  lemma {:induction false} ReverseBySwaps(a: bv64)
    ensures Reverse64(a) == Swap32(Swap16(Swap8(Swap4(Swap2(Swap1(a))))))
  {
  }

  /** Bit i of a word, for i below 64. */
  function BitOf(a: bv64, i: bv64): bv64
    requires i < 64
  {
    (a >> i) & 1
  }

  lemma {:induction false} Swap1At(a: bv64, i: bv64)
    requires i < 64
    ensures i ^ 1 < 64 && BitOf(Swap1(a), i) == BitOf(a, i ^ 1)
  {
  }

  lemma {:induction false} Swap2At(a: bv64, i: bv64)
    requires i < 64
    ensures i ^ 2 < 64 && BitOf(Swap2(a), i) == BitOf(a, i ^ 2)
  {
  }

  lemma {:induction false} Swap4At(a: bv64, i: bv64)
    requires i < 64
    ensures i ^ 4 < 64 && BitOf(Swap4(a), i) == BitOf(a, i ^ 4)
  {
  }

  lemma {:induction false} Swap8At(a: bv64, i: bv64)
    requires i < 64
    ensures i ^ 8 < 64 && BitOf(Swap8(a), i) == BitOf(a, i ^ 8)
  {
  }

  lemma {:induction false} Swap16At(a: bv64, i: bv64)
    requires i < 64
    ensures i ^ 16 < 64 && BitOf(Swap16(a), i) == BitOf(a, i ^ 16)
  {
  }

  lemma {:induction false} Swap32At(a: bv64, i: bv64)
    requires i < 64
    ensures i ^ 32 < 64 && BitOf(Swap32(a), i) == BitOf(a, i ^ 32)
  {
  }

  lemma {:induction false} AllFlipped(i: bv64)
    requires i < 64
    ensures ((((i ^ 32) ^ 16) ^ 8) ^ 4) ^ 2 < 64
    ensures (((((i ^ 32) ^ 16) ^ 8) ^ 4) ^ 2) ^ 1 == 63 - i
  {
  }

  /** Bit i of the reversal is bit 63 - i of the original. */
  lemma {:induction false} Reverse64At(a: bv64, i: bv64)
    requires i < 64
    ensures BitOf(Reverse64(a), i) == BitOf(a, 63 - i)
  {
    hide Reverse64, BitOf, Swap1, Swap2, Swap4, Swap8, Swap16, Swap32;
    ReverseBySwaps(a);
    AllFlipped(i);
    Swap32At(Swap16(Swap8(Swap4(Swap2(Swap1(a))))), i);
    Swap16At(Swap8(Swap4(Swap2(Swap1(a)))), i ^ 32);
    Swap8At(Swap4(Swap2(Swap1(a))), (i ^ 32) ^ 16);
    Swap4At(Swap2(Swap1(a)), ((i ^ 32) ^ 16) ^ 8);
    Swap2At(Swap1(a), (((i ^ 32) ^ 16) ^ 8) ^ 4);
    Swap1At(a, ((((i ^ 32) ^ 16) ^ 8) ^ 4) ^ 2);
  }

  function Push(r: bv64, d: bv64): bv64 { (r << 1) | (d & 0x01) }
  function Halve(d: bv64): bv64 { d >> 1 }

  /** Move the n lowest bits of d into r, one by one: each bit pushes the earlier ones to the left. */
  function Gather(r: bv64, d: bv64, n: nat): bv64
    decreases n
  {
    if n == 0 then r else Gather(Push(r, d), Halve(d), n - 1)
  }

  // Pushing 2, 4, 8, 16 and 32 bits at once.
  function Push2(r: bv64, d: bv64): bv64 { (r << 2) | ((d & 1) << 1) | ((d & 2) >> 1) }
  function Push4(r: bv64, d: bv64): bv64 {
    (r << 4) | ((d & 1) << 3) | ((d & 2) << 1) | ((d & 4) >> 1) | ((d & 8) >> 3)
  }
  function Push8(r: bv64, d: bv64): bv64 { (r << 8) | (Reverse64(d & 0xff) >> 56) }
  function Push16(r: bv64, d: bv64): bv64 { (r << 16) | (Reverse64(d & 0xffff) >> 48) }
  function Push32(r: bv64, d: bv64): bv64 { (r << 32) | (Reverse64(d & 0xffffffff) >> 32) }
  function Halve2(d: bv64): bv64 { d >> 2 }
  function Halve4(d: bv64): bv64 { d >> 4 }
  function Halve8(d: bv64): bv64 { d >> 8 }
  function Halve16(d: bv64): bv64 { d >> 16 }
  function Halve32(d: bv64): bv64 { d >> 32 }

  lemma {:induction false} PushTwice2(r: bv64, d: bv64)
    ensures Push(Push(r, d), Halve(d)) == Push2(r, d) && Halve(Halve(d)) == Halve2(d)
  {
  }

  lemma {:induction false} PushTwice4(r: bv64, d: bv64)
    ensures Push2(Push2(r, d), Halve2(d)) == Push4(r, d) && Halve2(Halve2(d)) == Halve4(d)
  {
  }

  lemma {:induction false} PushTwice8(r: bv64, d: bv64)
    ensures Push4(Push4(r, d), Halve4(d)) == Push8(r, d) && Halve4(Halve4(d)) == Halve8(d)
  {
  }

  lemma {:induction false} PushTwice16(r: bv64, d: bv64)
    ensures Push8(Push8(r, d), Halve8(d)) == Push16(r, d) && Halve8(Halve8(d)) == Halve16(d)
  {
  }

  lemma {:induction false} PushTwice32(r: bv64, d: bv64)
    ensures Push16(Push16(r, d), Halve16(d)) == Push32(r, d) && Halve16(Halve16(d)) == Halve32(d)
  {
  }

  lemma {:induction false} PushTwice64(r: bv64, d: bv64)
    ensures Push32(Push32(r, d), Halve32(d)) == Reverse64(d)
  {
  }

  lemma {:induction false} Gather2(r: bv64, d: bv64, n: nat)
    ensures Gather(r, d, n + 2) == Gather(Push2(r, d), Halve2(d), n)
  {
    PushTwice2(r, d);
    hide Push, Halve, Push2, Halve2, Push4, Push8, Push16, Push32, Reverse64;
    assert Gather(r, d, n + 2) == Gather(Push(r, d), Halve(d), n + 1);
  }

  lemma {:induction false} Gather4(r: bv64, d: bv64, n: nat)
    ensures Gather(r, d, n + 4) == Gather(Push4(r, d), Halve4(d), n)
  {
    PushTwice4(r, d);
    hide Gather, Push, Halve, Push2, Halve2, Push4, Halve4, Push8, Halve8, Push16, Halve16, Push32, Halve32, Reverse64;
    Gather2(r, d, n + 2);
    Gather2(Push2(r, d), Halve2(d), n);
  }

  lemma {:induction false} Gather8(r: bv64, d: bv64, n: nat)
    ensures Gather(r, d, n + 8) == Gather(Push8(r, d), Halve8(d), n)
  {
    PushTwice8(r, d);
    hide Gather, Push, Halve, Push2, Halve2, Push4, Halve4, Push8, Halve8, Push16, Halve16, Push32, Halve32, Reverse64;
    Gather4(r, d, n + 4);
    Gather4(Push4(r, d), Halve4(d), n);
  }

  lemma {:induction false} Gather16(r: bv64, d: bv64, n: nat)
    ensures Gather(r, d, n + 16) == Gather(Push16(r, d), Halve16(d), n)
  {
    PushTwice16(r, d);
    hide Gather, Push, Halve, Push2, Halve2, Push4, Halve4, Push8, Halve8, Push16, Halve16, Push32, Halve32, Reverse64;
    Gather8(r, d, n + 8);
    Gather8(Push8(r, d), Halve8(d), n);
  }

  lemma {:induction false} Gather32(r: bv64, d: bv64, n: nat)
    ensures Gather(r, d, n + 32) == Gather(Push32(r, d), Halve32(d), n)
  {
    PushTwice32(r, d);
    hide Gather, Push, Halve, Push2, Halve2, Push4, Halve4, Push8, Halve8, Push16, Halve16, Push32, Halve32, Reverse64;
    Gather16(r, d, n + 16);
    Gather16(Push16(r, d), Halve16(d), n);
  }

  /** Gathering all 64 bits reverses the word. */
  lemma {:induction false} GatherAll(d: bv64)
    ensures Gather(0, d, 64) == Reverse64(d)
  {
    PushTwice64(0, d);
    hide Push, Halve, Push2, Push4, Push8, Push16, Push32, Halve32, Reverse64;
    Gather32(0, d, 32);
    Gather32(Push32(0, d), Halve32(d), 0);
  }

  /** crc_reflect: the lowest `width` bits of data, reversed. */
  method CrcReflect(data: bv64, width: nat) returns (r: bv64)
    requires 1 <= width
    ensures r == Gather(0, data, width)
  {
    var d := data;
    r := d & 0x01;
    assert Push(0, d) == r;
    for i := 1 to width
      invariant Gather(r, Halve(d), width - i) == Gather(0, data, width)
    {
      d := d >> 1;
      r := (r << 1) | (d & 0x01);
    }
  }

  // ---------------------------------------------------------------- the reference algorithm

  // The pieces of one bit of the reference loop, and of the same step on a reflected register.
  predicate TopSet(crc: bv64) { crc & 0x8000000000000000 != 0 }
  function ShiftLeft(crc: bv64): bv64 { crc << 1 }
  function AddPoly(crc: bv64): bv64 { crc ^ POLY }
  predicate LowSet(crc: bv64) { crc & 1 == 1 }
  function ShiftRight(crc: bv64): bv64 { crc >> 1 }
  function AddReflectedPoly(crc: bv64): bv64 { crc ^ REFLECTED_POLY }

  /** One bit of the reference loop: the register shifts left, the message bit meets its top bit. */
  function MsbBit(crc: bv64, bit: bool): bv64 {
    if TopSet(crc) != bit then AddPoly(ShiftLeft(crc)) else ShiftLeft(crc)
  }

  /** The same step on a reflected register: it shifts right, the message bit meets its bottom bit. */
  function LsbBit(crc: bv64, bit: bool): bv64 {
    if LowSet(crc) != bit then AddReflectedPoly(ShiftRight(crc)) else ShiftRight(crc)
  }

  lemma {:induction false} ReverseShift(a: bv64)
    ensures Reverse64(ShiftLeft(a)) == ShiftRight(Reverse64(a)) && TopSet(a) == LowSet(Reverse64(a))
  {
  }

  lemma {:induction false} ReverseAddPoly(a: bv64)
    ensures Reverse64(AddPoly(a)) == AddReflectedPoly(Reverse64(a))
  {
  }

  lemma {:induction false} BitStepsMirror(crc: bv64, bit: bool)
    ensures Reverse64(MsbBit(crc, bit)) == LsbBit(Reverse64(crc), bit)
  {
    hide Reverse64, TopSet, LowSet, ShiftLeft, AddPoly, ShiftRight, AddReflectedPoly;
    ReverseShift(crc);
    ReverseAddPoly(ShiftLeft(crc));
  }

  /** The message bits of c selected by i, 2i, 4i, ... up to the top bit, in that order. */
  function LsbBits(crc: bv64, c: bv8, i: bv8): bv64
    decreases i != 0, 255 - i
  {
    if i == 0 then crc
    else if i == 128 then LsbBit(crc, c & i != 0)
    else if i <= 64 then LsbBits(LsbBit(crc, c & i != 0), c, i << 1)
    else LsbBit(crc, c & i != 0)
  }

  /** The reflected register after one byte of input. */
  function LsbByte(crc: bv64, c: bv8): bv64 {
    LsbBits(crc, c, 1)
  }

  /** The CRC of a message continued from crc: the meaning of crc64(crc, s, l). */
  function Fold(crc: bv64, data: seq<bv8>): bv64
    decreases |data|
  {
    if data == [] then crc else Fold(LsbByte(crc, data[0]), data[1..])
  }

  /** The CRC of a concatenation is the CRC of the first part continued over the second. */
  lemma {:induction false} FoldConcat(crc: bv64, a: seq<bv8>, b: seq<bv8>)
    ensures Fold(crc, a + b) == Fold(Fold(crc, a), b)
    decreases |a|
  {
    if a == [] {
      assert a + b == b;
    } else {
      assert (a + b)[1..] == a[1..] + b;
      FoldConcat(LsbByte(crc, a[0]), a[1..], b);
    }
  }

  lemma {:induction false} FoldSnoc(crc: bv64, a: seq<bv8>, c: bv8)
    ensures Fold(crc, a + [c]) == LsbByte(Fold(crc, a), c)
  {
    FoldConcat(crc, a, [c]);
    assert Fold(Fold(crc, a), [c]) == LsbByte(Fold(crc, a), c) by {
      assert [c][1..] == [];
    }
  }

  /** The inner loop of _crc64: the eight bits of one byte, lowest first. */
  method MsbByte(crc0: bv64, c: bv8) returns (crc: bv64)
    ensures Reverse64(crc) == LsbByte(Reverse64(crc0), c)
  {
    assert LsbByte(Reverse64(crc0), c) == LsbBits(Reverse64(crc0), c, 1);
    hide Reverse64, LsbBit, MsbBit, LsbBits, LsbByte;
    crc := crc0;
    var i: bv8 := 1;
    while i != 0
      invariant i == 0 || i == 1 || i == 2 || i == 4 || i == 8 || i == 16 || i == 32 || i == 64 || i == 128
      invariant LsbBits(Reverse64(crc), c, i) == LsbByte(Reverse64(crc0), c)
      decreases i != 0, 255 - i
    {
      BitStepsMirror(crc, c & i != 0);
      LsbBitsStep(Reverse64(crc), c, i);
      crc := MsbStep(crc, c & i != 0);
      i := i << 1;
    }
  }

  /** One turn of the loop over the bits of a byte. */
  method MsbStep(crc0: bv64, on: bool) returns (crc: bv64)
    ensures crc == MsbBit(crc0, on)
  {
    var bit := crc0 & 0x8000000000000000 != 0;
    if on {
      bit := !bit;
    }
    crc := crc0 << 1;
    if bit {
      crc := crc ^ POLY;
    }
  }

  lemma {:induction false} LsbBitsStep(crc: bv64, c: bv8, i: bv8)
    requires i == 1 || i == 2 || i == 4 || i == 8 || i == 16 || i == 32 || i == 64 || i == 128
    ensures LsbBits(crc, c, i) == LsbBits(LsbBit(crc, c & i != 0), c, i << 1)
  {
    hide LsbBit;
  }

  /** _crc64: bit by bit, most significant bit first, reflected at the end. */
  method Crc64Bitwise(crc0: bv64, data: seq<bv8>) returns (r: bv64)
    ensures r == Fold(Reverse64(crc0), data)
  {
    hide Gather, Reverse64, LsbByte;
    var crc := crc0;
    for offset := 0 to |data|
      invariant Reverse64(crc) == Fold(Reverse64(crc0), data[..offset])
    {
      assert data[..offset + 1] == data[..offset] + [data[offset]];
      FoldSnoc(Reverse64(crc0), data[..offset], data[offset]);
      crc := MsbByte(crc, data[offset]);
    }
    assert data[..|data|] == data;
    r := CrcReflect(crc, 64);
    GatherAll(crc);
  }

  // ---------------------------------------------------------------- the table algebra

  function Shift1(x: bv64): bv64 {
    LsbBit(x, false)
  }

  lemma {:induction false} LowSetXor(x: bv64, y: bv64)
    ensures LowSet(Xor(x, y)) == (LowSet(x) != LowSet(y))
  {
  }

  lemma {:induction false} ShiftRightXor(x: bv64, y: bv64)
    ensures ShiftRight(Xor(x, y)) == Xor(ShiftRight(x), ShiftRight(y))
  {
  }

  lemma {:induction false} PolyXor(x: bv64)
    ensures AddReflectedPoly(x) == Xor(x, REFLECTED_POLY) && Xor(x, x) == 0
  {
  }

  /** Exclusive ors rearranged, a pair of equal operands cancelling. */
  lemma {:induction false} XorMoves(a: bv64, b: bv64, p: bv64)
    ensures Xor(Xor(a, p), Xor(b, p)) == Xor(a, b)
    ensures Xor(Xor(a, b), p) == Xor(Xor(a, p), b) == Xor(a, Xor(b, p))
  {
    PolyXor(p);
    hide Xor;
    XorLaws(a, b, p);
    XorLaws(a, p, b);
    XorLaws(Xor(a, p), p, b);
    XorLaws(a, p, p);
    XorLaws(b, p, p);
  }

  /** One step with message bit b: fold the bit into the register first, or the rest of the byte afterwards. */
  lemma {:induction false} OneBit(x: bv64, y: bv64)
    ensures Shift1(Xor(x, y)) == Xor(LsbBit(x, LowSet(y)), ShiftRight(y))
  {
    LowSetXor(x, y);
    ShiftRightXor(x, y);
    PolyXor(Xor(ShiftRight(x), ShiftRight(y)));
    PolyXor(ShiftRight(x));
    XorMoves(ShiftRight(x), ShiftRight(y), REFLECTED_POLY);
    hide Xor, LowSet, ShiftRight, AddReflectedPoly;
  }

  lemma {:induction false} Shift1Xor(x: bv64, y: bv64)
    ensures Shift1(Xor(x, y)) == Xor(Shift1(x), Shift1(y))
  {
    LowSetXor(x, y);
    ShiftRightXor(x, y);
    PolyXor(Xor(ShiftRight(x), ShiftRight(y)));
    PolyXor(ShiftRight(x));
    PolyXor(ShiftRight(y));
    XorMoves(ShiftRight(x), ShiftRight(y), REFLECTED_POLY);
    hide Xor, LowSet, ShiftRight, AddReflectedPoly;
  }

  function Shift2(x: bv64): bv64 { Shift1(Shift1(x)) }
  function Shift4(x: bv64): bv64 { Shift2(Shift2(x)) }
  /** Eight steps without input. */
  function Shift8(x: bv64): bv64 { Shift4(Shift4(x)) }

  lemma {:induction false} Shift8Xor(x: bv64, y: bv64)
    ensures Shift8(Xor(x, y)) == Xor(Shift8(x), Shift8(y))
  {
    hide Xor, Shift2;
    Shift2Xor(x, y);
    Shift2Xor(Shift2(x), Shift2(y));
    Shift2Xor(Shift4(x), Shift4(y));
    Shift2Xor(Shift2(Shift4(x)), Shift2(Shift4(y)));
  }

  lemma {:induction false} Shift2Xor(x: bv64, y: bv64)
    ensures Shift2(Xor(x, y)) == Xor(Shift2(x), Shift2(y))
  {
    hide Xor, Shift1;
    Shift1Xor(x, y);
    Shift1Xor(Shift1(x), Shift1(y));
  }

  /** The low byte of x, and the other bytes one place down. */
  function Low(x: bv64): bv64 { x & 0xff }
  function Rest(x: bv64): bv64 { x >> 8 }
  function Up(x: bv64): bv64 { x << 8 }

  lemma {:induction false} Split(x: bv64)
    ensures x == Xor(Low(x), Up(Rest(x)))
  {
  }

  lemma {:induction false} Shift8Up(x: bv64)
    ensures Shift8(Up(Rest(x))) == Rest(x)
  {
    hide Shift2, Up2, Up4, Up6;
    Shift2Up8(x);
    Shift2Up6(x);
    Shift2Up4(x);
    Shift2Up2(x);
  }

  // The other bytes of x, two, four and six bits up.
  function Up2(x: bv64): bv64 { (x >> 8) << 2 }
  function Up4(x: bv64): bv64 { (x >> 8) << 4 }
  function Up6(x: bv64): bv64 { (x >> 8) << 6 }

  lemma {:induction false} Shift2Up8(x: bv64)
    ensures Shift2(Up(Rest(x))) == Up6(x)
  {
  }

  lemma {:induction false} Shift2Up6(x: bv64)
    ensures Shift2(Up6(x)) == Up4(x)
  {
  }

  lemma {:induction false} Shift2Up4(x: bv64)
    ensures Shift2(Up4(x)) == Up2(x)
  {
  }

  lemma {:induction false} Shift2Up2(x: bv64)
    ensures Shift2(Up2(x)) == Rest(x)
  {
  }

  /** The table lookup step: eight shifts are the table entry of the low byte and the rest of the register. */
  lemma {:induction false} Shift8Split(x: bv64)
    ensures Shift8(x) == Xor(Shift8(Low(x)), Rest(x))
  {
    hide Xor, Low, Rest, Up, Shift8;
    Split(x);
    Shift8Xor(Low(x), Up(Rest(x)));
    Shift8Up(x);
  }

  /** n rounds of eight shifts. */
  function Rounds(n: nat, x: bv64): bv64
    decreases n
  {
    if n == 0 then x else Rounds(n - 1, Shift8(x))
  }

  lemma {:induction false} RoundsXor(n: nat, x: bv64, y: bv64)
    ensures Rounds(n, Xor(x, y)) == Xor(Rounds(n, x), Rounds(n, y))
    decreases n
  {
    hide Xor, Shift8;
    if n > 0 {
      Shift8Xor(x, y);
      RoundsXor(n - 1, Shift8(x), Shift8(y));
    }
  }

  /** The sum of the slice-by-8 lookups, one byte at a time. */
  lemma {:induction false} RoundsSplit(n: nat, x: bv64)
    requires n > 0
    ensures Rounds(n, x) == Xor(Rounds(n, Low(x)), Rounds(n - 1, Rest(x)))
  {
    hide Xor, Low, Rest, Shift8;
    Shift8Split(x);
    RoundsXor(n - 1, Shift8(Low(x)), Rest(x));
  }

  // ---------------------------------------------------------------- bytes

  function Wide(c: bv8): bv64 {
    c as bv64
  }

  lemma {:induction false} BitsOfByte(c: bv8)
    ensures (c & 1 != 0) == LowSet(Wide(c)) && (c & 2 != 0) == LowSet(Wide(c) >> 1)
    ensures (c & 4 != 0) == LowSet(Wide(c) >> 2)
    ensures (c & 8 != 0) == LowSet(Wide(c) >> 3) && (c & 16 != 0) == LowSet(Wide(c) >> 4)
    ensures (c & 32 != 0) == LowSet(Wide(c) >> 5)
    ensures (c & 64 != 0) == LowSet(Wide(c) >> 6) && (c & 128 != 0) == LowSet(Wide(c) >> 7)
    ensures ShiftRight(Wide(c)) == Wide(c) >> 1 && ShiftRight(Wide(c) >> 1) == Wide(c) >> 2
    ensures ShiftRight(Wide(c) >> 2) == Wide(c) >> 3
    ensures ShiftRight(Wide(c) >> 3) == Wide(c) >> 4 && ShiftRight(Wide(c) >> 4) == Wide(c) >> 5
    ensures ShiftRight(Wide(c) >> 5) == Wide(c) >> 6
    ensures ShiftRight(Wide(c) >> 6) == Wide(c) >> 7 && ShiftRight(Wide(c) >> 7) == 0
  {
  }

  lemma {:induction false} LsbByteUnrolled(crc: bv64, c: bv8)
    ensures LsbByte(crc, c) ==
            LsbBit(LsbBit(LsbBit(LsbBit(LsbBit(LsbBit(LsbBit(LsbBit(crc,
              c & 1 != 0), c & 2 != 0), c & 4 != 0), c & 8 != 0), c & 16 != 0), c & 32 != 0), c & 64 != 0), c & 128 != 0)
  {
    hide LsbBit;
    var x1 := LsbBit(crc, c & 1 != 0);
    assert LsbBits(crc, c, 1) == LsbBits(x1, c, 2);
    var x2 := LsbBit(x1, c & 2 != 0);
    assert LsbBits(x1, c, 2) == LsbBits(x2, c, 4);
    var x3 := LsbBit(x2, c & 4 != 0);
    assert LsbBits(x2, c, 4) == LsbBits(x3, c, 8);
    var x4 := LsbBit(x3, c & 8 != 0);
    assert LsbBits(x3, c, 8) == LsbBits(x4, c, 16);
    var x5 := LsbBit(x4, c & 16 != 0);
    assert LsbBits(x4, c, 16) == LsbBits(x5, c, 32);
    var x6 := LsbBit(x5, c & 32 != 0);
    assert LsbBits(x5, c, 32) == LsbBits(x6, c, 64);
    var x7 := LsbBit(x6, c & 64 != 0);
    assert LsbBits(x6, c, 64) == LsbBits(x7, c, 128);
  }

  /** Consuming a byte is xoring it into the register and shifting eight times. */
  lemma {:induction false} ByteIsShift8(crc: bv64, c: bv8)
    ensures LsbByte(crc, c) == Shift8(Xor(crc, Wide(c)))
  {
    hide LsbByte, LsbBit, Xor, Wide, Shift1;
    LsbByteUnrolled(crc, c);
    var w := Wide(c);
    var w1, w2, w3, w4, w5, w6, w7 := ShiftRight(w), w >> 2, w >> 3, w >> 4, w >> 5, w >> 6, w >> 7;
    BitsOfByte(c);
    hide LowSet, ShiftRight;
    var x1 := LsbBit(crc, c & 1 != 0);
    OneBit(crc, w);
    var x2 := LsbBit(x1, c & 2 != 0);
    OneBit(x1, w1);
    var x3 := LsbBit(x2, c & 4 != 0);
    OneBit(x2, w2);
    var x4 := LsbBit(x3, c & 8 != 0);
    OneBit(x3, w3);
    var x5 := LsbBit(x4, c & 16 != 0);
    OneBit(x4, w4);
    var x6 := LsbBit(x5, c & 32 != 0);
    OneBit(x5, w5);
    var x7 := LsbBit(x6, c & 64 != 0);
    OneBit(x6, w6);
    var x8 := LsbBit(x7, c & 128 != 0);
    OneBit(x7, w7);
    XorLaws(x8, 0, 0);
  }

  /** The 64-bit word a little-endian machine loads from eight bytes. */
  function Load(b0: bv8, b1: bv8, b2: bv8, b3: bv8, b4: bv8, b5: bv8, b6: bv8, b7: bv8): bv64 {
    (b0 as bv64) | ((b1 as bv64) << 8) | ((b2 as bv64) << 16) | ((b3 as bv64) << 24)
    | ((b4 as bv64) << 32) | ((b5 as bv64) << 40) | ((b6 as bv64) << 48) | ((b7 as bv64) << 56)
  }

  lemma {:induction false} LoadSplit(b0: bv8, b1: bv8, b2: bv8, b3: bv8, b4: bv8, b5: bv8, b6: bv8, b7: bv8)
    ensures Low(Load(b0, b1, b2, b3, b4, b5, b6, b7)) == Wide(b0)
    ensures Rest(Load(b0, b1, b2, b3, b4, b5, b6, b7)) == Load(b1, b2, b3, b4, b5, b6, b7, 0)
  {
  }

  /** Eight shifts of a register xored with a word consume the lowest byte of the word. */
  lemma {:induction false} AbsorbByte(x: bv64, b0: bv8, b1: bv8, b2: bv8, b3: bv8, b4: bv8, b5: bv8, b6: bv8, b7: bv8)
    ensures Shift8(Xor(x, Load(b0, b1, b2, b3, b4, b5, b6, b7))) == Xor(LsbByte(x, b0), Load(b1, b2, b3, b4, b5, b6, b7, 0))
  {
    hide Xor, Low, Rest, Up, Shift8, Load, Wide, LsbByte;
    var w := Load(b0, b1, b2, b3, b4, b5, b6, b7);
    LoadSplit(b0, b1, b2, b3, b4, b5, b6, b7);
    Split(w);
    XorLaws(x, Low(w), Up(Rest(w)));
    Shift8Xor(Xor(x, Low(w)), Up(Rest(w)));
    Shift8Up(w);
    ByteIsShift8(x, b0);
  }

  /** Consuming eight bytes is xoring them in as one word and shifting 64 times. */
  lemma {:induction false} EightBytes(crc: bv64, b0: bv8, b1: bv8, b2: bv8, b3: bv8, b4: bv8, b5: bv8, b6: bv8, b7: bv8)
    ensures Fold(crc, [b0, b1, b2, b3, b4, b5, b6, b7]) == Rounds(8, Xor(crc, Load(b0, b1, b2, b3, b4, b5, b6, b7)))
  {
    assert Load(0, 0, 0, 0, 0, 0, 0, 0) == 0;
    hide Xor, Shift8, Load, LsbByte;
    var x1 := LsbByte(crc, b0);
    AbsorbByte(crc, b0, b1, b2, b3, b4, b5, b6, b7);
    var x2 := LsbByte(x1, b1);
    AbsorbByte(x1, b1, b2, b3, b4, b5, b6, b7, 0);
    var x3 := LsbByte(x2, b2);
    AbsorbByte(x2, b2, b3, b4, b5, b6, b7, 0, 0);
    var x4 := LsbByte(x3, b3);
    AbsorbByte(x3, b3, b4, b5, b6, b7, 0, 0, 0);
    var x5 := LsbByte(x4, b4);
    AbsorbByte(x4, b4, b5, b6, b7, 0, 0, 0, 0);
    var x6 := LsbByte(x5, b5);
    AbsorbByte(x5, b5, b6, b7, 0, 0, 0, 0, 0);
    var x7 := LsbByte(x6, b6);
    AbsorbByte(x6, b6, b7, 0, 0, 0, 0, 0, 0);
    var x8 := LsbByte(x7, b7);
    AbsorbByte(x7, b7, 0, 0, 0, 0, 0, 0, 0);
    XorLaws(x8, 0, 0);
    FoldEight(crc, [b0, b1, b2, b3, b4, b5, b6, b7]);
    RoundsEight(Xor(crc, Load(b0, b1, b2, b3, b4, b5, b6, b7)));
  }

  lemma {:induction false} FoldFour(crc: bv64, b0: bv8, b1: bv8, b2: bv8, b3: bv8)
    ensures Fold(crc, [b0, b1, b2, b3]) == LsbByte(LsbByte(LsbByte(LsbByte(crc, b0), b1), b2), b3)
  {
    hide LsbByte;
    assert [b0, b1, b2, b3][1..] == [b1, b2, b3] && [b1, b2, b3][1..] == [b2, b3] && [b2, b3][1..] == [b3] && [b3][1..] == [];
    var x1 := LsbByte(crc, b0);
    var x2 := LsbByte(x1, b1);
    var x3 := LsbByte(x2, b2);
    assert Fold(crc, [b0, b1, b2, b3]) == Fold(x1, [b1, b2, b3]) == Fold(x2, [b2, b3]);
    assert Fold(x2, [b2, b3]) == Fold(x3, [b3]);
    assert Fold(x3, [b3]) == Fold(LsbByte(x3, b3), []);
  }

  lemma {:induction false} FoldEight(crc: bv64, b: seq<bv8>)
    requires |b| == 8
    ensures Fold(crc, b) == LsbByte(LsbByte(LsbByte(LsbByte(LsbByte(LsbByte(LsbByte(LsbByte(
              crc, b[0]), b[1]), b[2]), b[3]), b[4]), b[5]), b[6]), b[7])
  {
    hide LsbByte, Fold;
    FoldFour(crc, b[0], b[1], b[2], b[3]);
    FoldFour(Fold(crc, b[..4]), b[4], b[5], b[6], b[7]);
    FoldConcat(crc, b[..4], b[4..]);
    assert b[..4] == [b[0], b[1], b[2], b[3]] && b[4..] == [b[4], b[5], b[6], b[7]] && b[..4] + b[4..] == b;
  }

  lemma {:induction false} RoundsEight(x: bv64)
    ensures Rounds(8, x) == Shift8(Shift8(Shift8(Shift8(Shift8(Shift8(Shift8(Shift8(x))))))))
  {
    hide Shift8;
    assert Rounds(8, x) == Rounds(6, Shift8(Shift8(x)));
    var y := Shift8(Shift8(x));
    assert Rounds(6, y) == Rounds(4, Shift8(Shift8(y)));
    var z := Shift8(Shift8(y));
    assert Rounds(4, z) == Rounds(2, Shift8(Shift8(z)));
    var u := Shift8(Shift8(z));
    assert Rounds(2, u) == Rounds(0, Shift8(Shift8(u)));
  }

  /** The eight lookups of the fast loop, in the order the source adds them up. */
  function Sum8(e7: bv64, e6: bv64, e5: bv64, e4: bv64, e3: bv64, e2: bv64, e1: bv64, e0: bv64): bv64 {
    Xor(Xor(Xor(Xor(Xor(Xor(Xor(e7, e6), e5), e4), e3), e2), e1), e0)
  }

  function Lookups(x: bv64): bv64 {
    Sum8(Rounds(8, Low(x)), Rounds(7, Low(x >> 8)), Rounds(6, Low(x >> 16)), Rounds(5, Low(x >> 24)),
         Rounds(4, Low(x >> 32)), Rounds(3, Low(x >> 40)), Rounds(2, Low(x >> 48)), Rounds(1, Low(x >> 56)))
  }

  lemma {:induction false} RestShifts(x: bv64)
    ensures Rest(x) == x >> 8 && Rest(x >> 8) == x >> 16 && Rest(x >> 16) == x >> 24 && Rest(x >> 24) == x >> 32
    ensures Rest(x >> 32) == x >> 40 && Rest(x >> 40) == x >> 48 && Rest(x >> 48) == x >> 56 && Rest(x >> 56) == 0
  {
  }

  lemma {:induction false} RoundsZero(n: nat)
    ensures Rounds(n, 0) == 0
    decreases n
  {
    assert Shift8(0) == 0;
    hide Shift8;
    if n > 0 {
      RoundsZero(n - 1);
    }
  }

  /** One more byte moved from the rest of the register into the sum. */
  lemma {:induction false} OneMoreLookup(sum: bv64, n: nat, x: bv64)
    requires n > 0
    ensures Xor(sum, Rounds(n, x)) == Xor(Xor(sum, Rounds(n, Low(x))), Rounds(n - 1, Rest(x)))
  {
    hide Xor, Low, Rest, Rounds;
    RoundsSplit(n, x);
    XorLaws(sum, Rounds(n, Low(x)), Rounds(n - 1, Rest(x)));
  }

  lemma {:induction false} LookupsAreRounds(x: bv64)
    ensures Lookups(x) == Rounds(8, x)
  {
    RestShifts(x);
    hide Xor, Low, Rest, Rounds;
    RoundsSplit(8, x);
    var s7 := Rounds(8, Low(x));
    OneMoreLookup(s7, 7, x >> 8);
    var s6 := Xor(s7, Rounds(7, Low(x >> 8)));
    OneMoreLookup(s6, 6, x >> 16);
    var s5 := Xor(s6, Rounds(6, Low(x >> 16)));
    OneMoreLookup(s5, 5, x >> 24);
    var s4 := Xor(s5, Rounds(5, Low(x >> 24)));
    OneMoreLookup(s4, 4, x >> 32);
    var s3 := Xor(s4, Rounds(4, Low(x >> 32)));
    OneMoreLookup(s3, 3, x >> 40);
    var s2 := Xor(s3, Rounds(3, Low(x >> 40)));
    OneMoreLookup(s2, 2, x >> 48);
    var s1 := Xor(s2, Rounds(2, Low(x >> 48)));
    OneMoreLookup(s1, 1, x >> 56);
    RoundsZero(0);
    XorLaws(Xor(s1, Rounds(1, Low(x >> 56))), 0, 0);
  }
}
