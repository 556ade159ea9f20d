/** The check value that crc64.c states for its polynomial, computed by hand. */
module Crc64Check {
  import opened Crc64
  import opened Crc64Tables

  lemma {:induction false} AfterOne()
    ensures LsbByte(0, 0x31) == 0xfdc17184a9f739fa
  {
    LsbByteUnrolled(0, 0x31);
    hide LsbByte;
  }

  lemma {:induction false} AfterTwo()
    ensures LsbByte(0xfdc17184a9f739fa, 0x32) == 0xe10364513a98ed96
  {
    LsbByteUnrolled(0xfdc17184a9f739fa, 0x32);
    hide LsbByte;
  }

  lemma {:induction false} AfterThree()
    ensures LsbByte(0xe10364513a98ed96, 0x33) == 0xd5bcfb814479b1ac
  {
    LsbByteUnrolled(0xe10364513a98ed96, 0x33);
    hide LsbByte;
  }

  lemma {:induction false} AfterFour()
    ensures LsbByte(0xd5bcfb814479b1ac, 0x34) == 0x43593c5dcda521f0
  {
    LsbByteUnrolled(0xd5bcfb814479b1ac, 0x34);
    hide LsbByte;
  }

  lemma {:induction false} AfterFive()
    ensures LsbByte(0x43593c5dcda521f0, 0x35) == 0xf0758513239c7e0d
  {
    LsbByteUnrolled(0x43593c5dcda521f0, 0x35);
    hide LsbByte;
  }

  lemma {:induction false} AfterSix()
    ensures LsbByte(0xf0758513239c7e0d, 0x36) == 0xa3a90925b2ab4903
  {
    LsbByteUnrolled(0xf0758513239c7e0d, 0x36);
    hide LsbByte;
  }

  lemma {:induction false} AfterSeven()
    ensures LsbByte(0xa3a90925b2ab4903, 0x37) == 0x47824d362431ad45
  {
    LsbByteUnrolled(0xa3a90925b2ab4903, 0x37);
    hide LsbByte;
  }

  lemma {:induction false} AfterEight()
    ensures LsbByte(0x47824d362431ad45, 0x38) == 0x49ec20b315e86dc2
  {
    LsbByteUnrolled(0x47824d362431ad45, 0x38);
    hide LsbByte;
  }

  lemma {:induction false} AfterNine()
    ensures LsbByte(0x49ec20b315e86dc2, 0x39) == 0xe9c6d914c4b8d9ca
  {
    LsbByteUnrolled(0x49ec20b315e86dc2, 0x39);
    hide LsbByte;
  }

  /** The text "123456789". */
  const NINE_DIGITS: seq<bv8> := [0x31, 0x32, 0x33, 0x34, 0x35, 0x36, 0x37, 0x38, 0x39]

  lemma {:induction false} FromNine()
    ensures Fold(0x49ec20b315e86dc2, [0x39]) == 0xe9c6d914c4b8d9ca
  {
    hide LsbByte;
    AfterNine();
    FoldOfNothing(0xe9c6d914c4b8d9ca);
    assert [0x39][1..] == [];
  }

  lemma {:induction false} FromEight()
    ensures Fold(0x47824d362431ad45, [0x38, 0x39]) == 0xe9c6d914c4b8d9ca
  {
    hide LsbByte;
    AfterEight();
    FromNine();
    assert [0x38, 0x39][1..] == [0x39];
  }

  lemma {:induction false} FromSeven()
    ensures Fold(0xa3a90925b2ab4903, [0x37, 0x38, 0x39]) == 0xe9c6d914c4b8d9ca
  {
    hide LsbByte;
    AfterSeven();
    FromEight();
    assert [0x37, 0x38, 0x39][1..] == [0x38, 0x39];
  }

  lemma {:induction false} FromSix()
    ensures Fold(0xf0758513239c7e0d, [0x36, 0x37, 0x38, 0x39]) == 0xe9c6d914c4b8d9ca
  {
    hide LsbByte;
    AfterSix();
    FromSeven();
    assert [0x36, 0x37, 0x38, 0x39][1..] == [0x37, 0x38, 0x39];
  }

  lemma {:induction false} FromFive()
    ensures Fold(0x43593c5dcda521f0, [0x35, 0x36, 0x37, 0x38, 0x39]) == 0xe9c6d914c4b8d9ca
  {
    hide LsbByte;
    AfterFive();
    FromSix();
    assert [0x35, 0x36, 0x37, 0x38, 0x39][1..] == [0x36, 0x37, 0x38, 0x39];
  }

  lemma {:induction false} FromFour()
    ensures Fold(0xd5bcfb814479b1ac, [0x34, 0x35, 0x36, 0x37, 0x38, 0x39]) == 0xe9c6d914c4b8d9ca
  {
    hide LsbByte;
    AfterFour();
    FromFive();
    assert [0x34, 0x35, 0x36, 0x37, 0x38, 0x39][1..] == [0x35, 0x36, 0x37, 0x38, 0x39];
  }

  lemma {:induction false} FromThree()
    ensures Fold(0xe10364513a98ed96, [0x33, 0x34, 0x35, 0x36, 0x37, 0x38, 0x39]) == 0xe9c6d914c4b8d9ca
  {
    hide LsbByte;
    AfterThree();
    FromFour();
    assert [0x33, 0x34, 0x35, 0x36, 0x37, 0x38, 0x39][1..] == [0x34, 0x35, 0x36, 0x37, 0x38, 0x39];
  }

  lemma {:induction false} FromTwo()
    ensures Fold(0xfdc17184a9f739fa, [0x32, 0x33, 0x34, 0x35, 0x36, 0x37, 0x38, 0x39]) == 0xe9c6d914c4b8d9ca
  {
    hide LsbByte;
    AfterTwo();
    FromThree();
    assert [0x32, 0x33, 0x34, 0x35, 0x36, 0x37, 0x38, 0x39][1..] == [0x33, 0x34, 0x35, 0x36, 0x37, 0x38, 0x39];
  }

  /** The CRC of the nine digits, as crc64.c states it. */
  lemma {:induction false} CheckValue()
    ensures Fold(0, NINE_DIGITS) == 0xe9c6d914c4b8d9ca
  {
    hide LsbByte;
    AfterOne();
    FromTwo();
    assert NINE_DIGITS[0] == 0x31 && NINE_DIGITS[1..] == [0x32, 0x33, 0x34, 0x35, 0x36, 0x37, 0x38, 0x39];
  }

  lemma {:induction false} FoldOfNothing(crc: bv64)
    ensures Fold(crc, []) == crc
  {
  }

  /** The bit-by-bit algorithm gives it. */
  method BitwiseCheckValue() returns (r: bv64)
    ensures r == 0xe9c6d914c4b8d9ca
  {
    assert Reverse64(0) == 0;
    hide Fold, Reverse64;
    CheckValue();
    r := Crc64Bitwise(0, NINE_DIGITS);
  }

  /** The table-driven algorithm gives it, for either byte order and at any address. */
  method TableCheckValue(m: Crc64Machine, addr: nat) returns (r: bv64)
    requires m.Ready()
    ensures r == 0xe9c6d914c4b8d9ca
  {
    hide Fold;
    CheckValue();
    r := m.Crc(0, NINE_DIGITS, addr);
  }
}
