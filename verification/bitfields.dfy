/**
  Integers of any width up to 64 bits at any bit offset of a string: writing them,
  reading them back, and what the overflow checks decide.
 */
module Bitfields {
  import opened Bits
  import opened Words

  // ---------------------------------------------------------------- one bit

  lemma {:induction false} Masks(j: nat, k: nat)
    requires j < 8 && k < 8
    ensures Mask(k) != 0 && (j != k ==> Mask(j) & Mask(k) == 0)
  {
  }

  /** A byte with bit k cleared or set. */
  function PutBit(b: bv8, k: nat, v: bool): bv8
    requires k < 8
  {
    (b & !Mask(k)) | (if v then Mask(k) else 0)
  }

  lemma {:induction false} PutMask(b: bv8, m: bv8, n: bv8)
    ensures n & m == 0 ==> ((b & !m) | m) & n == b & n && ((b & !m) | 0) & n == b & n
    ensures ((b & !m) | m) & m == m && ((b & !m) | 0) & m == 0
  {
  }

  lemma {:induction false} PutBitAt(b: bv8, k: nat, v: bool, j: nat)
    requires j < 8 && k < 8
    ensures BitOf(PutBit(b, k, v), j) == if j == k then v else BitOf(b, j)
  {
    Masks(j, k);
    PutMask(b, Mask(k), Mask(j));
    hide Mask;
  }

  // ---------------------------------------------------------------- fields

  /** The number whose binary digits are the bits of a range of the bitmap. */
  function Field(p: seq<bv8>, offset: nat, bits: nat): (r: nat)
    ensures r < Pow2(bits)
  {
    if bits == 0 then 0 else 2 * Field(p, offset, bits - 1) + One(BitAt(p, offset + bits - 1))
  }

  lemma {:induction false} FieldStep(p: seq<bv8>, offset: nat, n: nat)
    ensures Field(p, offset, n + 1) == 2 * Field(p, offset, n) + One(BitAt(p, offset + n)) && Field(p, offset, 0) == 0
  {
    hide BitAt;
  }

  lemma {:induction false} JoinStep(f: nat, p: nat, g: nat, bit: nat)
    ensures 2 * (f * p + g) + bit == f * (2 * p) + (2 * g + bit)
  {
    MulTwice(f, p);
    MulTwice(p, f);
  }

  lemma {:induction false} PowStep(n: nat)
    ensures Pow2(n) == if n == 0 then 1 else 2 * Pow2(n - 1)
  {
  }

  /** A field is its upper part followed by its lower part. */
  lemma {:induction false} FieldJoins(p: seq<bv8>, offset: nat, a: nat, b: nat)
    ensures Field(p, offset, a + b) == Field(p, offset, a) * Pow2(b) + Field(p, offset + a, b)
    decreases b
  {
    hide BitAt, Field, Pow2, One;
    PowStep(b);
    if b == 0 {
      FieldStep(p, offset + a, 0);
    } else {
      FieldJoins(p, offset, a, b - 1);
      FieldStep(p, offset, a + b - 1);
      FieldStep(p, offset + a, b - 1);
      assert offset + (a + b - 1) == offset + a + (b - 1);
      JoinStep(Field(p, offset, a), Pow2(b - 1), Field(p, offset + a, b - 1), One(BitAt(p, offset + (a + b - 1))));
    }
  }

  lemma {:induction false} FourDigits(p: seq<bv8>, o: nat)
    ensures Field(p, o, 4) == 8 * One(BitAt(p, o)) + 4 * One(BitAt(p, o + 1)) + 2 * One(BitAt(p, o + 2)) + One(BitAt(p, o + 3))
  {
    hide Field, BitAt, One;
    FieldStep(p, o, 0);
    FieldStep(p, o, 1);
    FieldStep(p, o, 2);
    FieldStep(p, o, 3);
  }

  lemma {:induction false} EightDigits(p: seq<bv8>, o: nat)
    ensures Field(p, o, 8) == 16 * Field(p, o, 4) + Field(p, o + 4, 4)
  {
    hide Field, BitAt, One;
    FieldJoins(p, o, 4, 4);
    assert Pow2(4) == 16;
  }

  /** The first bit of a field is its highest one. */
  lemma {:induction false} HighestBitFirst(p: seq<bv8>, o: nat)
    ensures Field(p, o, 8) ==
            0x80 * One(BitAt(p, o)) + 0x40 * One(BitAt(p, o + 1)) + 0x20 * One(BitAt(p, o + 2)) + 0x10 * One(BitAt(p, o + 3))
            + 8 * One(BitAt(p, o + 4)) + 4 * One(BitAt(p, o + 5)) + 2 * One(BitAt(p, o + 6)) + One(BitAt(p, o + 7))
  {
    hide *;
    EightDigits(p, o);
    FourDigits(p, o);
    FourDigits(p, o + 4);
  }

  /** getUnsignedBitfield. */
  method GetUnsigned(p: array<bv8>, offset: nat, bits: nat) returns (value: nat)
    requires offset + bits <= 8 * p.Length
    ensures value == Field(p[..], offset, bits)
  {
    value := 0;
    for j := 0 to bits
      invariant value == Field(p[..], offset, j)
    {
      var at := offset + j;
      assert at / 8 < p.Length;
      value := 2 * value + One(BitOf(p[at / 8], at % 8));
    }
  }

  /** The bitmap after writing the lowest bits of a value: nothing else changes. */
  ghost predicate Written(p: seq<bv8>, offset: nat, bits: nat, value: nat, q: seq<bv8>) {
    && |q| == |p|
    && forall n {:trigger BitAt(q, n)} :: 0 <= n ==>
         BitAt(q, n) == if offset <= n < offset + bits then TestBit(value, bits - 1 - (n - offset)) else BitAt(p, n)
  }

  /** setUnsignedBitfield. */
  method SetUnsigned(p: array<bv8>, offset: nat, bits: nat, value: nat)
    requires offset + bits <= 8 * p.Length
    modifies p
    ensures Written(old(p[..]), offset, bits, value, p[..])
  {
    hide BitOf, TestBit;
    for j := 0 to bits
      invariant forall n {:trigger BitAt(p[..], n)} :: 0 <= n ==>
                  BitAt(p[..], n) == if offset <= n < offset + j then TestBit(value, bits - 1 - (n - offset)) else BitAt(old(p[..]), n)
    {
      ghost var before := p[..];
      var at := offset + j;
      assert at / 8 < p.Length;
      var v := TestBit(value, bits - 1 - j);
      p[at / 8] := PutBit(p[at / 8], at % 8, v);
      forall n: nat ensures BitAt(p[..], n) == if n == at then v else BitAt(before, n) {
        OneBitPut(before, p[..], at, v, n);
      }
    }
  }

  lemma {:induction false} OneBitPut(p: seq<bv8>, q: seq<bv8>, at: nat, v: bool, n: nat)
    requires at / 8 < |p| && q == p[at / 8 := PutBit(p[at / 8], at % 8, v)]
    ensures BitAt(q, n) == if n == at then v else BitAt(p, n)
  {
    if n / 8 == at / 8 {
      PutBitAt(p[at / 8], at % 8, v, n % 8);
    }
    hide BitOf, PutBit;
  }

  /** The first m digits of what was written are the m highest of its bits. */
  lemma {:induction false} WrittenDigits(p: seq<bv8>, offset: nat, bits: nat, value: nat, q: seq<bv8>, m: nat)
    requires Written(p, offset, bits, value, q) && m <= bits
    ensures Field(q, offset, m) == (value / Pow2(bits - m)) % Pow2(m)
    decreases m
  {
    hide BitAt;
    if m > 0 {
      WrittenDigits(p, offset, bits, value, q, m - 1);
      assert BitAt(q, offset + m - 1) == TestBit(value, bits - m);
      assert Pow2(bits - (m - 1)) == 2 * Pow2(bits - m) && Pow2(m) == 2 * Pow2(m - 1);
      OneMoreDigit(value, Pow2(bits - m), Pow2(m - 1));
      hide Pow2;
    }
  }

  lemma {:induction false} OneMoreDigit(value: nat, p: nat, s: nat)
    requires p > 0 && s > 0
    ensures (value / p) % (2 * s) == 2 * ((value / (2 * p)) % s) + (value / p) % 2
  {
    DivTwice(value, p);
    ModTwice(value / p, s);
  }

  /** What is written is read back, cut to its width. */
  lemma {:induction false} SetThenGet(p: seq<bv8>, offset: nat, bits: nat, value: nat, q: seq<bv8>)
    requires Written(p, offset, bits, value, q)
    ensures Field(q, offset, bits) == value % Pow2(bits)
  {
    hide Written;
    WrittenDigits(p, offset, bits, value, q, bits);
    assert Pow2(0) == 1;
    assert value / 1 == value;
  }

  /** Reading a range that shares no bit with the written one gives what it gave before. */
  lemma {:induction false} SetElsewhere(p: seq<bv8>, offset: nat, bits: nat, value: nat, q: seq<bv8>, o: nat, b: nat)
    requires Written(p, offset, bits, value, q) && (o + b <= offset || offset + bits <= o)
    ensures Field(q, o, b) == Field(p, o, b)
    decreases b
  {
    hide BitAt, TestBit;
    if b > 0 {
      SetElsewhere(p, offset, bits, value, q, o, b - 1);
      assert BitAt(q, o + b - 1) == BitAt(p, o + b - 1);
    }
  }

  // ---------------------------------------------------------------- signed fields and machine integers

  predicate Int64(x: int) {
    -TWO63 <= x < TWO63
  }

  /** The conversion of an integer to uint64_t. */
  function ToUnsigned(x: int): nat {
    x % TWO64
  }

  /** The conversion of an integer to int64_t, in two's complement. */
  function ToSigned(x: int): int {
    var m := x % TWO64;
    if m >= TWO63 then m - TWO64 else m
  }

  lemma {:induction false} ToSignedIs(x: int)
    requires Int64(x)
    ensures ToSigned(x) == x
  {
    if x < 0 {
      assert (x + TWO64) % TWO64 == x % TWO64;
    }
  }

  /** The number in two's complement of a width that a number of that width stands for. */
  function SignedOf(u: nat, bits: nat): int
    requires bits > 0
  {
    if u >= Pow2(bits - 1) then u - Pow2(bits) else u
  }

  function SignedField(p: seq<bv8>, offset: nat, bits: nat): int
    requires bits > 0
  {
    SignedOf(Field(p, offset, bits), bits)
  }

  predicate InRange(x: int, signed: bool, bits: nat)
    requires bits > 0
  {
    Low(signed, bits) <= x <= High(signed, bits)
  }

  function Low(signed: bool, bits: nat): int
    requires bits > 0
  {
    if signed then 0 - Pow2(bits - 1) else 0
  }

  function High(signed: bool, bits: nat): int
    requires bits > 0
  {
    if signed then Pow2(bits - 1) - 1 else Pow2(bits) - 1
  }

  /** getSignedBitfield: the sign bit is copied to the higher bits of a 64-bit word. */
  method GetSigned(p: array<bv8>, offset: nat, bits: nat) returns (value: int)
    requires 0 < bits <= 64 && offset + bits <= 8 * p.Length
    ensures value == SignedField(p[..], offset, bits)
  {
    hide BitAt;
    var u := GetUnsigned(p, offset, bits);
    FieldIsWord(u, bits);
    var word := WordOf(u, 64);
    if bits < 64 && HasBit(word, bits - 1) {
      word := Set(word, HighMask(bits));
    }
    value := ToSigned(NumberOf(word, 64));
  }

  lemma {:induction false} FieldIsWord(u: nat, bits: nat)
    requires 0 < bits <= 64 && u < Pow2(bits)
    ensures u < TWO64 && NumberOf(WordOf(u, 64), 64) == u
    ensures bits < 64 && HasBit(WordOf(u, 64), bits - 1) ==>
              ToSigned(NumberOf(Set(WordOf(u, 64), HighMask(bits)), 64)) == SignedOf(u, bits)
    ensures !(bits < 64 && HasBit(WordOf(u, 64), bits - 1)) ==> ToSigned(u) == SignedOf(u, bits)
  {
    hide Pow2, WordOf, NumberOf, HasBit, Set, HighMask, ToSigned;
    PowSmall(bits);
    WordRoundTrip(u);
    EuclidUnique(u, Pow2(bits), 0, u);
    Extended(u, bits);
  }

  /** Sign extension, as a number: the top bit of a width decides whether the bits above are set or clear. */
  lemma {:induction false} Extended(x: nat, bits: nat)
    requires 0 < bits <= 64 && x < TWO64
    ensures var u := x % Pow2(bits);
            && (bits == 64 ==> ToSigned(x) == SignedOf(u, bits))
            && (bits < 64 && HasBit(WordOf(x, 64), bits - 1) ==>
                  ToSigned(NumberOf(Set(WordOf(x, 64), HighMask(bits)), 64)) == SignedOf(u, bits))
            && (bits < 64 && !HasBit(WordOf(x, 64), bits - 1) ==>
                  ToSigned(NumberOf(Clear(WordOf(x, 64), HighMask(bits)), 64)) == SignedOf(u, bits)
                  && ToSigned(u) == u == SignedOf(u, bits))
  {
    hide WordOf, NumberOf, HasBit, Set, Clear, HighMask, TestBit;
    PowSmall(bits);
    if bits < 64 {
      PowSmall(bits - 1);
      WordOfBit(x, 64, bits - 1);
      ModTop(x, bits);
      SetHigh(x, bits);
      ClearHigh(x, bits);
    }
    assert Pow2(bits) == 2 * Pow2(bits - 1);
    hide Pow2;
    if bits == 64 {
      EuclidUnique(x, TWO64, 0, x);
    } else {
      var u := x % Pow2(bits);
      ToSignedIs(u);
      if u >= Pow2(bits - 1) {
        WrapsDown(u + (TWO64 - Pow2(bits)));
      }
    }
  }

  /** setSignedBitfield. */
  method SetSigned(p: array<bv8>, offset: nat, bits: nat, value: int)
    requires offset + bits <= 8 * p.Length
    modifies p
    ensures Written(old(p[..]), offset, bits, ToUnsigned(value), p[..])
  {
    SetUnsigned(p, offset, bits, ToUnsigned(value));
  }

  lemma {:induction false} ModOfMod(x: int, a: nat, b: nat)
    requires a > 0 && b > 0
    ensures (x % (a * b)) % a == x % a
  {
    var n := a * b;
    var q, r := x / n, x % n;
    assert x == n * q + r;
    var s, u := r / a, r % a;
    assert r == a * s + u;
    assert x == a * (b * q + s) + u by {
      assert a * (b * q) == (a * b) * q;
      assert a * (b * q + s) == a * (b * q) + a * s;
    }
    EuclidUnique(x, a, b * q + s, u);
  }

  lemma {:induction false} EuclidUnique(x: int, d: nat, q: int, r: nat)
    requires d > 0 && x == d * q + r && r < d
    ensures x / d == q && x % d == r
  {
    var a, b := x / d, x % d;
    assert x == d * a + b;
    assert d * (a - q) == r - b by {
      assert d * a - d * q == d * (a - q);
    }
    assert d * (q - a) == -(d * (a - q));
    if a > q {
      MulAtLeast(d, a - q);
    } else if a < q {
      MulAtLeast(d, q - a);
    }
  }

  /** An integer of a width, written and read back. */
  lemma {:induction false} SetThenGetSigned(p: seq<bv8>, offset: nat, bits: nat, value: int, q: seq<bv8>)
    requires 0 < bits <= 64 && Written(p, offset, bits, ToUnsigned(value), q) && InRange(value, true, bits)
    ensures SignedField(q, offset, bits) == value
  {
    hide Written, Field;
    SetThenGet(p, offset, bits, ToUnsigned(value), q);
    CutToWidth(value, bits);
    var h := Pow2(bits - 1);
    assert Pow2(bits) == 2 * h;
    if value >= 0 {
      EuclidUnique(value, 2 * h, 0, value);
    } else {
      EuclidUnique(value, 2 * h, -1, value + 2 * h);
    }
  }

  lemma {:induction false} CutToWidth(value: int, bits: nat)
    requires bits <= 64
    ensures ToUnsigned(value) % Pow2(bits) == value % Pow2(bits)
  {
    PowSum(bits, 64 - bits);
    PowSmall(64);
    ModOfMod(value, Pow2(bits), Pow2(64 - bits));
  }

  lemma {:induction false} SetThenGetUnsigned(p: seq<bv8>, offset: nat, bits: nat, value: int, q: seq<bv8>)
    requires 0 < bits <= 64 && Written(p, offset, bits, ToUnsigned(value), q) && InRange(value, false, bits)
    ensures Field(q, offset, bits) == value
  {
    hide Written, Field;
    SetThenGet(p, offset, bits, ToUnsigned(value), q);
    CutToWidth(value, bits);
    EuclidUnique(value, Pow2(bits), 0, value);
  }

  // ---------------------------------------------------------------- overflow

  datatype OverflowType = Wrap | Sat | Fail

  /** What a check decides: 0 for no overflow, 1 or -1, and the value to store instead. */
  datatype Check = Check(code: int, limit: int)

  /** The integer of a type that a number wraps around to. */
  function Wrapped(x: int, signed: bool, bits: nat): int
    requires bits > 0
  {
    if signed then SignedOf(x % Pow2(bits), bits) else x % Pow2(bits)
  }

  function Clamped(x: int, signed: bool, bits: nat): int
    requires bits > 0
  {
    if x < Low(signed, bits) then Low(signed, bits) else if x > High(signed, bits) then High(signed, bits) else x
  }

  /** What a check should decide about a number that may be out of range. */
  function IdealCheck(x: int, signed: bool, bits: nat, owtype: OverflowType): Check
    requires bits > 0
  {
    if InRange(x, signed, bits) then Check(0, 0)
    else
      match owtype
      case Wrap => Check(1, Wrapped(x, signed, bits))
      case Sat => Check(if x > High(signed, bits) then 1 else -1, Clamped(x, signed, bits))
      case Fail => Check(if x > High(signed, bits) then 1 else -1, 0)
  }

  /** What a check decides about a sum when the value itself is already above the range. */
  function AboveCheck(x: int, signed: bool, bits: nat, owtype: OverflowType): Check
    requires bits > 0
  {
    Check(1, match owtype case Wrap => Wrapped(x, signed, bits) case Sat => High(signed, bits) case Fail => 0)
  }

  lemma {:induction false} WrapsDown(x: int)
    requires TWO63 <= x < TWO64
    ensures ToSigned(x) == x - TWO64 < 0
  {
  }

  // ---------------------------------------------------------------- unsigned overflow

  /** The test for an overflow, with the wrap-around of int64_t. */
  predicate UnsignedOver(value: nat, incr: int, bits: nat)
    requires bits > 0
  {
    value > High(false, bits) || (incr > 0 && incr > ToSigned(High(false, bits) - value))
  }

  /** The test for an underflow, made when there is no overflow. */
  predicate UnsignedUnder(value: nat, incr: int) {
    incr < 0 && incr < ToSigned(0 - value)
  }

  lemma {:induction false} UnsignedTests(value: nat, incr: int, bits: nat)
    requires 0 < bits <= 63 && InRange(value, false, bits) && Int64(incr)
    ensures UnsignedOver(value, incr, bits) <==> value + incr > High(false, bits)
    ensures UnsignedUnder(value, incr) <==> value + incr < 0
  {
    PowSmall(bits);
    ToSignedIs(Pow2(bits) - 1 - value);
    ToSignedIs(0 - value);
    hide Pow2, ToSigned;
  }

  /** With 64 bits the differences do not fit int64_t, and the tests are wrong for half of the values. */
  lemma {:induction false} FullUnsignedTests(value: nat, incr: int)
    requires value < TWO64 && Int64(incr)
    ensures (UnsignedOver(value, incr, 64) <==> value + incr > High(false, 64)) <==> !(incr > 0 && value < TWO63)
    ensures (UnsignedUnder(value, incr) <==> value + incr < 0) <==> !(incr < 0 && value > TWO63)
  {
    PowSmall(64);
    hide Pow2;
    if value < TWO63 {
      WrapsDown(TWO64 - 1 - value);
      ToSignedIs(0 - value);
    } else {
      ToSignedIs(TWO64 - 1 - value);
      if value == TWO63 {
        ToSignedIs(0 - value);
      } else {
        NegatedHigh(value);
      }
    }
    hide ToSigned;
  }

  lemma {:induction false} NegatedHigh(value: nat)
    requires TWO63 < value < TWO64
    ensures ToSigned(0 - value) == TWO64 - value
  {
    assert (0 - value) % TWO64 == TWO64 - value;
  }

  /** The wrap-around of an unsigned sum: the bits above the width are masked away. */
  method WrapUnsigned(value: nat, incr: int, bits: nat) returns (limit: nat)
    requires 0 < bits <= 64
    ensures bits < 64 ==> limit == Wrapped(value + incr, false, bits)
  {
    var mask := HighMask(bits);
    var res := WordOf(ToUnsigned(value + incr), 64);
    res := Clear(res, mask);
    limit := NumberOf(res, 64);
    ClearHigh(ToUnsigned(value + incr), bits);
    CutToWidth(value + incr, bits);
  }

  /**
    checkUnsignedBitfieldOverflow. Up to 63 bits it decides about the exact sum; BITFIELD has no
    unsigned integers of 64 bits, for which half of the sums are misjudged and the shift is undefined.
   */
  method CheckUnsigned(value: nat, incr: int, bits: nat, owtype: OverflowType) returns (r: Check)
    requires 0 < bits <= 64 && value < TWO64 && Int64(incr)
    ensures bits < 64 && InRange(value, false, bits) ==> r == IdealCheck(value + incr, false, bits, owtype)
    ensures bits < 64 && incr == 0 ==> r == IdealCheck(value, false, bits, owtype)
    ensures bits < 64 && value > High(false, bits) ==> r == AboveCheck(value + incr, false, bits, owtype)
    ensures bits == 64 ==>
              (r.code == IdealCheck(value + incr, false, 64, owtype).code <==>
               !(incr > 0 && value < TWO63) && !(incr < 0 && value > TWO63))
  {
    PowSmall(bits);
    hide Pow2, ToSigned, ToUnsigned;
    if bits == 64 {
      FullUnsignedTests(value, incr);
    } else if InRange(value, false, bits) {
      UnsignedTests(value, incr, bits);
    }
    var max := if bits == 64 then TWO64 - 1 else Pow2(bits) - 1;
    var maxincr := ToSigned(max - value);
    var minincr := ToSigned(0 - value);
    var wrapped := WrapUnsigned(value, incr, bits);
    if value > max || (incr > 0 && incr > maxincr) {
      match owtype {
        case Wrap => return Check(1, wrapped);
        case Sat => return Check(1, max);
        case Fail => return Check(1, 0);
      }
    } else if incr < 0 && incr < minincr {
      match owtype {
        case Wrap => return Check(1, wrapped);
        case Sat => return Check(-1, 0);
        case Fail => return Check(-1, 0);
      }
    }
    return Check(0, 0);
  }

  // ---------------------------------------------------------------- signed overflow

  /** The test for an overflow, with the wrap-around of int64_t. */
  predicate SignedOver(value: int, incr: int, bits: nat)
    requires bits > 0
  {
    var max := High(true, bits);
    var maxincr := ToSigned(max - value);
    value > max || (bits != 64 && incr > maxincr) || (value >= 0 && incr > 0 && incr > maxincr)
  }

  /** The test for an underflow, made when there is no overflow. */
  predicate SignedUnder(value: int, incr: int, bits: nat)
    requires bits > 0
  {
    var min := Low(true, bits);
    var minincr := ToSigned(min - value);
    value < min || (bits != 64 && incr < minincr) || (value < 0 && incr < 0 && incr < minincr)
  }

  lemma {:induction false} SignedOverIff(value: int, incr: int, bits: nat)
    requires 0 < bits <= 64 && InRange(value, true, bits) && Int64(incr)
    ensures SignedOver(value, incr, bits) <==> value + incr > High(true, bits)
  {
    PowSmall(bits - 1);
    var more := Pow2(bits - 1) - 1 - value;
    if bits < 64 {
      PowHalf(bits);
      ToSignedIs(more);
    } else if Int64(more) {
      ToSignedIs(more);
    }
    hide Pow2, ToSigned;
  }

  lemma {:induction false} SignedUnderIff(value: int, incr: int, bits: nat)
    requires 0 < bits <= 64 && InRange(value, true, bits) && Int64(incr)
    ensures SignedUnder(value, incr, bits) <==> value + incr < Low(true, bits)
  {
    PowSmall(bits - 1);
    var less := 0 - Pow2(bits - 1) - value;
    if bits < 64 {
      PowHalf(bits);
      ToSignedIs(less);
    } else if Int64(less) {
      ToSignedIs(less);
    }
    hide Pow2, ToSigned;
  }

  lemma {:induction false} PowHalf(bits: nat)
    requires 0 < bits < 64
    ensures 2 * Pow2(bits - 1) == Pow2(bits) <= TWO63
  {
    PowSmall(bits);
  }

  /** A value so low that its distance from the maximum does not fit int64_t. */
  predicate TooLow(value: int, bits: nat)
    requires bits > 0
  {
    bits < 64 && value < Pow2(bits - 1) - TWO63
  }

  /** Such a value, to be stored as it is, is taken for too high. */
  lemma {:induction false} SetOverIff(value: int, bits: nat)
    requires 0 < bits <= 64 && Int64(value)
    ensures SignedOver(value, 0, bits) <==> value > High(true, bits) || TooLow(value, bits)
    ensures TooLow(value, bits) ==> value < Low(true, bits)
  {
    PowSmall(bits - 1);
    var more := Pow2(bits - 1) - 1 - value;
    if bits < 64 {
      PowHalf(bits);
      if TooLow(value, bits) {
        WrapsDown(more);
      } else {
        ToSignedIs(more);
      }
    }
    hide Pow2, ToSigned;
  }

  lemma {:induction false} SetUnderIff(value: int, bits: nat)
    requires 0 < bits <= 64 && Int64(value) && value <= High(true, bits)
    ensures SignedUnder(value, 0, bits) <==> value < Low(true, bits)
  {
    if value >= Low(true, bits) {
      SignedUnderIff(value, 0, bits);
    }
    hide ToSigned;
  }

  /** What the check decides about a value that is to be stored as it is. */
  function SetCheck(value: int, bits: nat, owtype: OverflowType): Check
    requires bits > 0
  {
    if TooLow(value, bits) && owtype != Wrap then Check(1, if owtype == Sat then High(true, bits) else 0)
    else IdealCheck(value, true, bits, owtype)
  }

  /** What is returned for the outcome of the two tests. */
  function Verdict(over: bool, under: bool, max: int, min: int, wrapped: int, owtype: OverflowType): Check {
    if over then Check(1, match owtype case Wrap => wrapped case Sat => max case Fail => 0)
    else if under then
      match owtype
      case Wrap => Check(1, wrapped)
      case Sat => Check(-1, min)
      case Fail => Check(-1, 0)
    else Check(0, 0)
  }

  ghost function SignedVerdict(value: int, incr: int, bits: nat, owtype: OverflowType): Check
    requires bits > 0
  {
    Verdict(SignedOver(value, incr, bits), SignedUnder(value, incr, bits), High(true, bits), Low(true, bits),
            Wrapped(value + incr, true, bits), owtype)
  }

  lemma {:induction false} VerdictInRange(value: int, incr: int, bits: nat, owtype: OverflowType)
    requires 0 < bits <= 64 && InRange(value, true, bits) && Int64(incr)
    ensures SignedVerdict(value, incr, bits, owtype) == IdealCheck(value + incr, true, bits, owtype)
  {
    SignedOverIff(value, incr, bits);
    SignedUnderIff(value, incr, bits);
    hide SignedOver, SignedUnder, Wrapped, Pow2;
  }

  lemma {:induction false} VerdictAbove(value: int, incr: int, bits: nat, owtype: OverflowType)
    requires bits > 0 && value > High(true, bits)
    ensures SignedVerdict(value, incr, bits, owtype) == AboveCheck(value + incr, true, bits, owtype)
  {
    hide Wrapped, Pow2, ToSigned;
  }

  /** About a value to be stored the decision is right exactly if the value is not too low, or wraps around. */
  lemma {:induction false} VerdictOfSet(value: int, bits: nat, owtype: OverflowType)
    requires 0 < bits <= 64 && Int64(value)
    ensures var r := SignedVerdict(value, 0, bits, owtype);
            && r == SetCheck(value, bits, owtype)
            && (r == IdealCheck(value, true, bits, owtype) <==> owtype == Wrap || !TooLow(value, bits))
  {
    SetOverIff(value, bits);
    if value <= High(true, bits) {
      SetUnderIff(value, bits);
    }
    hide SignedOver, SignedUnder, Wrapped, Pow2;
    assert value + 0 == value;
  }

  /** The wrap-around of a signed sum: its sign bit is copied to the bits above the width. */
  method WrapSigned(value: int, incr: int, bits: nat) returns (limit: int)
    requires 0 < bits <= 64
    ensures limit == Wrapped(value + incr, true, bits)
  {
    hide Pow2, WordOf, NumberOf, HasBit, Set, Clear, HighMask, ToSigned, SignedOf;
    var x := ToUnsigned(value + incr);
    var c := WordOf(x, 64);
    Extended(x, bits);
    CutToWidth(value + incr, bits);
    WordRoundTrip(x);
    if bits < 64 {
      var mask := HighMask(bits);
      if HasBit(c, bits - 1) {
        c := Set(c, mask);
      } else {
        c := Clear(c, mask);
      }
    }
    limit := ToSigned(NumberOf(c, 64));
  }

  lemma {:induction false} SignedVerdicts(value: int, incr: int, bits: nat, owtype: OverflowType)
    requires 0 < bits <= 64 && Int64(value) && Int64(incr)
    ensures var r := SignedVerdict(value, incr, bits, owtype);
            && (InRange(value, true, bits) ==> r == IdealCheck(value + incr, true, bits, owtype))
            && (incr == 0 ==> r == SetCheck(value, bits, owtype))
            && (incr == 0 ==> (r == IdealCheck(value, true, bits, owtype) <==> owtype == Wrap || !TooLow(value, bits)))
            && (value > High(true, bits) ==> r == AboveCheck(value + incr, true, bits, owtype))
  {
    hide Pow2, SignedVerdict, IdealCheck, SetCheck, TooLow, AboveCheck;
    if InRange(value, true, bits) {
      VerdictInRange(value, incr, bits, owtype);
    }
    if value > High(true, bits) {
      VerdictAbove(value, incr, bits, owtype);
    }
    if incr == 0 {
      VerdictOfSet(value, bits, owtype);
    }
  }

  /** The limits and the tests, as they are computed. */
  lemma {:induction false} SignedTests(value: int, incr: int, bits: nat)
    requires 0 < bits <= 64
    ensures var max := if bits == 64 then TWO63 - 1 else Pow2(bits - 1) - 1;
            var maxincr, minincr := ToSigned(max - value), ToSigned(-max - 1 - value);
            && max == High(true, bits) && -max - 1 == Low(true, bits)
            && (SignedOver(value, incr, bits) <==>
                  value > max || (bits != 64 && incr > maxincr) || (value >= 0 && incr > 0 && incr > maxincr))
            && (SignedUnder(value, incr, bits) <==>
                  value < -max - 1 || (bits != 64 && incr < minincr) || (value < 0 && incr < 0 && incr < minincr))
  {
    PowSmall(bits - 1);
    hide Pow2, ToSigned;
  }

  /**
    checkSignedBitfieldOverflow, with subtractions that wrap around. It decides about the exact sum
    when the value is in range; about a value that is to be stored as it is, SetCheck says what it decides.
   */
  method CheckSigned(value: int, incr: int, bits: nat, owtype: OverflowType) returns (r: Check)
    requires 0 < bits <= 64 && Int64(value) && Int64(incr)
    ensures InRange(value, true, bits) ==> r == IdealCheck(value + incr, true, bits, owtype)
    ensures incr == 0 ==> r == SetCheck(value, bits, owtype)
    ensures incr == 0 ==> (r == IdealCheck(value, true, bits, owtype) <==> owtype == Wrap || !TooLow(value, bits))
    ensures value > High(true, bits) ==> r == AboveCheck(value + incr, true, bits, owtype)
  {
    SignedTests(value, incr, bits);
    SignedVerdicts(value, incr, bits, owtype);
    hide Pow2, ToSigned, Wrapped, InRange, High, Low, IdealCheck, AboveCheck, SetCheck, TooLow, SignedOver,
        SignedUnder, Verdict;
    var max := if bits == 64 then TWO63 - 1 else Pow2(bits - 1) - 1;
    var min := -max - 1;
    var maxincr := ToSigned(max - value);
    var minincr := ToSigned(min - value);
    var wrapped := WrapSigned(value, incr, bits);
    var over := value > max || (bits != 64 && incr > maxincr) || (value >= 0 && incr > 0 && incr > maxincr);
    var under := value < min || (bits != 64 && incr < minincr) || (value < 0 && incr < 0 && incr < minincr);
    return Verdict(over, under, max, min, wrapped, owtype);
  }

  /** There are values that are too low: the lowest 64-bit integer, for any width below 64. */
  method LowestIsTakenForHigh(bits: nat) returns (r: Check)
    requires 0 < bits < 64
    ensures r == Check(1, High(true, bits)) && IdealCheck(-TWO63, true, bits, Sat) == Check(-1, Low(true, bits))
  {
    r := CheckSigned(-TWO63, 0, bits, Sat);
    SetOverIff(-TWO63, bits);
    PowSmall(bits);
    hide Pow2;
  }
}
