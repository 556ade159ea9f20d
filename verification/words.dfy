/**
  Words of 64 bits: the number a word stands for, and what the masks of the
  source do to it.
 */
module Words {

  // ---------------------------------------------------------------- powers of two

  function Pow2(n: nat): (r: nat)
    ensures r > 0
  {
    if n == 0 then 1 else 2 * Pow2(n - 1)
  }

  /** Bit k of a number, from the least significant one. */
  predicate TestBit(value: nat, k: nat) {
    (value / Pow2(k)) % 2 == 1
  }

  lemma {:induction false} MulTwoAndRest(p: nat, h: nat, l: nat)
    ensures p * (2 * h + l) == (2 * p) * h + p * l
  {
  }

  lemma {:induction false} MulTwice(p: nat, q: nat)
    ensures 2 * (p * q) == (2 * p) * q
  {
  }

  lemma {:induction false} DivTwice(x: nat, p: nat)
    requires p > 0
    ensures x / (2 * p) == (x / p) / 2
  {
    var q, r := x / p, x % p;
    assert x == p * q + r;
    var h, l := q / 2, q % 2;
    MulTwoAndRest(p, h, l);
    assert p * l <= p;
    DivUnique(x, 2 * p, h, p * l + r);
  }

  lemma {:induction false} DivUnique(x: nat, d: nat, q: nat, r: nat)
    requires d > 0 && x == d * q + r && r < d
    ensures x / d == q && x % d == r
  {
    var a, b := x / d, x % d;
    assert x == d * a + b;
    assert d * (a - q) == r - b by {
      assert d * a - d * q == d * (a - q);
    }
    assert d * (q - a) == -(d * (a - q));
    if a > q {
      MulAtLeast(d, a - q);
    } else if a < q {
      MulAtLeast(d, q - a);
    }
  }

  lemma {:induction false} MulAtLeast(d: nat, n: nat)
    requires n >= 1
    ensures d * n >= d
  {
    assert d * n == d + d * (n - 1);
  }

  /** One more binary digit. */
  lemma {:induction false} ModTwice(x: nat, p: nat)
    requires p > 0
    ensures x % (2 * p) == 2 * ((x / 2) % p) + x % 2
  {
    var y, r := x / 2, x % 2;
    var q, s := y / p, y % p;
    assert y == p * q + s;
    MulTwice(p, q);
    DivUnique(x, 2 * p, q, 2 * s + r);
  }

  const TWO63: int := 0x8000_0000_0000_0000
  const TWO64: int := 0x1_0000_0000_0000_0000

  lemma {:induction false} PowSmall(n: nat)
    requires n <= 64
    ensures Pow2(n) <= TWO64 && (n <= 63 ==> Pow2(n) <= TWO63) && Pow2(63) == TWO63 && Pow2(64) == TWO64
  {
    assert Pow2(64) == TWO64 && Pow2(63) == TWO63 by {
      BigPowers();
    }
    PowGrows(n, 64);
    if n <= 63 {
      PowGrows(n, 63);
    }
  }

  lemma {:induction false} PowGrows(m: nat, n: nat)
    requires m <= n
    ensures Pow2(m) <= Pow2(n)
    decreases n
  {
    if m < n {
      PowGrows(m, n - 1);
    }
  }

  lemma {:induction false} PowSum(a: nat, b: nat)
    ensures Pow2(a + b) == Pow2(a) * Pow2(b)
    decreases a
  {
    if a > 0 {
      PowSum(a - 1, b);
      MulTwice(Pow2(a - 1), Pow2(b));
    }
  }

  lemma {:induction false} BigPowers()
    ensures Pow2(63) == TWO63 && Pow2(64) == TWO64
  {
    assert Pow2(4) == 16;
    PowSum(4, 4);
    PowSum(8, 8);
    PowSum(16, 16);
    PowSum(32, 32);
    assert Pow2(64) == 2 * Pow2(63);
  }

  // ---------------------------------------------------------------- words

  const ALL_ONES: bv64 := 0xffff_ffff_ffff_ffff

  function Twice(w: bv64): bv64 {
    w << 1
  }

  function And(a: bv64, b: bv64): bv64 {
    a & b
  }

  /** w << k, one place at a time. */
  function ShiftLeft(w: bv64, k: nat): bv64 {
    if k == 0 then w else Twice(ShiftLeft(w, k - 1))
  }

  function BitMask(k: nat): bv64 {
    ShiftLeft(1, k)
  }

  /** The mask of the bits from k up. */
  function HighMask(k: nat): bv64 {
    ShiftLeft(ALL_ONES, k)
  }

  predicate Test(w: bv64, b: bv64) {
    And(w, b) != 0
  }

  function Clear(w: bv64, m: bv64): bv64 {
    w & !m
  }

  function Set(w: bv64, m: bv64): bv64 {
    w | m
  }

  predicate HasBit(w: bv64, k: nat) {
    Test(w, BitMask(k))
  }

  /** The number the lowest n bits of a word stand for. */
  function NumberOf(w: bv64, n: nat): (r: nat)
    ensures r < Pow2(n)
  {
    if n == 0 then 0 else NumberOf(w, n - 1) + if HasBit(w, n - 1) then Pow2(n - 1) else 0
  }

  /** The word of a number: its lowest n bits. */
  function WordOf(x: nat, n: nat): bv64 {
    if n == 0 then 0 else if TestBit(x, n - 1) then Set(WordOf(x, n - 1), BitMask(n - 1)) else WordOf(x, n - 1)
  }

  // ---------------------------------------------------------------- single bits

  lemma {:induction false} AndLaws(a: bv64, b: bv64)
    ensures And(Twice(a), Twice(b)) == Twice(And(a, b))
    ensures And(Twice(a), 1) == 0 && And(1, Twice(b)) == 0
    ensures And(ALL_ONES, a) == a && And(0, a) == 0 && And(a, a) == a && Twice(0) == 0
  {
  }

  /** Two different bits. */
  lemma {:induction false} BitsDiffer(i: nat, j: nat)
    requires i != j
    ensures And(BitMask(i), BitMask(j)) == 0
    decreases i
  {
    hide Twice, And;
    if i > 0 && j > 0 {
      AndLaws(BitMask(i - 1), BitMask(j - 1));
      BitsDiffer(i - 1, j - 1);
    } else if i == 0 {
      AndLaws(0, BitMask(j - 1));
    } else {
      AndLaws(BitMask(i - 1), 0);
    }
  }

  /** A bit of the mask: set from k up, clear below. */
  lemma {:induction false} HighMaskBit(k: nat, i: nat)
    ensures And(HighMask(k), BitMask(i)) == if i < k then 0 else BitMask(i)
    decreases k
  {
    hide Twice, And;
    if k == 0 {
      AndLaws(BitMask(i), 0);
    } else if i == 0 {
      AndLaws(HighMask(k - 1), 0);
    } else {
      AndLaws(HighMask(k - 1), BitMask(i - 1));
      HighMaskBit(k - 1, i - 1);
    }
  }

  lemma {:induction false} FourTimes(w: bv64)
    ensures Twice(Twice(Twice(Twice(w)))) == w << 4
  {
  }

  lemma {:induction false} FourUp(k: nat, w: bv64)
    requires BitMask(k) == w
    ensures BitMask(k + 4) == w << 4
  {
    FourTimes(w);
    hide Twice;
    assert ShiftLeft(1, k + 1) == Twice(w);
    assert ShiftLeft(1, k + 2) == Twice(Twice(w));
    assert ShiftLeft(1, k + 3) == Twice(Twice(Twice(w)));
  }

  lemma {:induction false} HighestBit()
    ensures BitMask(60) == 0x1000_0000_0000_0000
  {
    FourUp(0, 1);
    FourUp(4, 0x10);
    FourUp(8, 0x100);
    FourUp(12, 0x1000);
    FourUp(16, 0x1_0000);
    FourUp(20, 0x10_0000);
    FourUp(24, 0x100_0000);
    FourUp(28, 0x1000_0000);
    FourUp(32, 0x1_0000_0000);
    FourUp(36, 0x10_0000_0000);
    FourUp(40, 0x100_0000_0000);
    FourUp(44, 0x1000_0000_0000);
    FourUp(48, 0x1_0000_0000_0000);
    FourUp(52, 0x10_0000_0000_0000);
    FourUp(56, 0x100_0000_0000_0000);
    hide ShiftLeft;
  }

  lemma {:induction false} ZeroStaysZero(k: nat, n: nat)
    requires BitMask(k) == 0 && k <= n
    ensures BitMask(n) == 0
    decreases n
  {
    if k < n {
      ZeroStaysZero(k, n - 1);
    }
  }

  /** Every bit of a word is there. */
  lemma {:induction false} BitIsThere(k: nat)
    requires k < 64
    ensures BitMask(k) != 0
  {
    HighestBit();
    assert BitMask(61) == 0x2000_0000_0000_0000;
    assert BitMask(62) == 0x4000_0000_0000_0000;
    assert BitMask(63) == 0x8000_0000_0000_0000;
    if BitMask(k) == 0 {
      ZeroStaysZero(k, 63);
    }
  }

  // ---------------------------------------------------------------- masks and numbers

  lemma {:induction false} ClearOther(w: bv64, m: bv64, b: bv64)
    requires And(m, b) == 0
    ensures And(Clear(w, m), b) == And(w, b)
  {
  }

  lemma {:induction false} ClearSame(w: bv64, m: bv64, b: bv64)
    requires And(m, b) == b
    ensures And(Clear(w, m), b) == 0
  {
  }

  lemma {:induction false} SetOther(w: bv64, m: bv64, b: bv64)
    requires And(m, b) == 0
    ensures And(Set(w, m), b) == And(w, b)
  {
  }

  lemma {:induction false} SetSame(w: bv64, m: bv64, b: bv64)
    requires And(m, b) == b
    ensures And(Set(w, m), b) == b
  {
  }

  lemma {:induction false} TestOther(w: bv64, m: bv64, b: bv64)
    requires And(m, b) == 0
    ensures Test(Clear(w, m), b) <==> Test(w, b)
  {
    hide And, Clear;
    ClearOther(w, m, b);
  }

  lemma {:induction false} TestCleared(w: bv64, m: bv64, b: bv64)
    requires And(m, b) == b
    ensures !Test(Clear(w, m), b)
  {
    hide And, Clear;
    ClearSame(w, m, b);
  }

  lemma {:induction false} TestBeside(w: bv64, m: bv64, b: bv64)
    requires And(m, b) == 0
    ensures Test(Set(w, m), b) <==> Test(w, b)
  {
    hide And, Set;
    SetOther(w, m, b);
  }

  lemma {:induction false} TestIsSet(w: bv64, m: bv64, b: bv64)
    requires And(m, b) == b != 0
    ensures Test(Set(w, m), b)
  {
    hide And, Set;
    SetSame(w, m, b);
  }

  /** A bit of a word that was cleared from k up, or set from k up. */
  lemma {:induction false} MaskedBit(w: bv64, k: nat, i: nat)
    requires i < 64
    ensures HasBit(Clear(w, HighMask(k)), i) <==> i < k && HasBit(w, i)
    ensures HasBit(Set(w, HighMask(k)), i) <==> i >= k || HasBit(w, i)
  {
    hide ShiftLeft, Test, Clear, Set, And;
    HighMaskBit(k, i);
    BitIsThere(i);
    if i < k {
      TestOther(w, HighMask(k), BitMask(i));
      TestBeside(w, HighMask(k), BitMask(i));
    } else {
      TestCleared(w, HighMask(k), BitMask(i));
      TestIsSet(w, HighMask(k), BitMask(i));
    }
  }

  lemma {:induction false} NumberCut(w: bv64, k: nat, n: nat)
    requires n <= 64
    ensures NumberOf(Clear(w, HighMask(k)), n) == NumberOf(w, if k < n then k else n)
    decreases n
  {
    hide Clear, HasBit, HighMask;
    if n > 0 {
      NumberCut(w, k, n - 1);
      MaskedBit(w, k, n - 1);
    }
  }

  lemma {:induction false} NumberFilled(w: bv64, k: nat, n: nat)
    requires k <= n <= 64
    ensures NumberOf(Set(w, HighMask(k)), n) == NumberOf(w, k) + (Pow2(n) - Pow2(k))
    decreases n
  {
    hide Set, HasBit, HighMask;
    if n > k {
      NumberFilled(w, k, n - 1);
      MaskedBit(w, k, n - 1);
    } else {
      NumberSame(Set(w, HighMask(k)), w, k, k);
    }
  }

  lemma {:induction false} NumberSame(v: bv64, w: bv64, k: nat, n: nat)
    requires v == Set(w, HighMask(k)) && n <= k <= 64
    ensures NumberOf(v, n) == NumberOf(w, n)
    decreases n
  {
    hide Set, HasBit, HighMask;
    if n > 0 {
      NumberSame(v, w, k, n - 1);
      MaskedBit(w, k, n - 1);
    }
  }

  lemma {:induction false} WordOfBit(x: nat, n: nat, i: nat)
    requires i < 64
    ensures HasBit(WordOf(x, n), i) <==> i < n && TestBit(x, i)
    decreases n
  {
    BitIsThere(i);
    if n == 0 {
      AndLaws(BitMask(i), 0);
    } else {
      hide ShiftLeft, Test, Set, And, TestBit;
      WordOfBit(x, n - 1, i);
      if i == n - 1 {
        AndLaws(BitMask(i), 0);
        TestIsSet(WordOf(x, n - 1), BitMask(n - 1), BitMask(i));
      } else {
        BitsDiffer(n - 1, i);
        TestBeside(WordOf(x, n - 1), BitMask(n - 1), BitMask(i));
      }
    }
  }

  /** One more binary digit at the top. */
  lemma {:induction false} ModTop(x: nat, n: nat)
    requires n > 0
    ensures x % Pow2(n) == x % Pow2(n - 1) + if TestBit(x, n - 1) then Pow2(n - 1) else 0
  {
    assert Pow2(n) == 2 * Pow2(n - 1);
    ModDouble(x, Pow2(n - 1));
    hide Pow2;
  }

  lemma {:induction false} ModDouble(x: nat, p: nat)
    requires p > 0
    ensures x % (2 * p) == x % p + if (x / p) % 2 == 1 then p else 0
  {
    var q, r := x / p, x % p;
    var h, l := q / 2, q % 2;
    assert x == p * q + r;
    assert p * q == (2 * p) * h + p * l by {
      assert p * (2 * h + l) == (2 * p) * h + p * l;
    }
    DivUnique(x, 2 * p, h, if l == 1 then p + r else r);
  }

  lemma {:induction false} WordOfNumber(x: nat, m: nat, n: nat)
    requires m <= n <= 64
    ensures NumberOf(WordOf(x, n), m) == x % Pow2(m)
    decreases m
  {
    hide HasBit, TestBit, WordOf;
    if m > 0 {
      WordOfNumber(x, m - 1, n);
      WordOfBit(x, n, m - 1);
      ModTop(x, m);
    }
  }

  /** The 64-bit word of a number, and back. */
  lemma {:induction false} WordRoundTrip(x: nat)
    requires x < TWO64
    ensures NumberOf(WordOf(x, 64), 64) == x
  {
    hide Pow2, NumberOf, WordOf;
    WordOfNumber(x, 64, 64);
    PowSmall(64);
  }

  /** Clearing the bits from k up is taking the remainder. */
  lemma {:induction false} ClearHigh(x: nat, k: nat)
    requires k <= 64
    ensures NumberOf(Clear(WordOf(x, 64), HighMask(k)), 64) == x % Pow2(k)
  {
    hide Pow2, NumberOf, WordOf, Clear, HighMask;
    NumberCut(WordOf(x, 64), k, 64);
    WordOfNumber(x, k, 64);
  }

  /** Setting the bits from k up adds them all to the remainder. */
  lemma {:induction false} SetHigh(x: nat, k: nat)
    requires k <= 64
    ensures NumberOf(Set(WordOf(x, 64), HighMask(k)), 64) == x % Pow2(k) + (TWO64 - Pow2(k))
  {
    hide Pow2, NumberOf, WordOf, Set, HighMask;
    NumberFilled(WordOf(x, 64), k, 64);
    WordOfNumber(x, k, 64);
    PowSmall(64);
  }
}
