/**
  What the CRC is: the remainder of the message, as a polynomial over the field of two elements, divided by a
  fixed polynomial of degree 64.  A polynomial is the set of its exponents.
 */
module Crc64Algebra {
  import opened Crc64

  type Poly = set<nat>

  /** The divisor, by its coefficients. */
  function Generator(): Poly {
    {64, 63, 61, 59, 58, 56, 55, 52, 49, 48, 47, 46, 44, 41, 37, 36, 34, 32, 31, 28, 26, 23, 22, 19,
     16, 13, 12, 10, 8, 7, 5, 3, 0}
  }

  lemma {:induction false} DegreeIs64()
    ensures 64 in Generator() && forall e :: e in Generator() ==> e <= 64
  {
  }

  function Add(a: Poly, b: Poly): Poly {
    (a - b) + (b - a)
  }

  /** The product with a power of x. */
  function Shift(p: Poly, k: nat): Poly {
    set e | e in p :: e + k
  }

  lemma {:induction false} ShiftAt(p: Poly, k: nat, x: nat)
    ensures x in Shift(p, k) <==> x >= k && x - k in p
  {
    if x >= k && x - k in p {
      assert (x - k) + k in Shift(p, k);
    }
  }

  lemma {:induction false} AddLaws(a: Poly, b: Poly, c: Poly)
    ensures Add(a, Add(b, c)) == Add(Add(a, b), c) && Add(a, b) == Add(b, a) && Add(a, {}) == a && Add(a, a) == {}
    ensures Add(Add(a, b), Add(b, c)) == Add(a, c) && Add(Add(a, b), b) == a
  {
  }

  lemma {:induction false} ShiftAdd(a: Poly, b: Poly, k: nat)
    ensures Shift(Add(a, b), k) == Add(Shift(a, k), Shift(b, k))
  {
    forall x: nat ensures x in Shift(Add(a, b), k) <==> x in Add(Shift(a, k), Shift(b, k)) {
      ShiftAt(Add(a, b), k, x);
      ShiftAt(a, k, x);
      ShiftAt(b, k, x);
    }
  }

  lemma {:induction false} ShiftShift(p: Poly, j: nat, k: nat)
    ensures Shift(Shift(p, j), k) == Shift(p, j + k)
  {
    forall x: nat ensures x in Shift(Shift(p, j), k) <==> x in Shift(p, j + k) {
      ShiftAt(Shift(p, j), k, x);
      ShiftAt(p, j + k, x);
      if x >= k {
        ShiftAt(p, j, x - k);
      }
    }
  }

  // ---------------------------------------------------------------- multiples of the divisor

  lemma {:induction false} HasMax(q: set<nat>) returns (m: nat)
    requires q != {}
    ensures m in q && forall x :: x in q ==> x <= m
    decreases |q|
  {
    var e :| e in q;
    m := e;
    if q != {e} {
      var n := HasMax(q - {e});
      m := if n > e then n else e;
      assert forall x :: x in q ==> x in q - {e} || x == e;
    }
  }

  ghost predicate IsMax(q: set<nat>, m: nat) {
    m in q && forall x :: x in q ==> x <= m
  }

  ghost function MaxOf(q: set<nat>): (m: nat)
    requires q != {}
    ensures IsMax(q, m)
  {
    assert exists m :: IsMax(q, m) by {
      var m := HasMax(q);
      assert IsMax(q, m);
    }
    var m :| IsMax(q, m);
    m
  }

  /** The product of the divisor with a polynomial. */
  ghost function Product(q: set<nat>): Poly
    decreases |q|
  {
    if q == {} then {} else Add(Shift(Generator(), MaxOf(q)), Product(q - {MaxOf(q)}))
  }

  /** The same remainder. */
  ghost predicate Congruent(a: Poly, b: Poly) {
    exists q :: Add(a, b) == Product(q)
  }

  lemma {:induction false} MaxIs(q: set<nat>, m: nat)
    requires IsMax(q, m)
    ensures MaxOf(q) == m
  {
  }

  /** One more term of the quotient, or one less. */
  lemma {:induction false} ProductAddOne(q: set<nat>, e: nat)
    ensures Product(Add(q, {e})) == Add(Product(q), Shift(Generator(), e))
    decreases |q|
  {
    hide Generator, Shift;
    var r := Add(q, {e});
    var s := Shift(Generator(), e);
    if q == {} || MaxOf(q) < e {
      assert r - {e} == q;
      MaxIs(r, e);
      AddLaws(s, Product(q), {});
    } else {
      var m := MaxOf(q);
      if m == e {
        assert r == q - {m};
        AddLaws(s, Product(r), s);
        AddLaws(Product(r), s, s);
      } else {
        MaxIs(r, m);
        assert r - {m} == Add(q - {m}, {e});
        ProductAddOne(q - {m}, e);
        AddLaws(Shift(Generator(), m), Product(q - {m}), s);
      }
    }
  }

  lemma {:induction false} ProductAdd(q: set<nat>, r: set<nat>)
    ensures Product(Add(q, r)) == Add(Product(q), Product(r))
    decreases |r|
  {
    if r == {} {
      assert Add(q, r) == q;
      AddLaws(Product(q), {}, {});
    } else {
      hide Add, Shift, Generator;
      var m := MaxOf(r);
      ProductAdd(q, r - {m});
      ProductAddOne(Add(q, r - {m}), m);
      AddBack(q, r, m);
      AddLaws(Product(q), Product(r - {m}), Shift(Generator(), m));
      AddLaws(Product(r - {m}), Shift(Generator(), m), {});
    }
  }

  lemma {:induction false} AddBack(q: set<nat>, r: set<nat>, m: nat)
    requires m in r
    ensures Add(Add(q, r - {m}), {m}) == Add(q, r)
  {
  }

  lemma {:induction false} ShiftMax(q: set<nat>, k: nat, m: nat)
    requires IsMax(q, m)
    ensures IsMax(Shift(q, k), m + k) && Shift(q, k) - {m + k} == Shift(q - {m}, k)
  {
    hide Shift;
    forall x: nat ensures x in Shift(q, k) <==> x >= k && x - k in q {
      ShiftAt(q, k, x);
    }
    forall x: nat ensures x in Shift(q - {m}, k) <==> x in Shift(q, k) - {m + k} {
      ShiftAt(q - {m}, k, x);
    }
  }

  lemma {:induction false} ProductShift(q: set<nat>, k: nat)
    ensures Product(Shift(q, k)) == Shift(Product(q), k)
    decreases |q|
  {
    if q == {} {
    } else {
      var m := MaxOf(q);
      ShiftMax(q, k, m);
      hide Generator, Shift, Add;
      MaxIs(Shift(q, k), m + k);
      ProductShift(q - {m}, k);
      ShiftAdd(Shift(Generator(), m), Product(q - {m}), k);
      ShiftShift(Generator(), m, k);
    }
  }

  ghost predicate UpTo(p: Poly, n: nat) {
    forall x :: x in p ==> x <= n
  }

  lemma {:induction false} LeadingTerm(a: Poly, b: Poly, n: nat)
    requires n in a && UpTo(a, n) && (b == {} || exists k: nat :: k < n && UpTo(b, k))
    ensures n in Add(a, b) && UpTo(Add(a, b), n)
  {
  }

  lemma {:induction false} ShiftedDegree(m: nat)
    ensures m + 64 in Shift(Generator(), m) && UpTo(Shift(Generator(), m), m + 64)
  {
    DegreeIs64();
    hide Generator, Shift;
    ShiftAt(Generator(), m, m + 64);
    forall x | x in Shift(Generator(), m) ensures x <= m + 64 {
      ShiftAt(Generator(), m, x);
    }
  }

  /** A product other than zero has a term of degree 64 or more. */
  lemma {:induction false} ProductsAreLong(q: set<nat>)
    ensures q != {} ==> MaxOf(q) + 64 in Product(q) && UpTo(Product(q), MaxOf(q) + 64)
    decreases |q|
  {
    hide Generator, Shift, Add, UpTo;
    if q != {} {
      var m := MaxOf(q);
      var rest := q - {m};
      ShiftedDegree(m);
      ProductsAreLong(rest);
      if rest != {} {
        assert MaxOf(rest) in rest;
        assert MaxOf(rest) + 64 < m + 64 && UpTo(Product(rest), MaxOf(rest) + 64);
      }
      LeadingTerm(Shift(Generator(), m), Product(rest), m + 64);
    }
  }

  /** A remainder of degree below 64 is the only one. */
  lemma {:induction false} RemainderIsUnique(a: Poly, b: Poly)
    requires Congruent(a, b) && (forall x :: x in a ==> x < 64) && (forall x :: x in b ==> x < 64)
    ensures a == b
  {
    var q :| Add(a, b) == Product(q);
    ProductsAreLong(q);
    assert forall x :: x in Add(a, b) ==> x < 64;
    assert Add(a, b) == {};
    forall x ensures x in a <==> x in b {
      assert x !in Add(a, b);
    }
  }

  lemma {:induction false} CongruentTransitive(a: Poly, b: Poly, c: Poly)
    requires Congruent(a, b) && Congruent(b, c)
    ensures Congruent(a, c)
  {
    var q :| Add(a, b) == Product(q);
    var r :| Add(b, c) == Product(r);
    ProductAdd(q, r);
    AddLaws(a, b, c);
    assert Add(a, c) == Product(Add(q, r));
  }

  lemma {:induction false} CongruentShift(a: Poly, b: Poly, k: nat)
    requires Congruent(a, b)
    ensures Congruent(Shift(a, k), Shift(b, k))
  {
    var q :| Add(a, b) == Product(q);
    ProductShift(q, k);
    ShiftAdd(a, b, k);
    assert Add(Shift(a, k), Shift(b, k)) == Product(Shift(q, k));
  }

  lemma {:induction false} CongruentAdd(a: Poly, b: Poly, c: Poly)
    requires Congruent(a, b)
    ensures Congruent(Add(a, c), Add(b, c))
  {
    var q :| Add(a, b) == Product(q);
    AddLaws(a, c, b);
    AddLaws(b, c, c);
    assert Add(Add(a, c), Add(b, c)) == Add(a, b);
  }

  // ---------------------------------------------------------------- registers

  function Left(w: bv64): bv64 { w << 1 }

  /** Bit i of a register, by shifting it to the top. */
  predicate Digit(w: bv64, i: nat)
    requires i < 64
    decreases 64 - i
  {
    if i == 63 then TopSet(w) else Digit(Left(w), i + 1)
  }

  function PolyOf(w: bv64): Poly {
    set i | 0 <= i < 64 && Digit(w, i)
  }

  lemma {:induction false} LeftXor(a: bv64, b: bv64)
    ensures Left(Xor(a, b)) == Xor(Left(a), Left(b))
  {
  }

  lemma {:induction false} TopXor(a: bv64, b: bv64)
    ensures TopSet(Xor(a, b)) <==> TopSet(a) != TopSet(b)
  {
  }

  lemma {:induction false} DigitXor(a: bv64, b: bv64, i: nat)
    requires i < 64
    ensures Digit(Xor(a, b), i) <==> Digit(a, i) != Digit(b, i)
    decreases 64 - i
  {
    hide Xor, Left, TopSet;
    if i == 63 {
      TopXor(a, b);
    } else {
      LeftXor(a, b);
      DigitXor(Left(a), Left(b), i + 1);
    }
  }

  lemma {:induction false} PolyOfXor(a: bv64, b: bv64)
    ensures PolyOf(Xor(a, b)) == Add(PolyOf(a), PolyOf(b))
  {
    hide Xor, Digit;
    forall i | 0 <= i < 64 ensures Digit(Xor(a, b), i) <==> Digit(a, i) != Digit(b, i) {
      DigitXor(a, b, i);
    }
  }

  function Left8(w: bv64): bv64 { w << 8 }

  lemma {:induction false} LeftEight(w: bv64)
    ensures Left(Left(Left(Left(Left(Left(Left(Left(w)))))))) == Left8(w)
  {
  }

  lemma {:induction false} FourUp(w: bv64, i: nat)
    requires i + 4 < 64
    ensures Digit(w, i) <==> Digit(Left(Left(Left(Left(w)))), i + 4)
  {
    hide Left;
    var a := Left(Left(w));
    assert Digit(w, i) == Digit(Left(w), i + 1) == Digit(a, i + 2);
    assert Digit(a, i + 2) == Digit(Left(a), i + 3) == Digit(Left(Left(a)), i + 4);
  }

  lemma {:induction false} EightUp(w: bv64, i: nat)
    requires i + 8 < 64
    ensures Digit(w, i) <==> Digit(Left8(w), i + 8)
  {
    hide Left, Left8;
    FourUp(w, i);
    FourUp(Left(Left(Left(Left(w)))), i + 4);
    LeftEight(w);
  }

  /** The eight bits at the top. */
  lemma {:induction false} TopByte(w: bv64)
    ensures Digit(w, 56) <==> w & 0x100000000000000 != 0
    ensures Digit(w, 57) <==> w & 0x200000000000000 != 0
    ensures Digit(w, 58) <==> w & 0x400000000000000 != 0
    ensures Digit(w, 59) <==> w & 0x800000000000000 != 0
    ensures Digit(w, 60) <==> w & 0x1000000000000000 != 0
    ensures Digit(w, 61) <==> w & 0x2000000000000000 != 0
    ensures Digit(w, 62) <==> w & 0x4000000000000000 != 0
    ensures Digit(w, 63) <==> w & 0x8000000000000000 != 0
  {
    var a, b := Left(Left(w)), Left(Left(Left(Left(w))));
    TopBits(w);
    hide Left, TopSet;
    FourUp(w, 56);
    FourUp(w, 57);
    FourUp(w, 58);
    FourUp(w, 59);
    assert Digit(b, 62) == TopSet(Left(b)) && Digit(b, 61) == TopSet(Left(Left(b)));
    assert Digit(b, 60) == Digit(Left(b), 61) == TopSet(Left(Left(Left(b))));
    assert Digit(w, 62) == TopSet(Left(w)) && Digit(w, 61) == TopSet(a) && Digit(w, 60) == Digit(Left(w), 61) == TopSet(Left(a));
  }

  lemma {:induction false} TopBits(w: bv64)
    ensures TopSet(w) <==> w & 0x8000000000000000 != 0
    ensures TopSet(Left(w)) <==> w & 0x4000000000000000 != 0
    ensures TopSet(Left(Left(w))) <==> w & 0x2000000000000000 != 0
    ensures TopSet(Left(Left(Left(w)))) <==> w & 0x1000000000000000 != 0
    ensures TopSet(Left(Left(Left(Left(w))))) <==> w & 0x800000000000000 != 0
    ensures TopSet(Left(Left(Left(Left(Left(w)))))) <==> w & 0x400000000000000 != 0
    ensures TopSet(Left(Left(Left(Left(Left(Left(w))))))) <==> w & 0x200000000000000 != 0
    ensures TopSet(Left(Left(Left(Left(Left(Left(Left(w)))))))) <==> w & 0x100000000000000 != 0
  {
  }

  /** The bits of a register below bit 64 - 8 r, moved up by r bytes to the bits of another one. */
  ghost predicate Raised(w: bv64, r: nat, v: bv64) {
    forall i :: 0 <= i < 64 - 8 * r ==> Digit(w, i) == Digit(v, i + 8 * r)
  }

  lemma {:induction false} RaiseMore(w: bv64, r: nat, v: bv64)
    requires r < 7 && Raised(w, r, v)
    ensures Raised(w, r + 1, Left8(v))
  {
    hide Digit, Left8;
    forall i | 0 <= i < 64 - 8 * (r + 1) ensures Digit(w, i) == Digit(Left8(v), i + 8 * (r + 1)) {
      assert Digit(w, i) == Digit(v, i + 8 * r);
      EightUp(v, i + 8 * r);
    }
  }

  /** The bytes of the polynomial, each moved to the top. */
  lemma {:induction false} PolyRows()
    ensures Raised(POLY, 0, POLY)
    ensures Raised(POLY, 1, 0x93d23594c935a900)
    ensures Raised(POLY, 2, 0xd23594c935a90000)
    ensures Raised(POLY, 3, 0x3594c935a9000000)
    ensures Raised(POLY, 4, 0x94c935a900000000)
    ensures Raised(POLY, 5, 0xc935a90000000000)
    ensures Raised(POLY, 6, 0x35a9000000000000)
    ensures Raised(POLY, 7, 0xa900000000000000)
  {
    hide Digit;
    RaiseMore(POLY, 0, 0xad93d23594c935a9);
    assert Left8(0xad93d23594c935a9) == 0x93d23594c935a900;
    RaiseMore(POLY, 1, 0x93d23594c935a900);
    assert Left8(0x93d23594c935a900) == 0xd23594c935a90000;
    RaiseMore(POLY, 2, 0xd23594c935a90000);
    assert Left8(0xd23594c935a90000) == 0x3594c935a9000000;
    RaiseMore(POLY, 3, 0x3594c935a9000000);
    assert Left8(0x3594c935a9000000) == 0x94c935a900000000;
    RaiseMore(POLY, 4, 0x94c935a900000000);
    assert Left8(0x94c935a900000000) == 0xc935a90000000000;
    RaiseMore(POLY, 5, 0xc935a90000000000);
    assert Left8(0xc935a90000000000) == 0x35a9000000000000;
    RaiseMore(POLY, 6, 0x35a9000000000000);
    assert Left8(0x35a9000000000000) == 0xa900000000000000;
  }

  lemma {:induction false} PolyByte7()
    ensures Digit(POLY, 56)
    ensures !Digit(POLY, 57)
    ensures Digit(POLY, 58)
    ensures Digit(POLY, 59)
    ensures !Digit(POLY, 60)
    ensures Digit(POLY, 61)
    ensures !Digit(POLY, 62)
    ensures Digit(POLY, 63)
  {
    hide Digit, Raised;
    PolyRows();
    TopByte(0xad93d23594c935a9);
    RaisedByte(POLY, 0, 0xad93d23594c935a9);
  }

  lemma {:induction false} PolyByte6()
    ensures Digit(POLY, 48)
    ensures Digit(POLY, 49)
    ensures !Digit(POLY, 50)
    ensures !Digit(POLY, 51)
    ensures Digit(POLY, 52)
    ensures !Digit(POLY, 53)
    ensures !Digit(POLY, 54)
    ensures Digit(POLY, 55)
  {
    hide Digit, Raised;
    PolyRows();
    TopByte(0x93d23594c935a900);
    RaisedByte(POLY, 1, 0x93d23594c935a900);
  }

  lemma {:induction false} PolyByte5()
    ensures !Digit(POLY, 40)
    ensures Digit(POLY, 41)
    ensures !Digit(POLY, 42)
    ensures !Digit(POLY, 43)
    ensures Digit(POLY, 44)
    ensures !Digit(POLY, 45)
    ensures Digit(POLY, 46)
    ensures Digit(POLY, 47)
  {
    hide Digit, Raised;
    PolyRows();
    TopByte(0xd23594c935a90000);
    RaisedByte(POLY, 2, 0xd23594c935a90000);
  }

  lemma {:induction false} PolyByte4()
    ensures Digit(POLY, 32)
    ensures !Digit(POLY, 33)
    ensures Digit(POLY, 34)
    ensures !Digit(POLY, 35)
    ensures Digit(POLY, 36)
    ensures Digit(POLY, 37)
    ensures !Digit(POLY, 38)
    ensures !Digit(POLY, 39)
  {
    hide Digit, Raised;
    PolyRows();
    TopByte(0x3594c935a9000000);
    RaisedByte(POLY, 3, 0x3594c935a9000000);
  }

  lemma {:induction false} PolyByte3()
    ensures !Digit(POLY, 24)
    ensures !Digit(POLY, 25)
    ensures Digit(POLY, 26)
    ensures !Digit(POLY, 27)
    ensures Digit(POLY, 28)
    ensures !Digit(POLY, 29)
    ensures !Digit(POLY, 30)
    ensures Digit(POLY, 31)
  {
    hide Digit, Raised;
    PolyRows();
    TopByte(0x94c935a900000000);
    RaisedByte(POLY, 4, 0x94c935a900000000);
  }

  lemma {:induction false} PolyByte2()
    ensures Digit(POLY, 16)
    ensures !Digit(POLY, 17)
    ensures !Digit(POLY, 18)
    ensures Digit(POLY, 19)
    ensures !Digit(POLY, 20)
    ensures !Digit(POLY, 21)
    ensures Digit(POLY, 22)
    ensures Digit(POLY, 23)
  {
    hide Digit, Raised;
    PolyRows();
    TopByte(0xc935a90000000000);
    RaisedByte(POLY, 5, 0xc935a90000000000);
  }

  lemma {:induction false} PolyByte1()
    ensures Digit(POLY, 8)
    ensures !Digit(POLY, 9)
    ensures Digit(POLY, 10)
    ensures !Digit(POLY, 11)
    ensures Digit(POLY, 12)
    ensures Digit(POLY, 13)
    ensures !Digit(POLY, 14)
    ensures !Digit(POLY, 15)
  {
    hide Digit, Raised;
    PolyRows();
    TopByte(0x35a9000000000000);
    RaisedByte(POLY, 6, 0x35a9000000000000);
  }

  lemma {:induction false} PolyByte0()
    ensures Digit(POLY, 0)
    ensures !Digit(POLY, 1)
    ensures !Digit(POLY, 2)
    ensures Digit(POLY, 3)
    ensures !Digit(POLY, 4)
    ensures Digit(POLY, 5)
    ensures !Digit(POLY, 6)
    ensures Digit(POLY, 7)
  {
    hide Digit, Raised;
    PolyRows();
    TopByte(0xa900000000000000);
    RaisedByte(POLY, 7, 0xa900000000000000);
  }

  lemma {:induction false} RaisedByte(w: bv64, r: nat, v: bv64)
    requires r < 8 && Raised(w, r, v)
    ensures Digit(w, 56 - 8 * r) == Digit(v, 56)
    ensures Digit(w, 57 - 8 * r) == Digit(v, 57)
    ensures Digit(w, 58 - 8 * r) == Digit(v, 58)
    ensures Digit(w, 59 - 8 * r) == Digit(v, 59)
    ensures Digit(w, 60 - 8 * r) == Digit(v, 60)
    ensures Digit(w, 61 - 8 * r) == Digit(v, 61)
    ensures Digit(w, 62 - 8 * r) == Digit(v, 62)
    ensures Digit(w, 63 - 8 * r) == Digit(v, 63)
  {
    hide Digit;
    assert 56 - 8 * r + 8 * r == 56;
    assert 57 - 8 * r + 8 * r == 57;
    assert 58 - 8 * r + 8 * r == 58;
    assert 59 - 8 * r + 8 * r == 59;
    assert 60 - 8 * r + 8 * r == 60;
    assert 61 - 8 * r + 8 * r == 61;
    assert 62 - 8 * r + 8 * r == 62;
    assert 63 - 8 * r + 8 * r == 63;
  }

  /** The constant of the source is the divisor without its leading term. */
  lemma {:induction false} PolyIsGenerator()
    ensures Add({64}, PolyOf(POLY)) == Generator()
  {
    hide Digit;
    PolyByte0();
    PolyByte1();
    PolyByte2();
    PolyByte3();
    PolyByte4();
    PolyByte5();
    PolyByte6();
    PolyByte7();
  }

  lemma {:induction false} NothingBelow(w: bv64)
    ensures Left8(Left8(Left8(Left8(Left8(Left8(Left8(Left(w)))))))) & 0x100000000000000 == 0
  {
  }

  /** A shift brings in a zero. */
  lemma {:induction false} LowestIsClear(w: bv64)
    ensures !Digit(Left(w), 0)
  {
    NothingBelow(w);
    hide Digit, Left, Left8;
    var v := Left(w);
    EightUp(v, 0);
    EightUp(Left8(v), 8);
    EightUp(Left8(Left8(v)), 16);
    EightUp(Left8(Left8(Left8(v))), 24);
    EightUp(Left8(Left8(Left8(Left8(v)))), 32);
    EightUp(Left8(Left8(Left8(Left8(Left8(v))))), 40);
    EightUp(Left8(Left8(Left8(Left8(Left8(Left8(v)))))), 48);
    TopByte(Left8(Left8(Left8(Left8(Left8(Left8(Left8(v))))))));
  }

  /** A shift is a product with x, but for the term that leaves the register. */
  lemma {:induction false} PolyOfLeft(w: bv64)
    ensures Shift(PolyOf(w), 1) == PolyOf(Left(w)) + if TopSet(w) then {64} else {}
    ensures forall x :: x in PolyOf(w) ==> x < 64
  {
    hide Left, TopSet;
    LowestIsClear(w);
    forall x: nat ensures x in Shift(PolyOf(w), 1) <==> x in PolyOf(Left(w)) || (x == 64 && TopSet(w)) {
      ShiftAt(PolyOf(w), 1, x);
    }
  }

  // ---------------------------------------------------------------- messages

  function Term(b: bool, e: nat): Poly {
    if b then {e} else {}
  }

  /** One step of the loop: the register, as a remainder, times x plus the next bit of the message. */
  lemma {:induction false} StepIsDivision(crc: bv64, b: bool)
    ensures Congruent(PolyOf(MsbBit(crc, b)), Add(Shift(PolyOf(crc), 1), Term(b, 64)))
  {
    hide Left, TopSet, PolyOf, ShiftLeft, AddPoly, Xor, Shift, Generator;
    var p := PolyOf(Left(crc));
    PolyOfLeft(crc);
    PolyOfLeft(Left(crc));
    ShiftIsLeft(crc);
    var target := Add(Shift(PolyOf(crc), 1), Term(b, 64));
    if TopSet(crc) == b {
      assert target == p;
      AddLaws(p, p, p);
      assert Add(p, p) == Product({});
    } else {
      assert target == Add({64}, p);
      hide Add, Term;
      PolyOfXor(Left(crc), POLY);
      PolyIsGenerator();
      CancelPoly(p, PolyOf(POLY));
      OneTimes();
      assert Add(PolyOf(MsbBit(crc, b)), target) == Product({0});
    }
  }

  lemma {:induction false} ShiftIsLeft(crc: bv64)
    ensures ShiftLeft(crc) == Left(crc) && AddPoly(Left(crc)) == Xor(Left(crc), POLY)
  {
  }

  lemma {:induction false} CancelPoly(p: Poly, q: Poly)
    ensures Add(Add(p, q), Add({64}, p)) == Add({64}, q)
  {
  }

  lemma {:induction false} OneTimes()
    ensures Product({0}) == Generator()
  {
    MaxIs({0}, 0);
    assert {0} - {0} == {};
    forall x: nat ensures x in Shift(Generator(), 0) <==> x in Generator() {
      ShiftAt(Generator(), 0, x);
    }
    AddLaws(Generator(), {}, {});
  }

  /** The bits of a byte in the order in which they are fed to the register. */
  function ByteBits(c: bv8): seq<bool> {
    [c & 1 != 0, c & 2 != 0, c & 4 != 0, c & 8 != 0, c & 16 != 0, c & 32 != 0, c & 64 != 0, c & 128 != 0]
  }

  function MessageBits(data: seq<bv8>): (bits: seq<bool>)
    ensures |bits| == 8 * |data|
  {
    if data == [] then [] else MessageBits(data[..|data| - 1]) + ByteBits(data[|data| - 1])
  }

  /** The message as a polynomial: its first bit is the term of the highest degree. */
  function Message(bits: seq<bool>): Poly {
    set i | 0 <= i < |bits| && FromEnd(bits, i)
  }

  predicate FromEnd(bits: seq<bool>, i: nat)
    requires i < |bits|
  {
    bits[|bits| - 1 - i]
  }

  function MsbFold(crc: bv64, bits: seq<bool>): bv64 {
    if bits == [] then crc else MsbBit(MsbFold(crc, bits[..|bits| - 1]), bits[|bits| - 1])
  }

  lemma {:induction false} MessageSnoc(bits: seq<bool>, b: bool)
    ensures Message(bits + [b]) == Add(Shift(Message(bits), 1), Term(b, 0))
  {
    forall x: nat ensures x in Message(bits + [b]) <==> x in Add(Shift(Message(bits), 1), Term(b, 0)) {
      ShiftAt(Message(bits), 1, x);
    }
  }

  /** The register is congruent to what it was, moved up by the length of the message, plus the message times x^64. */
  lemma {:induction false} RegisterIsRemainder(crc: bv64, bits: seq<bool>)
    ensures Congruent(PolyOf(MsbFold(crc, bits)), Add(Shift(PolyOf(crc), |bits|), Shift(Message(bits), 64)))
    decreases |bits|
  {
    hide PolyOf, MsbBit, Message, Add, Shift, Congruent, Term;
    if bits == [] {
      EmptyMessage(PolyOf(crc), bits);
    } else {
      var n := |bits| - 1;
      var init, b := bits[..n], bits[n];
      assert bits == init + [b];
      var r := MsbFold(crc, init);
      var x := Add(Shift(PolyOf(crc), n), Shift(Message(init), 64));
      RegisterIsRemainder(crc, init);
      CongruentShift(PolyOf(r), x, 1);
      CongruentAdd(Shift(PolyOf(r), 1), Shift(x, 1), Term(b, 64));
      StepIsDivision(r, b);
      MessageSnoc(init, b);
      OneMoreBit(PolyOf(crc), n, Message(init), b);
      CongruentTransitive(PolyOf(MsbFold(crc, bits)), Add(Shift(PolyOf(r), 1), Term(b, 64)), Add(Shift(x, 1), Term(b,
                          64)));
    }
  }

  lemma {:induction false} EmptyMessage(p: Poly, bits: seq<bool>)
    requires bits == []
    ensures Congruent(p, Add(Shift(p, 0), Shift(Message(bits), 64)))
  {
    assert Message(bits) == {} && Shift({}, 64) == {};
    forall x: nat ensures x in Shift(p, 0) <==> x in p {
      ShiftAt(p, 0, x);
    }
    AddLaws(p, {}, {});
    assert Add(p, p) == Product({});
  }

  lemma {:induction false} OneMoreBit(p: Poly, n: nat, m: Poly, b: bool)
    ensures Add(Shift(Add(Shift(p, n), Shift(m, 64)), 1), Term(b, 64)) == Add(Shift(p, n + 1), Shift(Add(Shift(m, 1), Term(b, 0)), 64))
  {
    hide Add, Shift;
    ShiftAdd(Shift(p, n), Shift(m, 64), 1);
    ShiftShift(p, n, 1);
    ShiftShift(m, 64, 1);
    ShiftShift(m, 1, 64);
    ShiftAdd(Shift(m, 1), Term(b, 0), 64);
    TermUp(b);
    AddLaws(Shift(p, n + 1), Shift(m, 65), Term(b, 64));
  }

  lemma {:induction false} TermUp(b: bool)
    ensures Shift(Term(b, 0), 64) == Term(b, 64)
  {
    forall x: nat ensures x in Shift(Term(b, 0), 64) <==> x in Term(b, 64) {
      ShiftAt(Term(b, 0), 64, x);
    }
  }

  // ---------------------------------------------------------------- the CRC of the source

  lemma {:induction false} MsbFoldConcat(crc: bv64, a: seq<bool>, b: seq<bool>)
    ensures MsbFold(crc, a + b) == MsbFold(MsbFold(crc, a), b)
    decreases |b|
  {
    hide MsbBit;
    if b == [] {
      assert a + b == a;
    } else {
      assert (a + b)[..|a + b| - 1] == a + b[..|b| - 1];
      MsbFoldConcat(crc, a, b[..|b| - 1]);
    }
  }

  lemma {:induction false} MsbFoldFirst(crc: bv64, b: bool, rest: seq<bool>)
    ensures MsbFold(crc, [b] + rest) == MsbFold(MsbBit(crc, b), rest)
  {
    hide MsbBit;
    MsbFoldConcat(crc, [b], rest);
    assert [b][..0] == [];
    assert MsbFold(crc, [b]) == MsbBit(MsbFold(crc, []), b);
  }

  lemma {:induction false} MsbFoldFour(crc: bv64, b0: bool, b1: bool, b2: bool, b3: bool)
    ensures MsbFold(crc, [b0, b1, b2, b3]) == MsbBit(MsbBit(MsbBit(MsbBit(crc, b0), b1), b2), b3)
  {
    hide MsbBit;
    assert [b0, b1, b2, b3] == [b0] + [b1, b2, b3] && [b1, b2, b3] == [b1] + [b2, b3] && [b2, b3] == [b2] + [b3];
    MsbFoldFirst(crc, b0, [b1, b2, b3]);
    MsbFoldFirst(MsbBit(crc, b0), b1, [b2, b3]);
    MsbFoldFirst(MsbBit(MsbBit(crc, b0), b1), b2, [b3]);
    MsbFoldFirst(MsbBit(MsbBit(MsbBit(crc, b0), b1), b2), b3, []);
    assert [b3] + [] == [b3];
  }

  lemma {:induction false} FourMirror(crc: bv64, b0: bool, b1: bool, b2: bool, b3: bool)
    ensures LsbBit(LsbBit(LsbBit(LsbBit(Reverse64(crc), b0), b1), b2), b3) == Reverse64(MsbFold(crc, [b0, b1, b2, b3]))
  {
    hide MsbBit, LsbBit, Reverse64, MsbFold;
    MsbFoldFour(crc, b0, b1, b2, b3);
    BitStepsMirror(crc, b0);
    BitStepsMirror(MsbBit(crc, b0), b1);
    BitStepsMirror(MsbBit(MsbBit(crc, b0), b1), b2);
    BitStepsMirror(MsbBit(MsbBit(MsbBit(crc, b0), b1), b2), b3);
  }

  lemma {:induction false} EightOfFour(b0: bool, b1: bool, b2: bool, b3: bool, b4: bool, b5: bool, b6: bool, b7: bool)
    ensures [b0, b1, b2, b3, b4, b5, b6, b7] == [b0, b1, b2, b3] + [b4, b5, b6, b7]
  {
  }

  lemma {:induction false} EightMirror(crc: bv64, b0: bool, b1: bool, b2: bool, b3: bool, b4: bool, b5: bool, b6: bool,
      b7: bool)
    ensures LsbBit(LsbBit(LsbBit(LsbBit(LsbBit(LsbBit(LsbBit(LsbBit(Reverse64(crc), b0), b1), b2), b3), b4), b5), b6), b7)
         == Reverse64(MsbFold(crc, [b0, b1, b2, b3, b4, b5, b6, b7]))
  {
    hide LsbBit, MsbBit, Reverse64, MsbFold;
    var low, high := [b0, b1, b2, b3], [b4, b5, b6, b7];
    EightOfFour(b0, b1, b2, b3, b4, b5, b6, b7);
    MsbFoldConcat(crc, low, high);
    FourMirror(crc, b0, b1, b2, b3);
    FourMirror(MsbFold(crc, low), b4, b5, b6, b7);
  }

  /** A byte of input, on the reflected register and on the plain one. */
  lemma {:induction false} ByteMirror(crc: bv64, c: bv8)
    ensures LsbByte(Reverse64(crc), c) == Reverse64(MsbFold(crc, ByteBits(c)))
  {
    hide LsbByte, LsbBit, MsbBit, Reverse64, MsbFold;
    LsbByteUnrolled(Reverse64(crc), c);
    EightMirror(crc, c & 1 != 0, c & 2 != 0, c & 4 != 0, c & 8 != 0, c & 16 != 0, c & 32 != 0, c & 64 != 0,
                c & 128 != 0);
  }

  lemma {:induction false} FoldMirror(crc: bv64, data: seq<bv8>)
    ensures Fold(Reverse64(crc), data) == Reverse64(MsbFold(crc, MessageBits(data)))
    decreases |data|
  {
    hide LsbByte, Reverse64, ByteBits;
    if data != [] {
      var n := |data| - 1;
      hide Fold, MsbFold;
      FoldMirror(crc, data[..n]);
      assert data == data[..n] + [data[n]];
      FoldSnoc(Reverse64(crc), data[..n], data[n]);
      MsbFoldConcat(crc, MessageBits(data[..n]), ByteBits(data[n]));
      ByteMirror(MsbFold(crc, MessageBits(data[..n])), data[n]);
    }
  }

  lemma {:induction false} ReverseTwice(a: bv64)
    ensures Reverse64(Reverse64(a)) == a
  {
  }

  /** The polynomial of a CRC, whose first bit is the term of the highest degree. */
  function CrcPoly(crc: bv64): Poly {
    PolyOf(Reverse64(crc))
  }

  /**
    The CRC of a message, continued from any CRC, is the remainder of a division: of the message times x^64 plus
    the earlier CRC times x to the length of the message, by the polynomial with the coefficients above.
   */
  lemma {:induction false} CrcIsRemainder(crc: bv64, data: seq<bv8>, r: Poly)
    ensures var dividend := Add(Shift(CrcPoly(crc), 8 * |data|), Shift(Message(MessageBits(data)), 64));
            && Congruent(CrcPoly(Fold(crc, data)), dividend)
            && (forall x :: x in CrcPoly(Fold(crc, data)) ==> x < 64)
            && (Congruent(r, dividend) && (forall x :: x in r ==> x < 64) ==> r == CrcPoly(Fold(crc, data)))
  {
    hide Fold, Reverse64, MsbFold, Message, Add, Shift, PolyOf, Congruent;
    var v := Reverse64(crc);
    ReverseTwice(crc);
    FoldMirror(v, data);
    var w := MsbFold(v, MessageBits(data));
    ReverseTwice(w);
    RegisterIsRemainder(v, MessageBits(data));
    PolyOfLeft(w);
    var dividend := Add(Shift(CrcPoly(crc), 8 * |data|), Shift(Message(MessageBits(data)), 64));
    if Congruent(r, dividend) && forall x :: x in r ==> x < 64 {
      CongruentSymmetric(PolyOf(w), dividend);
      CongruentTransitive(r, dividend, PolyOf(w));
      RemainderIsUnique(r, PolyOf(w));
    }
  }

  lemma {:induction false} CongruentSymmetric(a: Poly, b: Poly)
    requires Congruent(a, b)
    ensures Congruent(b, a)
  {
    AddLaws(a, b, {});
  }
}
