/**
  Decimal numbers as the append-only file writes them (ll2string) and as the C
  library reads them back (strtol, atoi).
 */
module Decimals {

  const LONG_MAX: int := 0x7fff_ffff_ffff_ffff
  const LONG_MIN: int := -0x8000_0000_0000_0000
  const ULONG: int := 0x1_0000_0000_0000_0000
  const UINT: int := 0x1_0000_0000

  predicate IsDigit(c: char) {
    '0' <= c <= '9'
  }

  function Value(c: char): nat
    requires IsDigit(c)
  {
    c as int - '0' as int
  }

  function Digits(n: nat): string {
    if n < 10 then [(n + '0' as int) as char] else Digits(n / 10) + [(n % 10 + '0' as int) as char]
  }

  function Decimal(n: int): string {
    if n < 0 then "-" + Digits(-n) else Digits(n)
  }

  /** The number that the digits at the front of s continue, after the digits of n. */
  function Continue(n: nat, s: string): nat
    decreases |s|
  {
    if s == "" || !IsDigit(s[0]) then n else Continue(10 * n + Value(s[0]), s[1..])
  }

  predicate IsSpace(c: char) {
    c == ' ' || '\t' <= c <= '\r'
  }

  function SkipSpaces(s: string): (t: string)
    ensures |t| <= |s|
    decreases |s|
  {
    if s == "" || !IsSpace(s[0]) then s else SkipSpaces(s[1..])
  }

  function Clamp(n: int): int {
    if n < LONG_MIN then LONG_MIN else if n > LONG_MAX then LONG_MAX else n
  }

  /** strtol(s, NULL, 10): leading spaces, a sign, digits up to the first other character. */
  function Strtol(s: string): int {
    var t := SkipSpaces(s);
    if t != "" && t[0] == '-' then Clamp(0 - Continue(0, t[1..]))
    else if t != "" && t[0] == '+' then Clamp(Continue(0, t[1..]))
    else Clamp(Continue(0, t))
  }

  /** The conversion of a long to an int: 32 bits, two's complement. */
  function ToInt(n: int): int {
    var m := n % UINT;
    if m >= UINT / 2 then m - UINT else m
  }

  /** The conversion of a long to an unsigned long. */
  function ToUnsigned(n: int): nat {
    n % ULONG
  }

  lemma {:induction false} ContinueDigits(n: nat, rest: string)
    ensures Continue(0, Digits(n) + rest) == Continue(n, rest)
    decreases n
  {
    var last := [(n % 10 + '0' as int) as char];
    if n < 10 {
      assert Digits(n) + rest == last + rest;
      assert (last + rest)[1..] == rest;
    } else {
      ContinueDigits(n / 10, last + rest);
      assert Digits(n) + rest == Digits(n / 10) + (last + rest);
      assert (last + rest)[1..] == rest;
    }
  }

  lemma {:induction false} DigitsAreDigits(n: nat, i: nat)
    requires i < |Digits(n)|
    ensures IsDigit(Digits(n)[i])
    decreases n
  {
    if n >= 10 && i < |Digits(n / 10)| {
      DigitsAreDigits(n / 10, i);
    }
  }

  ghost predicate StopsHere(s: string) {
    s == "" || !IsDigit(s[0])
  }

  /** Reading back a printed number, whatever follows it. */
  lemma {:induction false} StrtolDecimal(n: int, rest: string)
    requires LONG_MIN <= n <= LONG_MAX && StopsHere(rest)
    ensures Strtol(Decimal(n) + rest) == n
  {
    var m := if n < 0 then -n else n;
    ContinueDigits(m, rest);
    DigitsAreDigits(m, 0);
    var s := Decimal(n) + rest;
    if n < 0 {
      assert s == "-" + (Digits(m) + rest);
      assert s[0] == '-' && s[1..] == Digits(m) + rest;
    } else {
      assert s[0] == Digits(m)[0];
    }
  }

  /** Every non-empty beginning of the digits of n is the digits of a smaller number, positive when n is. */
  lemma {:induction false} CutDigits(n: nat, k: nat) returns (m: nat)
    requires 0 < k <= |Digits(n)|
    ensures Digits(n)[..k] == Digits(m) && m <= n && (n > 0 ==> m > 0)
    decreases n
  {
    if k == |Digits(n)| {
      m := n;
    } else {
      m := CutDigits(n / 10, k);
      assert Digits(n)[..k] == Digits(n / 10)[..k];
    }
  }

  function Pow10(k: nat): nat {
    if k == 0 then 1 else 10 * Pow10(k - 1)
  }

  lemma {:induction false} DigitsFit(n: nat, k: nat)
    requires k > 0 && n < Pow10(k)
    ensures |Digits(n)| <= k
    decreases k
  {
    if n >= 10 {
      assert k > 1;
      DigitsFit(n / 10, k - 1);
    }
  }

  /** A number of a machine word has at most 19 digits. */
  lemma {:induction false} LongDigits(n: nat)
    requires n <= LONG_MAX
    ensures |Digits(n)| <= 19
  {
    assert Pow10(4) == 10000;
    assert Pow10(8) == 1_0000_0000 by {
      assert Pow10(6) == 100 * Pow10(4);
      assert Pow10(8) == 100 * Pow10(6);
    }
    assert Pow10(12) == 1_0000_0000_0000 by {
      assert Pow10(10) == 100 * Pow10(8);
      assert Pow10(12) == 100 * Pow10(10);
    }
    assert Pow10(16) == 1_0000_0000_0000_0000 by {
      assert Pow10(14) == 100 * Pow10(12);
      assert Pow10(16) == 100 * Pow10(14);
    }
    assert Pow10(19) == 1000_0000_0000_0000_0000 by {
      assert Pow10(18) == 100 * Pow10(16);
      assert Pow10(19) == 10 * Pow10(18);
    }
    DigitsFit(n, 19);
  }
}
