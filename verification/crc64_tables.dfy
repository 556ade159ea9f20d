/**
  The slice-by-8 tables of crcspeed.c and the loops that use them, on little-endian
  and big-endian machines, against the bit-by-bit CRC.
 */
module Crc64Tables {
  import opened Crc64

  /** The byte an index of a table row stands for. */
  function Byte(n: nat): bv8
    requires n < 256
  {
    n as bv8
  }

  /** The index of the low byte of a register. */
  function Index(x: bv64): nat
    ensures Index(x) < 256
  {
    (x & 0xff) as bv8 as int
  }

  lemma {:induction false} IndexIsLow(x: bv64)
    ensures Wide(Byte(Index(x))) == Low(x)
  {
    ByteRound((x & 0xff) as bv8);
    LowFits(x);
    hide Byte, Low, Wide;
  }

  lemma {:induction false} LowFits(x: bv64)
    ensures Wide((x & 0xff) as bv8) == Low(x)
  {
  }

  lemma {:induction false} ByteRound(b: bv8)
    ensures Byte(b as int) == b
  {
  }

  /** What table[k][n] must hold: the CRC of byte n followed by k zero bytes. */
  ghost function Entry(k: nat, n: nat): bv64
    requires n < 256
  {
    Rounds(k + 1, Wide(Byte(n)))
  }

  /** Entry k, n is the CRC that consuming byte n and then k zero bytes gives. */
  lemma {:induction false} EntryIsCrc(k: nat, n: nat)
    requires n < 256
    ensures Entry(k, n) == Fold(0, [Byte(n)] + seq(k, i => 0))
    decreases k
  {
    hide Xor, Shift8, Byte, Wide, LsbByte;
    if k == 0 {
      assert [Byte(n)] + seq(0, i => 0) == [] + [Byte(n)];
      FoldSnoc(0, [], Byte(n));
      SingleByte(Byte(n));
    } else {
      EntryIsCrc(k - 1, n);
      var zeros: seq<bv8> := seq(k - 1, i => 0);
      assert [Byte(n)] + seq(k, i => 0) == ([Byte(n)] + zeros) + [0];
      FoldSnoc(0, [Byte(n)] + zeros, 0);
      ByteIsShift8(Entry(k - 1, n), 0);
      WideZero();
      XorLaws(Entry(k - 1, n), 0, 0);
      RoundsSnoc(k, Wide(Byte(n)));
    }
  }

  lemma {:induction false} WideZero()
    ensures Wide(0) == 0
  {
  }

  lemma {:induction false} SingleByte(b: bv8)
    ensures LsbByte(0, b) == Shift8(Wide(b)) == Rounds(1, Wide(b))
  {
    hide Xor, Shift8, Wide, LsbByte;
    ByteIsShift8(0, b);
    XorLaws(Wide(b), 0, 0);
    assert Rounds(1, Wide(b)) == Rounds(0, Shift8(Wide(b)));
  }

  lemma {:induction false} RoundsSnoc(n: nat, x: bv64)
    ensures Shift8(Rounds(n, x)) == Rounds(n + 1, x)
    decreases n
  {
    hide Shift8;
    if n > 0 {
      RoundsSnoc(n - 1, Shift8(x));
    }
  }

  /** One lookup in row 0 and a shift of the register are eight shifts. */
  lemma {:induction false} LookupStep(crc: bv64)
    ensures Xor(Entry(0, Index(crc)), Rest(crc)) == Shift8(crc)
  {
    hide Xor, Shift8, Wide, Low, Rest, Byte, Index;
    IndexIsLow(crc);
    Shift8Split(crc);
    assert Rounds(1, Low(crc)) == Rounds(0, Shift8(Low(crc)));
  }

  /** The byte loops: one lookup consumes one byte. */
  lemma {:induction false} LookupByte(crc: bv64, b: bv8)
    ensures Xor(Entry(0, Index(Xor(crc, Wide(b)))), Rest(crc)) == LsbByte(crc, b)
  {
    RestOfXor(crc, b);
    hide Xor, Shift8, Wide, Low, Rest, Byte, Index, LsbByte, Entry;
    LookupStep(Xor(crc, Wide(b)));
    ByteIsShift8(crc, b);
  }

  lemma {:induction false} RestOfXor(crc: bv64, b: bv8)
    ensures Rest(Xor(crc, Wide(b))) == Rest(crc)
  {
  }

  /** The eight lookups of the fast loop. */
  ghost function Slices(x: bv64): bv64 {
    Sum8(Entry(7, Index(x)), Entry(6, Index(x >> 8)), Entry(5, Index(x >> 16)), Entry(4, Index(x >> 24)),
         Entry(3, Index(x >> 32)), Entry(2, Index(x >> 40)), Entry(1, Index(x >> 48)), Entry(0, Index(x >> 56)))
  }

  lemma {:induction false} EntryAt(k: nat, y: bv64)
    ensures Entry(k, Index(y)) == Rounds(k + 1, Low(y))
  {
    hide Byte, Index, Wide, Low, Rounds;
    IndexIsLow(y);
  }

  lemma {:induction false} SlicesAreLookups(x: bv64)
    ensures Slices(x) == Lookups(x)
  {
    hide Sum8, Index, Low, Rounds, Entry;
    EntryAt(7, x);
    EntryAt(6, x >> 8);
    EntryAt(5, x >> 16);
    EntryAt(4, x >> 24);
    EntryAt(3, x >> 32);
    EntryAt(2, x >> 40);
    EntryAt(1, x >> 48);
    EntryAt(0, x >> 56);
  }

  /** The fast loop: eight lookups consume eight bytes. */
  lemma {:induction false} LookupEight(crc: bv64, b: seq<bv8>)
    requires |b| == 8
    ensures Slices(Xor(crc, Load(b[0], b[1], b[2], b[3], b[4], b[5], b[6], b[7]))) == Fold(crc, b)
  {
    hide Xor, Slices, Lookups, Rounds, Fold, Load;
    var x := Xor(crc, Load(b[0], b[1], b[2], b[3], b[4], b[5], b[6], b[7]));
    SlicesAreLookups(x);
    LookupsAreRounds(x);
    EightBytes(crc, b[0], b[1], b[2], b[3], b[4], b[5], b[6], b[7]);
    assert b == [b[0], b[1], b[2], b[3], b[4], b[5], b[6], b[7]];
  }

  // ---------------------------------------------------------------- byte order

  /** The bytes of a in reverse order. */
  function Rev8(a: bv64): bv64 {
    (a << 56) | ((a & 0xff00) << 40) | ((a & 0xff0000) << 24) | ((a & 0xff000000) << 8)
    | ((a >> 8) & 0xff000000) | ((a >> 24) & 0xff0000) | ((a >> 40) & 0xff00) | (a >> 56)
  }

  /** The swaps of ever larger groups that the source spells out. */
  lemma {:induction false} Rev8BySwaps(a: bv64)
    ensures var b := ((a >> 8) & 0xff00ff00ff00ff) | ((a & 0xff00ff00ff00ff) << 8);
            var c := ((b >> 16) & 0xffff0000ffff) | ((b & 0xffff0000ffff) << 16);
            Rev8(a) == (c >> 32) | (c << 32)
  {
  }

  lemma {:induction false} Rev8Twice(a: bv64)
    ensures Rev8(Rev8(a)) == a
  {
  }

  lemma {:induction false} Rev8Xor(a: bv64, b: bv64)
    ensures Rev8(Xor(a, b)) == Xor(Rev8(a), Rev8(b))
  {
  }

  lemma {:induction false} Rev8Rest(a: bv64)
    ensures Rev8(Rest(a)) == Up(Rev8(a))
  {
    assert Rev8(a >> 8) == Rev8(a) << 8;
    hide Rev8;
  }

  /** The word a big-endian machine loads from eight bytes. */
  function LoadBig(b0: bv8, b1: bv8, b2: bv8, b3: bv8, b4: bv8, b5: bv8, b6: bv8, b7: bv8): bv64 {
    Load(b7, b6, b5, b4, b3, b2, b1, b0)
  }

  lemma {:induction false} LoadBigIsRev8(b0: bv8, b1: bv8, b2: bv8, b3: bv8, b4: bv8, b5: bv8, b6: bv8, b7: bv8)
    ensures LoadBig(b0, b1, b2, b3, b4, b5, b6, b7) == Rev8(Load(b0, b1, b2, b3, b4, b5, b6, b7))
  {
  }

  /** The bytes of the reversed register, from either end. */
  lemma {:induction false} Rev8Bytes(x: bv64)
    ensures Low(Rev8(x)) == Low(x >> 56) && Low(Rev8(x) >> 8) == Low(x >> 48) && Low(Rev8(x) >> 16) == Low(x >> 40)
    ensures Low(Rev8(x) >> 24) == Low(x >> 32) && Low(Rev8(x) >> 32) == Low(x >> 24)
    ensures Low(Rev8(x) >> 40) == Low(x >> 16)
    ensures Low(Rev8(x) >> 48) == Low(x >> 8) && Rev8(x) >> 56 == Low(x)
  {
  }

  // ---------------------------------------------------------------- little-endian machines

  ghost predicate IsTable(t: array2<bv64>) {
    t.Length0 == 8 && t.Length1 == 256
  }

  ghost predicate LittleTable(t: array2<bv64>)
    reads t
  {
    IsTable(t) && forall k, n :: 0 <= k < 8 && 0 <= n < 256 ==> t[k, n] == Entry(k, n)
  }

  lemma {:induction false} TableAt(t: array2<bv64>, k: nat, n: nat)
    requires LittleTable(t) && k < 8 && n < 256
    ensures t[k, n] == Entry(k, n)
  {
  }

  /** The table filled in by the bit-by-bit algorithm holds every Entry. */
  method InitLittle(table: array2<bv64>)
    requires IsTable(table)
    modifies table
    ensures LittleTable(table)
  {
    hide Fold, LsbByte, Shift8, Xor, Rest, Wide, Byte, Index, Rounds, Reverse64, Entry;
    for n := 0 to 256
      invariant forall m :: 0 <= m < n ==> table[0, m] == Entry(0, m)
    {
      table[0, n] := RowZero(n);
    }
    for n := 0 to 256
      invariant forall m :: 0 <= m < 256 ==> table[0, m] == Entry(0, m)
      invariant forall j, m :: 0 <= j < 8 && 0 <= m < n ==> table[j, m] == Entry(j, m)
    {
      assert table[0, n] == Entry(0, n);
      var crc := table[0, n];
      for k := 1 to 8
        invariant crc == Entry(k - 1, n)
        invariant forall m :: 0 <= m < 256 ==> table[0, m] == Entry(0, m)
        invariant forall j, m :: 0 <= j < 8 && 0 <= m < n ==> table[j, m] == Entry(j, m)
        invariant forall j :: 0 <= j < k ==> table[j, n] == Entry(j, n)
      {
        assert table[0, Index(crc)] == Entry(0, Index(crc));
        LookupStep(crc);
        NextRow(k, n);
        crc := Xor(table[0, Index(crc)], Rest(crc));
        table[k, n] := crc;
      }
    }
  }

  method RowZero(n: nat) returns (crc: bv64)
    requires n < 256
    ensures crc == Entry(0, n)
  {
    assert Reverse64(0) == 0;
    hide Reverse64, LsbByte, Byte, Wide, Rounds;
    crc := Crc64Bitwise(0, [Byte(n)]);
    FoldSnoc(0, [], Byte(n));
    assert [] + [Byte(n)] == [Byte(n)];
    SingleByte(Byte(n));
  }

  lemma {:induction false} NextRow(k: nat, n: nat)
    requires k > 0 && n < 256
    ensures Shift8(Entry(k - 1, n)) == Entry(k, n)
  {
    hide Shift8, Byte, Wide, Rounds;
    RoundsSnoc(k, Wide(Byte(n)));
  }

  /** One byte of the buffer through the table. */
  method LittleByte(table: array2<bv64>, crc: bv64, b: bv8) returns (r: bv64)
    requires LittleTable(table)
    ensures r == LsbByte(crc, b)
  {
    hide LsbByte, Shift8, Xor, Rest, Wide, Byte, Index, Rounds, Entry;
    TableAt(table, 0, Index(Xor(crc, Wide(b))));
    LookupByte(crc, b);
    r := Xor(table[0, Index(Xor(crc, Wide(b)))], Rest(crc));
  }

  method EightLookups(table: array2<bv64>, x: bv64) returns (r: bv64)
    requires LittleTable(table)
    ensures r == Slices(x)
  {
    assert IsTable(table);
    hide LittleTable, Index, Entry, Sum8;
    TableAt(table, 7, Index(x));
    TableAt(table, 6, Index(x >> 8));
    TableAt(table, 5, Index(x >> 16));
    TableAt(table, 4, Index(x >> 24));
    TableAt(table, 3, Index(x >> 32));
    TableAt(table, 2, Index(x >> 40));
    TableAt(table, 1, Index(x >> 48));
    TableAt(table, 0, Index(x >> 56));
    r := Sum8(table[7, Index(x)], table[6, Index(x >> 8)], table[5, Index(x >> 16)], table[4, Index(x >> 24)],
              table[3, Index(x >> 32)], table[2, Index(x >> 40)], table[1, Index(x >> 48)], table[0, Index(x >> 56)]);
  }

  /** Eight bytes of the buffer through the table. */
  method LittleEight(table: array2<bv64>, crc: bv64, b: seq<bv8>) returns (r: bv64)
    requires LittleTable(table) && |b| == 8
    ensures r == Fold(crc, b)
  {
    hide LittleTable, Slices, Xor, Load, Fold;
    r := EightLookups(table, Xor(crc, Load(b[0], b[1], b[2], b[3], b[4], b[5], b[6], b[7])));
    LookupEight(crc, b);
  }

  /** The byte loop, the aligned eight-byte loop and the remaining bytes, for a buffer at any address. */
  method Little(table: array2<bv64>, crc0: bv64, buf: seq<bv8>, addr: nat) returns (crc: bv64)
    requires LittleTable(table)
    ensures crc == Fold(crc0, buf)
  {
    hide LittleTable, Fold, LsbByte;
    crc := crc0;
    var next := 0;
    assert Fold(crc0, buf[..0]) == crc0 by {
      FoldNothing(crc0);
    }
    while next < |buf| && (addr + next) % 8 != 0
      invariant next <= |buf|
      invariant crc == Fold(crc0, buf[..next])
    {
      TakeByte(crc0, buf, next);
      crc := LittleByte(table, crc, buf[next]);
      next := next + 1;
    }
    while |buf| - next >= 8
      invariant next <= |buf|
      invariant crc == Fold(crc0, buf[..next])
    {
      TakeEight(crc0, buf, next);
      crc := LittleEight(table, crc, buf[next..next + 8]);
      next := next + 8;
    }
    while next < |buf|
      invariant next <= |buf|
      invariant crc == Fold(crc0, buf[..next])
    {
      TakeByte(crc0, buf, next);
      crc := LittleByte(table, crc, buf[next]);
      next := next + 1;
    }
    assert buf[..next] == buf;
  }

  lemma {:induction false} FoldNothing(crc: bv64)
    ensures Fold(crc, []) == crc
  {
  }

  lemma {:induction false} TakeByte(crc: bv64, buf: seq<bv8>, n: nat)
    requires n < |buf|
    ensures Fold(crc, buf[..n + 1]) == LsbByte(Fold(crc, buf[..n]), buf[n])
  {
    hide LsbByte, Fold;
    FoldSnoc(crc, buf[..n], buf[n]);
    assert buf[..n] + [buf[n]] == buf[..n + 1];
  }

  lemma {:induction false} TakeEight(crc: bv64, buf: seq<bv8>, n: nat)
    requires n + 8 <= |buf|
    ensures Fold(crc, buf[..n + 8]) == Fold(Fold(crc, buf[..n]), buf[n..n + 8])
  {
    hide LsbByte, Fold;
    FoldConcat(crc, buf[..n], buf[n..n + 8]);
    assert buf[..n] + buf[n..n + 8] == buf[..n + 8];
  }

  // ---------------------------------------------------------------- big-endian machines

  ghost predicate BigTable(t: array2<bv64>)
    reads t
  {
    IsTable(t) && forall k, n :: 0 <= k < 8 && 0 <= n < 256 ==> t[k, n] == Rev8(Entry(k, n))
  }

  lemma {:induction false} BigTableAt(t: array2<bv64>, k: nat, n: nat)
    requires BigTable(t) && k < 8 && n < 256
    ensures t[k, n] == Rev8(Entry(k, n))
  {
  }

  /** The table of a big-endian machine: every entry of the little-endian one with its bytes reversed. */
  method InitBig(table: array2<bv64>)
    requires IsTable(table)
    modifies table
    ensures BigTable(table)
  {
    InitLittle(table);
    hide Entry, Rev8;
    for k := 0 to 8
      invariant forall j, m :: 0 <= j < k && 0 <= m < 256 ==> table[j, m] == Rev8(Entry(j, m))
      invariant forall j, m :: k <= j < 8 && 0 <= m < 256 ==> table[j, m] == Entry(j, m)
    {
      ReverseRow(table, k);
    }
  }

  method ReverseRow(table: array2<bv64>, k: nat)
    requires IsTable(table) && k < 8
    requires forall m :: 0 <= m < 256 ==> table[k, m] == Entry(k, m)
    modifies table
    ensures forall m :: 0 <= m < 256 ==> table[k, m] == Rev8(Entry(k, m))
    ensures forall j, m :: 0 <= j < 8 && j != k && 0 <= m < 256 ==> table[j, m] == old(table[j, m])
  {
    hide Entry, Rev8;
    for n := 0 to 256
      invariant forall m :: 0 <= m < n ==> table[k, m] == Rev8(Entry(k, m))
      invariant forall m :: n <= m < 256 ==> table[k, m] == Entry(k, m)
      invariant forall j, m :: 0 <= j < 8 && j != k && 0 <= m < 256 ==> table[j, m] == old(table[j, m])
    {
      table[k, n] := Rev8(table[k, n]);
    }
  }

  /** The byte the big-endian loop looks up: the top byte of the register, xored with the next byte of the buffer. */
  function BigIndex(x: bv64, b: bv8): nat
    ensures BigIndex(x, b) < 256
  {
    ((x >> 56) as bv8 ^ b) as int
  }

  lemma {:induction false} BigIndexByte(c: bv64, b: bv8)
    ensures (Rev8(c) >> 56) as bv8 ^ b == (Xor(c, Wide(b)) & 0xff) as bv8
  {
  }

  method BigByte(table: array2<bv64>, crc: bv64, b: bv8, ghost c: bv64) returns (r: bv64)
    requires BigTable(table) && crc == Rev8(c)
    ensures r == Rev8(LsbByte(c, b))
  {
    BigIndexByte(c, b);
    assert BigIndex(crc, b) == Index(Xor(c, Wide(b)));
    hide BigTable, LsbByte, Xor, Rest, Up, Wide, Byte, Index, BigIndex, Rounds, Entry, Rev8;
    BigTableAt(table, 0, BigIndex(crc, b));
    LookupByte(c, b);
    Rev8Rest(c);
    Rev8Xor(Entry(0, Index(Xor(c, Wide(b)))), Rest(c));
    r := Xor(table[0, BigIndex(crc, b)], Up(crc));
  }

  /** The lookups of the big-endian fast loop, in the order the source adds them up. */
  ghost function BigSlices(x: bv64): bv64 {
    Sum8(Rev8(Entry(0, Index(x))), Rev8(Entry(1, Index(x >> 8))), Rev8(Entry(2, Index(x >> 16))), Rev8(Entry(3, Index(x >> 24))),
         Rev8(Entry(4, Index(x >> 32))), Rev8(Entry(5, Index(x >> 40))), Rev8(Entry(6, Index(x >> 48))), Rev8(Entry(7, Index(x >> 56))))
  }

  lemma {:induction false} Sum8Reversed(e7: bv64, e6: bv64, e5: bv64, e4: bv64, e3: bv64, e2: bv64, e1: bv64, e0: bv64)
    ensures Sum8(e7, e6, e5, e4, e3, e2, e1, e0) == Sum8(e0, e1, e2, e3, e4, e5, e6, e7)
  {
    hide Xor;
    var p6 := Xor(e6, e7);
    var p5 := Xor(e5, p6);
    var p4 := Xor(e4, p5);
    var p3 := Xor(e3, p4);
    var p2 := Xor(e2, p3);
    var p1 := Xor(e1, p2);
    XorLaws(e7, e6, 0);
    XorLaws(p6, e5, 0);
    XorLaws(p5, e4, 0);
    XorLaws(p4, e3, 0);
    XorLaws(p3, e2, 0);
    XorLaws(p2, e1, 0);
    XorLaws(p1, e0, 0);
    var q1 := Xor(e0, e1);
    var q2 := Xor(q1, e2);
    var q3 := Xor(q2, e3);
    var q4 := Xor(q3, e4);
    var q5 := Xor(q4, e5);
    XorLaws(q5, e6, e7);
    XorLaws(q4, e5, p6);
    XorLaws(q3, e4, p5);
    XorLaws(q2, e3, p4);
    XorLaws(q1, e2, p3);
    XorLaws(e0, e1, p2);
  }

  lemma {:induction false} Sum8Rev8(e7: bv64, e6: bv64, e5: bv64, e4: bv64, e3: bv64, e2: bv64, e1: bv64, e0: bv64)
    ensures Sum8(Rev8(e7), Rev8(e6), Rev8(e5), Rev8(e4), Rev8(e3), Rev8(e2), Rev8(e1), Rev8(e0))
         == Rev8(Sum8(e7, e6, e5, e4, e3, e2, e1, e0))
  {
    hide Xor, Rev8;
    var s1 := Xor(e7, e6);
    var s2 := Xor(s1, e5);
    var s3 := Xor(s2, e4);
    var s4 := Xor(s3, e3);
    var s5 := Xor(s4, e2);
    var s6 := Xor(s5, e1);
    Rev8Xor(e7, e6);
    Rev8Xor(s1, e5);
    Rev8Xor(s2, e4);
    Rev8Xor(s3, e3);
    Rev8Xor(s4, e2);
    Rev8Xor(s5, e1);
    Rev8Xor(s6, e0);
  }

  lemma {:induction false} Rev8Indices(x: bv64)
    ensures Index(Rev8(x)) == Index(x >> 56) && Index(Rev8(x) >> 8) == Index(x >> 48)
    ensures Index(Rev8(x) >> 16) == Index(x >> 40)
    ensures Index(Rev8(x) >> 24) == Index(x >> 32) && Index(Rev8(x) >> 32) == Index(x >> 24)
    ensures Index(Rev8(x) >> 40) == Index(x >> 16)
    ensures Index(Rev8(x) >> 48) == Index(x >> 8) && Index(Rev8(x) >> 56) == Index(x)
  {
    Rev8Bytes(x);
    hide Rev8;
  }

  lemma {:induction false} BigSlicesAreSlices(x: bv64)
    ensures BigSlices(Rev8(x)) == Rev8(Slices(x))
  {
    hide Sum8, Index, Entry, Rev8;
    Rev8Indices(x);
    var e7, e6, e5, e4 := Entry(7, Index(x)), Entry(6, Index(x >> 8)), Entry(5, Index(x >> 16)), Entry(4, Index(x >> 24));
    var e3, e2, e1, e0 := Entry(3, Index(x >> 32)), Entry(2, Index(x >> 40)), Entry(1, Index(x >> 48)), Entry(0, Index(x >> 56));
    Sum8Reversed(e7, e6, e5, e4, e3, e2, e1, e0);
    Sum8Rev8(e0, e1, e2, e3, e4, e5, e6, e7);
  }

  method BigEightLookups(table: array2<bv64>, x: bv64) returns (r: bv64)
    requires BigTable(table)
    ensures r == BigSlices(x)
  {
    assert IsTable(table);
    hide BigTable, Index, Entry, Sum8, Rev8;
    BigTableAt(table, 0, Index(x));
    BigTableAt(table, 1, Index(x >> 8));
    BigTableAt(table, 2, Index(x >> 16));
    BigTableAt(table, 3, Index(x >> 24));
    BigTableAt(table, 4, Index(x >> 32));
    BigTableAt(table, 5, Index(x >> 40));
    BigTableAt(table, 6, Index(x >> 48));
    BigTableAt(table, 7, Index(x >> 56));
    r := Sum8(table[0, Index(x)], table[1, Index(x >> 8)], table[2, Index(x >> 16)], table[3, Index(x >> 24)],
              table[4, Index(x >> 32)], table[5, Index(x >> 40)], table[6, Index(x >> 48)], table[7, Index(x >> 56)]);
  }

  method BigEight(table: array2<bv64>, crc: bv64, b: seq<bv8>, ghost c: bv64) returns (r: bv64)
    requires BigTable(table) && |b| == 8 && crc == Rev8(c)
    ensures r == Rev8(Fold(c, b))
  {
    hide BigTable, Slices, BigSlices, Xor, Load, LoadBig, Fold, Rev8;
    var w := LoadBig(b[0], b[1], b[2], b[3], b[4], b[5], b[6], b[7]);
    LoadBigIsRev8(b[0], b[1], b[2], b[3], b[4], b[5], b[6], b[7]);
    ghost var v := Load(b[0], b[1], b[2], b[3], b[4], b[5], b[6], b[7]);
    Rev8Xor(c, v);
    r := BigEightLookups(table, Xor(crc, w));
    BigSlicesAreSlices(Xor(c, v));
    LookupEight(c, b);
  }

  /** The big-endian loops, which keep the register with its bytes reversed. */
  method Big(table: array2<bv64>, crc0: bv64, buf: seq<bv8>, addr: nat) returns (crc: bv64)
    requires BigTable(table)
    ensures crc == Fold(crc0, buf)
  {
    hide BigTable, Fold, LsbByte, Rev8;
    crc := Rev8(crc0);
    var next := 0;
    assert Fold(crc0, buf[..0]) == crc0 by {
      FoldNothing(crc0);
    }
    while next < |buf| && (addr + next) % 8 != 0
      invariant next <= |buf|
      invariant crc == Rev8(Fold(crc0, buf[..next]))
    {
      TakeByte(crc0, buf, next);
      crc := BigByte(table, crc, buf[next], Fold(crc0, buf[..next]));
      next := next + 1;
    }
    while |buf| - next >= 8
      invariant next <= |buf|
      invariant crc == Rev8(Fold(crc0, buf[..next]))
    {
      TakeEight(crc0, buf, next);
      crc := BigEight(table, crc, buf[next..next + 8], Fold(crc0, buf[..next]));
      next := next + 8;
    }
    while next < |buf|
      invariant next <= |buf|
      invariant crc == Rev8(Fold(crc0, buf[..next]))
    {
      TakeByte(crc0, buf, next);
      crc := BigByte(table, crc, buf[next], Fold(crc0, buf[..next]));
      next := next + 1;
    }
    assert buf[..next] == buf;
    Rev8Twice(Fold(crc0, buf));
    crc := Rev8(crc);
  }

  // ---------------------------------------------------------------- the public interface

  /** The table of crc64.c on a machine of the given byte order. */
  class Crc64Machine {
    const littleEndian: bool
    const table: array2<bv64>

    ghost predicate Ready()
      reads this, table
    {
      if littleEndian then LittleTable(table) else BigTable(table)
    }

    constructor (littleEndian: bool)
      ensures Ready() && fresh(table) && this.littleEndian == littleEndian
    {
      this.littleEndian := littleEndian;
      table := new bv64[8, 256];
      new;
      if littleEndian {
        InitLittle(table);
      } else {
        InitBig(table);
      }
    }

    /** crc64: whatever the byte order and the address of the buffer, the bit-by-bit CRC continued from crc. */
    method Crc(crc: bv64, buf: seq<bv8>, addr: nat) returns (r: bv64)
      requires Ready()
      ensures r == Fold(crc, buf)
    {
      hide Fold;
      if littleEndian {
        r := Little(table, crc, buf, addr);
      } else {
        r := Big(table, crc, buf, addr);
      }
    }

    /** The table-driven CRC from 0 is the bit-by-bit one. */
    method AgreesWithBitwise(buf: seq<bv8>, addr: nat) returns (fast: bv64, slow: bv64)
      requires Ready()
      ensures fast == slow
    {
      assert Reverse64(0) == 0;
      hide Fold, Reverse64;
      fast := Crc(0, buf, addr);
      slow := Crc64Bitwise(0, buf);
    }

    /** The CRC of a buffer cut in two is the CRC of the first part continued over the second. */
    method InTwoParts(crc: bv64, a: seq<bv8>, b: seq<bv8>, addrA: nat, addrB: nat) returns (r: bv64)
      requires Ready()
      ensures r == Fold(crc, a + b)
    {
      hide Fold, Reverse64;
      r := Crc(crc, a, addrA);
      r := Crc(r, b, addrB);
      FoldConcat(crc, a, b);
    }
  }
}
