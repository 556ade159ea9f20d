/** BITOP: a bitwise operation on several strings, 32 bytes at a time as long as all of them last. */
module Bitop {
  import Crc64
  import opened Bits

  datatype Operation = And | Or | Xor | Not

  /** A source key: a string, or a key that does not exist. */
  datatype Source = Missing | Str(bytes: seq<bv8>)

  function Bytes(s: Source): seq<bv8> {
    if s.Str? then s.bytes else []
  }

  /** A byte of a string that is zero after its end. */
  function ByteAt(s: Source, j: nat): bv8 {
    if j < |Bytes(s)| then Bytes(s)[j] else 0
  }

  function AndByte(a: bv8, b: bv8): bv8 { a & b }
  function OrByte(a: bv8, b: bv8): bv8 { a | b }
  function XorByte(a: bv8, b: bv8): bv8 { a ^ b }
  function NotByte(a: bv8): bv8 { !a }

  /** A byte of the result so far, with the byte of one more source. */
  function Apply(op: Operation, a: bv8, b: bv8): bv8 {
    match op
    case And => AndByte(a, b)
    case Or => OrByte(a, b)
    case Xor => XorByte(a, b)
    case Not => a
  }

  function First(op: Operation, a: bv8): bv8 {
    if op == Not then NotByte(a) else a
  }

  /** Byte j of the result over the first n sources. */
  function Folded(op: Operation, src: seq<Source>, n: nat, j: nat): bv8
    requires 0 < n <= |src|
    decreases n
  {
    if n == 1 then First(op, ByteAt(src[0], j)) else Apply(op, Folded(op, src, n - 1, j), ByteAt(src[n - 1], j))
  }

  // ---------------------------------------------------------------- words

  function ApplyWord(op: Operation, x: bv64, y: bv64): bv64 {
    match op
    case And => x & y
    case Or => x | y
    case Xor => x ^ y
    case Not => !x
  }

  /** What a word operation does to each byte: for NOT the second operand does not matter. */
  function OnByte(op: Operation, a: bv8, b: bv8): bv8 {
    if op == Not then NotByte(a) else Apply(op, a, b)
  }

  lemma {:induction false} AndBytes(a0: bv8, a1: bv8, a2: bv8, a3: bv8, a4: bv8, a5: bv8, a6: bv8, a7: bv8,
      b0: bv8, b1: bv8, b2: bv8, b3: bv8, b4: bv8, b5: bv8, b6: bv8, b7: bv8)
    ensures Crc64.Load(a0, a1, a2, a3, a4, a5, a6, a7) & Crc64.Load(b0, b1, b2, b3, b4, b5, b6, b7)
         == Crc64.Load(AndByte(a0, b0), AndByte(a1, b1), AndByte(a2, b2), AndByte(a3, b3),
                       AndByte(a4, b4), AndByte(a5, b5), AndByte(a6, b6), AndByte(a7, b7))
  {
  }

  lemma {:induction false} AndWord(a0: bv8, a1: bv8, a2: bv8, a3: bv8, a4: bv8, a5: bv8, a6: bv8, a7: bv8,
      b0: bv8, b1: bv8, b2: bv8, b3: bv8, b4: bv8, b5: bv8, b6: bv8, b7: bv8)
    ensures ApplyWord(And, Crc64.Load(a0, a1, a2, a3, a4, a5, a6, a7), Crc64.Load(b0, b1, b2, b3, b4, b5, b6, b7))
         == Crc64.Load(AndByte(a0, b0), AndByte(a1, b1), AndByte(a2, b2), AndByte(a3, b3),
                       AndByte(a4, b4), AndByte(a5, b5), AndByte(a6, b6), AndByte(a7, b7))
  {
    hide Crc64.Load, AndByte;
    AndBytes(a0, a1, a2, a3, a4, a5, a6, a7, b0, b1, b2, b3, b4, b5, b6, b7);
  }

  lemma {:induction false} OrBytes(a0: bv8, a1: bv8, a2: bv8, a3: bv8, a4: bv8, a5: bv8, a6: bv8, a7: bv8,
      b0: bv8, b1: bv8, b2: bv8, b3: bv8, b4: bv8, b5: bv8, b6: bv8, b7: bv8)
    ensures Crc64.Load(a0, a1, a2, a3, a4, a5, a6, a7) | Crc64.Load(b0, b1, b2, b3, b4, b5, b6, b7)
         == Crc64.Load(OrByte(a0, b0), OrByte(a1, b1), OrByte(a2, b2), OrByte(a3, b3),
                       OrByte(a4, b4), OrByte(a5, b5), OrByte(a6, b6), OrByte(a7, b7))
  {
  }

  lemma {:induction false} OrWord(a0: bv8, a1: bv8, a2: bv8, a3: bv8, a4: bv8, a5: bv8, a6: bv8, a7: bv8,
      b0: bv8, b1: bv8, b2: bv8, b3: bv8, b4: bv8, b5: bv8, b6: bv8, b7: bv8)
    ensures ApplyWord(Or, Crc64.Load(a0, a1, a2, a3, a4, a5, a6, a7), Crc64.Load(b0, b1, b2, b3, b4, b5, b6, b7))
         == Crc64.Load(OrByte(a0, b0), OrByte(a1, b1), OrByte(a2, b2), OrByte(a3, b3),
                       OrByte(a4, b4), OrByte(a5, b5), OrByte(a6, b6), OrByte(a7, b7))
  {
    hide Crc64.Load, OrByte;
    OrBytes(a0, a1, a2, a3, a4, a5, a6, a7, b0, b1, b2, b3, b4, b5, b6, b7);
  }

  lemma {:induction false} XorBytes(a0: bv8, a1: bv8, a2: bv8, a3: bv8, a4: bv8, a5: bv8, a6: bv8, a7: bv8,
      b0: bv8, b1: bv8, b2: bv8, b3: bv8, b4: bv8, b5: bv8, b6: bv8, b7: bv8)
    ensures Crc64.Load(a0, a1, a2, a3, a4, a5, a6, a7) ^ Crc64.Load(b0, b1, b2, b3, b4, b5, b6, b7)
         == Crc64.Load(XorByte(a0, b0), XorByte(a1, b1), XorByte(a2, b2), XorByte(a3, b3),
                       XorByte(a4, b4), XorByte(a5, b5), XorByte(a6, b6), XorByte(a7, b7))
  {
  }

  lemma {:induction false} XorWord(a0: bv8, a1: bv8, a2: bv8, a3: bv8, a4: bv8, a5: bv8, a6: bv8, a7: bv8,
      b0: bv8, b1: bv8, b2: bv8, b3: bv8, b4: bv8, b5: bv8, b6: bv8, b7: bv8)
    ensures ApplyWord(Xor, Crc64.Load(a0, a1, a2, a3, a4, a5, a6, a7), Crc64.Load(b0, b1, b2, b3, b4, b5, b6, b7))
         == Crc64.Load(XorByte(a0, b0), XorByte(a1, b1), XorByte(a2, b2), XorByte(a3, b3),
                       XorByte(a4, b4), XorByte(a5, b5), XorByte(a6, b6), XorByte(a7, b7))
  {
    hide Crc64.Load, XorByte;
    XorBytes(a0, a1, a2, a3, a4, a5, a6, a7, b0, b1, b2, b3, b4, b5, b6, b7);
  }

  lemma {:induction false} NotIsXor(x: bv64, y: bv64)
    ensures ApplyWord(Not, x, y) == ApplyWord(Xor, x, 0xffff_ffff_ffff_ffff)
  {
    assert !x == x ^ 0xffff_ffff_ffff_ffff;
  }

  lemma {:induction false} NotByteIsXor(a: bv8)
    ensures NotByte(a) == XorByte(a, 0xff)
  {
  }

  lemma {:induction false} AllOnes()
    ensures Crc64.Load(0xff, 0xff, 0xff, 0xff, 0xff, 0xff, 0xff, 0xff) == 0xffff_ffff_ffff_ffff
  {
  }

  lemma {:induction false} NotWord(a0: bv8, a1: bv8, a2: bv8, a3: bv8, a4: bv8, a5: bv8, a6: bv8, a7: bv8,
      b0: bv8, b1: bv8, b2: bv8, b3: bv8, b4: bv8, b5: bv8, b6: bv8, b7: bv8)
    ensures ApplyWord(Not, Crc64.Load(a0, a1, a2, a3, a4, a5, a6, a7), Crc64.Load(b0, b1, b2, b3, b4, b5, b6, b7))
         == Crc64.Load(NotByte(a0), NotByte(a1), NotByte(a2), NotByte(a3),
                       NotByte(a4), NotByte(a5), NotByte(a6), NotByte(a7))
  {
    hide Crc64.Load, NotByte, XorByte, ApplyWord;
    NotIsXor(Crc64.Load(a0, a1, a2, a3, a4, a5, a6, a7), Crc64.Load(b0, b1, b2, b3, b4, b5, b6, b7));
    AllOnes();
    XorWord(a0, a1, a2, a3, a4, a5, a6, a7, 0xff, 0xff, 0xff, 0xff, 0xff, 0xff, 0xff, 0xff);
    NotByteIsXor(a0);
    NotByteIsXor(a1);
    NotByteIsXor(a2);
    NotByteIsXor(a3);
    NotByteIsXor(a4);
    NotByteIsXor(a5);
    NotByteIsXor(a6);
    NotByteIsXor(a7);
  }

  /** A word operation is the operation on each of the eight bytes. */
  lemma {:induction false} ByBytes(op: Operation, a0: bv8, a1: bv8, a2: bv8, a3: bv8, a4: bv8, a5: bv8, a6: bv8,
      a7: bv8,
      b0: bv8, b1: bv8, b2: bv8, b3: bv8, b4: bv8, b5: bv8, b6: bv8, b7: bv8)
    ensures ApplyWord(op, Crc64.Load(a0, a1, a2, a3, a4, a5, a6, a7), Crc64.Load(b0, b1, b2, b3, b4, b5, b6, b7))
         == Crc64.Load(OnByte(op, a0, b0), OnByte(op, a1, b1), OnByte(op, a2, b2), OnByte(op, a3, b3),
                       OnByte(op, a4, b4), OnByte(op, a5, b5), OnByte(op, a6, b6), OnByte(op, a7, b7))
  {
    hide Crc64.Load, ApplyWord, AndByte, OrByte, XorByte, NotByte;
    match op {
      case And => AndWord(a0, a1, a2, a3, a4, a5, a6, a7, b0, b1, b2, b3, b4, b5, b6, b7);
      case Or => OrWord(a0, a1, a2, a3, a4, a5, a6, a7, b0, b1, b2, b3, b4, b5, b6, b7);
      case Xor => XorWord(a0, a1, a2, a3, a4, a5, a6, a7, b0, b1, b2, b3, b4, b5, b6, b7);
      case Not => NotWord(a0, a1, a2, a3, a4, a5, a6, a7, b0, b1, b2, b3, b4, b5, b6, b7);
    }
  }

  /** Byte k of a word, as it is stored. */
  function Unload(w: bv64, k: nat): bv8
    requires k < 8
  {
    if k == 0 then (w & 0xff) as bv8 else if k == 1 then ((w >> 8) & 0xff) as bv8 else if k == 2 then ((w >> 16) & 0xff) as bv8
    else if k == 3 then ((w >> 24) & 0xff) as bv8 else if k == 4 then ((w >> 32) & 0xff) as bv8
    else if k == 5 then ((w >> 40) & 0xff) as bv8 else if k == 6 then ((w >> 48) & 0xff) as bv8 else (w >> 56) as bv8
  }

  lemma {:induction false} Unloaded(b0: bv8, b1: bv8, b2: bv8, b3: bv8, b4: bv8, b5: bv8, b6: bv8, b7: bv8)
    ensures var w := Crc64.Load(b0, b1, b2, b3, b4, b5, b6, b7);
            Unload(w, 0) == b0 && Unload(w, 1) == b1 && Unload(w, 2) == b2 && Unload(w, 3) == b3
            && Unload(w, 4) == b4 && Unload(w, 5) == b5 && Unload(w, 6) == b6 && Unload(w, 7) == b7
  {
  }

  ghost predicate InPlace(op: Operation, before: seq<bv8>, s: seq<bv8>, lo: nat, hi: nat, after: seq<bv8>)
    requires hi <= |before| && (op != Not ==> hi <= |s|)
  {
    && |after| == |before|
    && forall k :: 0 <= k < |after| ==>
         after[k] == if lo <= k < hi then OnByte(op, before[k], if op == Not then 0 else s[k]) else before[k]
  }

  /** The word of a source that is combined with the result; NOT reads no source. */
  function SourceWord(op: Operation, s: seq<bv8>, at: nat): (w: seq<bv8>)
    requires op != Not ==> at + 8 <= |s|
    ensures |w| == 8 && forall k :: 0 <= k < 8 ==> w[k] == if op == Not then 0 else s[at + k]
  {
    if op == Not then [0, 0, 0, 0, 0, 0, 0, 0] else s[at..at + 8]
  }

  /** One word of the result combined with the same word of a source, in place. */
  method WordOp(op: Operation, res: array<bv8>, at: nat, s: seq<bv8>)
    requires at + 8 <= res.Length && (op != Not ==> at + 8 <= |s|)
    modifies res
    ensures InPlace(op, old(res[..]), s, at, at + 8, res[..])
  {
    hide LoadWord, ApplyWord, OnByte, Unload, InPlace, SourceWord;
    var a, b := res[at..at + 8], SourceWord(op, s, at);
    var w := ApplyWord(op, LoadWord(a), LoadWord(b));
    WordBytes(op, a, b);
    ghost var before := res[..];
    NothingYet(op, before, s, at);
    for k := 0 to 8
      invariant InPlace(op, before, s, at, at + k, res[..])
    {
      StoreByte(op, res, before, s, at, at + k, Unload(w, k));
    }
  }

  /** The next byte of a word, stored. */
  method StoreByte(op: Operation, res: array<bv8>, ghost before: seq<bv8>, s: seq<bv8>, ghost lo: nat, k: nat,
      byte: bv8)
    requires lo <= k < res.Length == |before| && (op != Not ==> k < |s|) && InPlace(op, before, s, lo, k, res[..])
    requires byte == OnByte(op, before[k], if op == Not then 0 else s[k])
    modifies res
    ensures InPlace(op, before, s, lo, k + 1, res[..])
  {
    hide OnByte, InPlace;
    ghost var mid := res[..];
    res[k] := byte;
    assert res[..] == mid[k := byte];
    OneMoreByte(op, before, s, lo, k, mid, res[..]);
  }

  lemma {:induction false} NothingYet(op: Operation, a: seq<bv8>, s: seq<bv8>, at: nat)
    requires at <= |a| && (op != Not ==> at <= |s|)
    ensures InPlace(op, a, s, at, at, a)
  {
    hide OnByte;
  }

  lemma {:induction false} OneMoreByte(op: Operation, a: seq<bv8>, s: seq<bv8>, lo: nat, hi: nat, mid: seq<bv8>,
      after: seq<bv8>)
    requires lo <= hi < |a| == |mid| && (op != Not ==> hi < |s|) && InPlace(op, a, s, lo, hi, mid)
    requires after == mid[hi := OnByte(op, a[hi], if op == Not then 0 else s[hi])]
    ensures InPlace(op, a, s, lo, hi + 1, after)
  {
    hide OnByte;
  }

  function LoadWord(b: seq<bv8>): bv64
    requires |b| == 8
  {
    Crc64.Load(b[0], b[1], b[2], b[3], b[4], b[5], b[6], b[7])
  }

  lemma {:induction false} WordBytes(op: Operation, a: seq<bv8>, b: seq<bv8>)
    requires |a| == 8 && |b| == 8
    ensures forall k :: 0 <= k < 8 ==> Unload(ApplyWord(op, LoadWord(a), LoadWord(b)), k) == OnByte(op, a[k], b[k])
  {
    hide Crc64.Load, ApplyWord, OnByte, Unload;
    ByBytes(op, a[0], a[1], a[2], a[3], a[4], a[5], a[6], a[7], b[0], b[1], b[2], b[3], b[4], b[5], b[6], b[7]);
    Unloaded(OnByte(op, a[0], b[0]), OnByte(op, a[1], b[1]), OnByte(op, a[2], b[2]), OnByte(op, a[3], b[3]),
             OnByte(op, a[4], b[4]), OnByte(op, a[5], b[5]), OnByte(op, a[6], b[6]), OnByte(op, a[7], b[7]));
  }

  lemma {:induction false} InPlaceTwice(op: Operation, a: seq<bv8>, s: seq<bv8>, lo: nat, mid: nat, hi: nat,
      b: seq<bv8>, c: seq<bv8>)
    requires lo <= mid <= hi <= |a| && |b| == |a| && (op != Not ==> hi <= |s|)
    requires InPlace(op, a, s, lo, mid, b) && InPlace(op, b, s, mid, hi, c)
    ensures InPlace(op, a, s, lo, hi, c)
  {
    hide OnByte;
  }

  /** Four words of the result combined with the same words of a source. */
  method FourWords(op: Operation, res: array<bv8>, at: nat, s: seq<bv8>)
    requires at + 32 <= res.Length && (op != Not ==> at + 32 <= |s|)
    modifies res
    ensures InPlace(op, old(res[..]), s, at, at + 32, res[..])
  {
    hide InPlace;
    ghost var a := res[..];
    WordOp(op, res, at, s);
    ghost var b := res[..];
    WordOp(op, res, at + 8, s);
    ghost var c := res[..];
    InPlaceTwice(op, a, s, at, at + 8, at + 16, b, c);
    WordOp(op, res, at + 16, s);
    ghost var d := res[..];
    InPlaceTwice(op, a, s, at, at + 16, at + 24, c, d);
    WordOp(op, res, at + 24, s);
    InPlaceTwice(op, a, s, at, at + 24, at + 32, d, res[..]);
  }

  // ---------------------------------------------------------------- the command

  /** The longest and the shortest source; a missing key counts as empty. */
  method Lengths(src: seq<Source>) returns (maxlen: nat, minlen: nat)
    requires src != []
    ensures forall i :: 0 <= i < |src| ==> minlen <= |Bytes(src[i])| <= maxlen
    ensures exists i :: 0 <= i < |src| && |Bytes(src[i])| == minlen
    ensures exists i :: 0 <= i < |src| && |Bytes(src[i])| == maxlen
  {
    maxlen, minlen := 0, 0;
    for j := 0 to |src|
      invariant forall i :: 0 <= i < j ==> minlen <= |Bytes(src[i])| <= maxlen
      invariant j == 0 ==> minlen == 0 && maxlen == 0
      invariant j > 0 ==> exists i :: 0 <= i < j && |Bytes(src[i])| == minlen
      invariant j > 0 ==> exists i :: 0 <= i < j && |Bytes(src[i])| == maxlen
    {
      if src[j].Missing? {
        minlen := 0;
        assert |Bytes(src[j])| == 0;
      } else {
        var len := |src[j].bytes|;
        assert |Bytes(src[j])| == len;
        if len > maxlen {
          maxlen := len;
        }
        if j == 0 || len < minlen {
          minlen := len;
        }
      }
    }
  }

  /** The bytes from lo to hi are the result over the first n sources. */
  ghost predicate Done(op: Operation, src: seq<Source>, n: nat, res: seq<bv8>, lo: nat, hi: nat)
    requires 0 < n <= |src| && hi <= |res|
  {
    forall k :: lo <= k < hi ==> res[k] == Folded(op, src, n, k)
  }

  /** The bytes from lo to hi are those of the first source. */
  ghost predicate Copied(src: seq<Source>, res: seq<bv8>, lo: nat, hi: nat)
    requires src != [] && hi <= |res|
  {
    forall k :: lo <= k < hi ==> res[k] == ByteAt(src[0], k)
  }

  /** The 32 bytes at a position, over all the sources. */
  method Stride(op: Operation, src: seq<Source>, res: array<bv8>, at: nat, end: nat)
    requires src != [] && (op == Not ==> |src| == 1) && at + 32 <= end <= res.Length
    requires forall i :: 0 <= i < |src| ==> end <= |Bytes(src[i])|
    requires Done(op, src, |src|, res[..], 0, at) && Copied(src, res[..], at, end)
    modifies res
    ensures Done(op, src, |src|, res[..], 0, at + 32) && Copied(src, res[..], at + 32, end)
  {
    hide OnByte, Apply, NotByte;
    if op == Not {
      ghost var before := res[..];
      FourWords(op, res, at, []);
      NotStride(src, before, res[..], at, end);
    } else {
      CopiedIsFolded(op, src, res[..], at, end);
      for i := 1 to |src|
        invariant Done(op, src, |src|, res[..], 0, at) && Copied(src, res[..], at + 32, end)
        invariant Done(op, src, i, res[..], at, at + 32)
      {
        ghost var before := res[..];
        FourWords(op, res, at, Bytes(src[i]));
        StrideStep(op, src, i, before, res[..], at, end);
      }
    }
  }

  lemma {:induction false} NotStride(src: seq<Source>, a: seq<bv8>, b: seq<bv8>, at: nat, end: nat)
    requires |src| == 1 && at + 32 <= end <= |a| && InPlace(Not, a, [], at, at + 32, b)
    requires Done(Not, src, 1, a, 0, at) && Copied(src, a, at, end)
    ensures Done(Not, src, 1, b, 0, at + 32) && Copied(src, b, at + 32, end)
  {
    hide NotByte, ByteAt;
  }

  lemma {:induction false} CopiedIsFolded(op: Operation, src: seq<Source>, res: seq<bv8>, at: nat, end: nat)
    requires src != [] && op != Not && at + 32 <= end <= |res| && Copied(src, res, at, end)
    ensures Done(op, src, 1, res, at, at + 32) && Copied(src, res, at + 32, end)
  {
    hide ByteAt;
  }

  lemma {:induction false} StrideStep(op: Operation, src: seq<Source>, i: nat, a: seq<bv8>, b: seq<bv8>, at: nat,
      end: nat)
    requires op != Not && 0 < i < |src| && at + 32 <= end <= |a| && end <= |Bytes(src[i])|
    requires InPlace(op, a, Bytes(src[i]), at, at + 32, b)
    requires Done(op, src, |src|, a, 0, at) && Copied(src, a, at + 32, end) && Done(op, src, i, a, at, at + 32)
    ensures Done(op, src, |src|, b, 0, at) && Copied(src, b, at + 32, end) && Done(op, src, i + 1, b, at, at + 32)
  {
    hide Apply;
  }

  /** The bytes that are left, one at a time. */
  method ByteLoop(op: Operation, src: seq<Source>, res: array<bv8>, start: nat)
    requires src != [] && (op == Not ==> |src| == 1) && start <= res.Length
    requires Done(op, src, |src|, res[..], 0, start)
    modifies res
    ensures Done(op, src, |src|, res[..], 0, res.Length)
  {
    hide Apply, First, ByteAt;
    for j := start to res.Length
      invariant Done(op, src, |src|, res[..], 0, j)
    {
      var output := First(op, ByteAt(src[0], j));
      for i := 1 to |src|
        invariant output == Folded(op, src, i, j)
      {
        output := Apply(op, output, ByteAt(src[i], j));
      }
      res[j] := output;
    }
  }

  // ---------------------------------------------------------------- bits

  /** How many of the first m sources have bit n set; a source has no bit set after its end. */
  function HowMany(src: seq<Source>, m: nat, n: nat): nat
    requires m <= |src|
  {
    if m == 0 then 0 else HowMany(src, m - 1, n) + One(BitAt(Bytes(src[m - 1]), n))
  }

  /**
    Bit n of the result: AND when all sources have it, OR when one has, XOR when their number is odd, NOT when the
    source has not.
   */
  ghost predicate BitIs(op: Operation, src: seq<Source>, m: nat, n: nat, bit: bool)
    requires 0 < m <= |src|
  {
    bit <==>
    match op
    case And => forall i :: 0 <= i < m ==> BitAt(Bytes(src[i]), n)
    case Or => exists i :: 0 <= i < m && BitAt(Bytes(src[i]), n)
    case Xor => HowMany(src, m, n) % 2 == 1
    case Not => !BitAt(Bytes(src[0]), n)
  }

  ghost predicate OneBit(m: bv8) {
    m == 0x80 || m == 0x40 || m == 0x20 || m == 0x10 || m == 8 || m == 4 || m == 2 || m == 1
  }

  predicate Has(b: bv8, m: bv8) {
    b & m != 0
  }

  lemma {:induction false} AndBit(a: bv8, b: bv8, m: bv8)
    requires OneBit(m)
    ensures Has(AndByte(a, b), m) <==> Has(a, m) && Has(b, m)
  {
  }

  lemma {:induction false} OrBit(a: bv8, b: bv8, m: bv8)
    ensures Has(OrByte(a, b), m) <==> Has(a, m) || Has(b, m)
  {
  }

  lemma {:induction false} XorBit(a: bv8, b: bv8, m: bv8)
    requires OneBit(m)
    ensures Has(XorByte(a, b), m) <==> Has(a, m) != Has(b, m)
  {
  }

  lemma {:induction false} NotBit(a: bv8, m: bv8)
    requires OneBit(m)
    ensures (Has(NotByte(a), m) <==> !Has(a, m)) && !Has(0, m)
  {
  }

  lemma {:induction false} MaskIsOneBit(k: nat)
    requires k < 8
    ensures OneBit(Mask(k))
  {
  }

  lemma {:induction false} BitIsHas(b: bv8, k: nat)
    requires k < 8
    ensures BitOf(b, k) <==> Has(b, Mask(k))
  {
    hide Mask;
  }

  lemma {:induction false} BitOfBytes(a: bv8, b: bv8, k: nat)
    requires k < 8
    ensures BitOf(AndByte(a, b), k) <==> BitOf(a, k) && BitOf(b, k)
    ensures BitOf(OrByte(a, b), k) <==> BitOf(a, k) || BitOf(b, k)
    ensures BitOf(XorByte(a, b), k) <==> BitOf(a, k) != BitOf(b, k)
    ensures BitOf(NotByte(a), k) <==> !BitOf(a, k)
    ensures !BitOf(0, k)
  {
    hide Mask, OneBit, Has, BitOf, AndByte, OrByte, XorByte, NotByte;
    MaskIsOneBit(k);
    AndBit(a, b, Mask(k));
    OrBit(a, b, Mask(k));
    XorBit(a, b, Mask(k));
    NotBit(a, Mask(k));
    BitIsHas(a, k);
    BitIsHas(b, k);
    BitIsHas(0, k);
    BitIsHas(AndByte(a, b), k);
    BitIsHas(OrByte(a, b), k);
    BitIsHas(XorByte(a, b), k);
    BitIsHas(NotByte(a), k);
  }

  lemma {:induction false} BitOfSource(s: Source, n: nat)
    ensures BitOf(ByteAt(s, n / 8), n % 8) <==> BitAt(Bytes(s), n)
  {
    BitOfBytes(0, 0, n % 8);
    hide BitOf;
  }

  /** Folding bytes folds their bits. */
  lemma {:induction false} FoldedBit(op: Operation, src: seq<Source>, m: nat, n: nat)
    requires 0 < m <= |src| && (op == Not ==> m == 1)
    ensures BitIs(op, src, m, n, BitOf(Folded(op, src, m, n / 8), n % 8))
    decreases m
  {
    hide BitOf, AndByte, OrByte, XorByte, NotByte, ByteAt, BitAt;
    BitOfSource(src[m - 1], n);
    if m == 1 {
      BitOfBytes(ByteAt(src[0], n / 8), 0, n % 8);
      assert HowMany(src, 1, n) == One(BitAt(Bytes(src[0]), n));
    } else {
      FoldedBit(op, src, m - 1, n);
      BitOfBytes(Folded(op, src, m - 1, n / 8), ByteAt(src[m - 1], n / 8), n % 8);
    }
  }

  lemma {:induction false} DoneBits(op: Operation, src: seq<Source>, res: seq<bv8>)
    requires src != [] && (op == Not ==> |src| == 1) && Done(op, src, |src|, res, 0, |res|)
    ensures forall n: nat :: n < 8 * |res| ==> BitIs(op, src, |src|, n, BitAt(res, n))
  {
    hide BitOf, Folded, BitIs;
    forall n: nat | n < 8 * |res| ensures BitIs(op, src, |src|, n, BitAt(res, n)) {
      FoldedBit(op, src, |src|, n);
      assert res[n / 8] == Folded(op, src, |src|, n / 8);
    }
  }

  /**
    BITOP. The fast loop over all the sources and the byte loop after it give, byte by byte, the
    operation folded over the sources, each with zeros after its end. Only NOT with several keys is
    refused.
   */
  method Execute(op: Operation, src: seq<Source>) returns (ok: bool, res: seq<bv8>)
    requires src != []
    ensures ok <==> (op == Not ==> |src| == 1)
    ensures ok ==> forall i :: 0 <= i < |src| ==> |Bytes(src[i])| <= |res|
    ensures ok ==> exists i :: 0 <= i < |src| && |Bytes(src[i])| == |res|
    ensures ok ==> Done(op, src, |src|, res, 0, |res|)
    ensures ok ==> forall n: nat :: n < 8 * |res| ==> BitIs(op, src, |src|, n, BitAt(res, n))
  {
    hide Folded, BitIs, BitAt;
    if op == Not && |src| != 1 {
      return false, [];
    }
    var maxlen, minlen := Lengths(src);
    if maxlen == 0 {
      return true, [];
    }
    var out := new bv8[maxlen](k => 0);
    var j := 0;
    if minlen >= 32 && |src| <= 16 {
      for k := 0 to minlen
        invariant Copied(src, out[..], 0, k)
      {
        out[k] := ByteAt(src[0], k);
      }
      var end := minlen;
      while minlen >= 32
        invariant j + minlen == end <= out.Length && (forall i :: 0 <= i < |src| ==> end <= |Bytes(src[i])|)
        invariant Done(op, src, |src|, out[..], 0, j) && Copied(src, out[..], j, end)
      {
        hide Done, Copied;
        Stride(op, src, out, j, end);
        j, minlen := j + 32, minlen - 32;
      }
    }
    hide Copied;
    ByteLoop(op, src, out, j);
    ok, res := true, out[..];
    DoneBits(op, src, res);
  }
}
