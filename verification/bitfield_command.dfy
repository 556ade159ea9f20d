/** The BITFIELD command: a list of operations on integers inside one string. */
module BitfieldCommand {
  import opened Bits
  import opened Bitfields
  import opened Words

  datatype Opcode = Get | Set | IncrBy

  datatype Op = Op(opcode: Opcode, signed: bool, bits: nat, offset: nat, arg: int, owtype: OverflowType)

  /** What the parser accepts: up to 64 bits signed and 63 unsigned, and arguments of 64 bits. */
  ghost predicate OpOk(op: Op) {
    0 < op.bits && op.bits <= (if op.signed then 64 else 63) && Int64(op.arg)
  }

  ghost predicate OpsOk(ops: seq<Op>) {
    forall i :: 0 <= i < |ops| ==> OpOk(ops[i])
  }

  datatype Reply = Number(n: int) | Nil

  function ValueAt(p: seq<bv8>, op: Op): int
    requires op.bits > 0
  {
    if op.signed then SignedField(p, op.offset, op.bits) else Field(p, op.offset, op.bits)
  }

  /** What SET and INCRBY come to: a value to store and a reply, or nothing. */
  datatype Outcome = Store(value: int, reply: int) | Refuse

  /** The number that is to be stored, before anyone asks whether it fits. */
  function Wanted(op: Op, was: int): int {
    if op.opcode == IncrBy then was + op.arg else if op.signed then op.arg else ToUnsigned(op.arg)
  }

  function Decide(op: Op, was: int, check: Check): Outcome {
    if check.code != 0 && op.owtype == Fail then Refuse
    else
      var new' := if check.code != 0 then check.limit else Wanted(op, was);
      Store(new', if op.opcode == IncrBy then new' else was)
  }

  /** With exact integers. */
  function Ideal(op: Op, was: int): Outcome
    requires op.bits > 0
  {
    Decide(op, was, IdealCheck(Wanted(op, was), op.signed, op.bits, op.owtype))
  }

  /** With the checks of the source: SET has its own idea of signed values that are too low. */
  function Coded(op: Op, was: int): Outcome
    requires op.bits > 0
  {
    if op.opcode == Set && op.signed then Decide(op, was, SetCheck(op.arg, op.bits, op.owtype)) else Ideal(op, was)
  }

  lemma {:induction false} FieldInRange(p: seq<bv8>, op: Op)
    requires OpOk(op)
    ensures InRange(ValueAt(p, op), op.signed, op.bits) && Int64(ValueAt(p, op))
  {
    PowSmall(op.bits);
    PowSmall(op.bits - 1);
    assert Pow2(op.bits) == 2 * Pow2(op.bits - 1);
    hide Pow2, Field;
  }

  /** SET does what its overflow type says, except for signed values too low for the check. */
  lemma {:induction false} SetIsExactIff(op: Op, was: int)
    requires OpOk(op) && op.opcode == Set
    ensures Coded(op, was) == Ideal(op, was) <==> !op.signed || op.owtype != Sat || !TooLow(op.arg, op.bits)
  {
    if op.signed {
      SetOverIff(op.arg, op.bits);
      Apart(op.arg, op.bits, op.owtype);
    }
    hide Pow2;
  }

  lemma {:induction false} Apart(value: int, bits: nat, owtype: OverflowType)
    requires 0 < bits <= 64
    ensures var right := IdealCheck(value, true, bits, owtype);
            right.code == -1 && owtype == Sat ==> right.limit < High(true, bits)
  {
  }

  /** What is stored is what a later GET of the same integer reads. */
  lemma {:induction false} StoredIsRead(p: seq<bv8>, op: Op, value: int, q: seq<bv8>)
    requires OpOk(op) && InRange(value, op.signed, op.bits) && Written(p, op.offset, op.bits, ToUnsigned(value), q)
    ensures ValueAt(q, op) == value
  {
    if op.signed {
      SetThenGetSigned(p, op.offset, op.bits, value, q);
    } else {
      SetThenGetUnsigned(p, op.offset, op.bits, value, q);
    }
    hide SignedField, Field, Written, InRange;
  }

  /** Whatever is stored fits the type. */
  lemma {:induction false} StoredFits(p: seq<bv8>, op: Op)
    requires OpOk(op) && op.opcode != Get
    ensures var o := Coded(op, ValueAt(p, op)); o.Store? ==> InRange(o.value, op.signed, op.bits)
  {
    var was := ValueAt(p, op);
    PowSmall(op.bits);
    assert Pow2(op.bits) == 2 * Pow2(op.bits - 1);
    IdealFits(op, was);
    hide IdealCheck, ValueAt, Pow2;
  }

  lemma {:induction false} IdealFits(op: Op, was: int)
    requires OpOk(op)
    ensures var o := Ideal(op, was); o.Store? ==> InRange(o.value, op.signed, op.bits)
  {
    var x := Wanted(op, was);
    assert Pow2(op.bits) == 2 * Pow2(op.bits - 1);
    assert 0 <= x % Pow2(op.bits) < Pow2(op.bits);
    hide Pow2;
  }

  // ---------------------------------------------------------------- GET

  ghost predicate SameBit(p: seq<bv8>, o: nat, q: seq<bv8>, u: nat, j: nat) {
    BitAt(p, o + j) == BitAt(q, u + j)
  }

  lemma {:induction false} SameBits(p: seq<bv8>, o: nat, q: seq<bv8>, u: nat, bits: nat)
    requires forall j :: 0 <= j < bits ==> SameBit(p, o, q, u, j)
    ensures Field(p, o, bits) == Field(q, u, bits)
    decreases bits
  {
    hide BitAt;
    if bits > 0 {
      SameBits(p, o, q, u, bits - 1);
      assert SameBit(p, o, q, u, bits - 1);
    }
  }

  /** Nine bytes of the string from a byte on, with zeros after its end. */
  ghost predicate Window(src: seq<bv8>, byte: nat, buf: seq<bv8>) {
    |buf| == 9 && forall i :: 0 <= i < 9 ==> buf[i] == if byte + i < |src| then src[byte + i] else 0
  }

  lemma {:induction false} WindowBit(src: seq<bv8>, offset: nat, buf: seq<bv8>, j: nat)
    requires Window(src, offset / 8, buf) && j < 64
    ensures BitAt(buf, offset % 8 + j) == BitAt(src, offset + j)
  {
    var i, k := (offset % 8 + j) / 8, (offset % 8 + j) % 8;
    assert (offset + j) / 8 == offset / 8 + i && (offset + j) % 8 == k;
    assert i < 9;
    assert !BitOf(0, k);
    hide BitOf;
  }

  /** Nine bytes are enough: the value in the copy is the value in the string, padded with zeros for ever. */
  lemma {:induction false} WindowValue(src: seq<bv8>, op: Op, buf: seq<bv8>)
    requires OpOk(op) && Window(src, op.offset / 8, buf)
    ensures Field(buf, op.offset % 8, op.bits) == Field(src, op.offset, op.bits)
  {
    hide BitAt, Window;
    var u, o := op.offset % 8, op.offset;
    forall j | 0 <= j < op.bits ensures SameBit(buf, u, src, o, j) {
      WindowBit(src, op.offset, buf, j);
    }
    SameBits(buf, u, src, o, op.bits);
  }

  method ExecGet(src: seq<bv8>, op: Op) returns (value: int)
    requires OpOk(op)
    ensures value == ValueAt(src, op)
  {
    hide BitAt, Field;
    var buf := new bv8[9](i => 0);
    var byte := op.offset / 8;
    var i := 0;
    while i < 9 && byte + i < |src|
      invariant i <= 9
      invariant forall k :: 0 <= k < 9 ==> buf[k] == if k < i && byte + k < |src| then src[byte + k] else 0
      invariant i > 0 ==> byte + i <= |src|
    {
      buf[i] := src[byte + i];
      i := i + 1;
    }
    WindowValue(src, op, buf[..]);
    if op.signed {
      value := GetSigned(buf, op.offset - byte * 8, op.bits);
    } else {
      value := GetUnsigned(buf, op.offset - byte * 8, op.bits);
    }
  }

  // ---------------------------------------------------------------- SET and INCRBY

  /** One operation on the string: its reply, and the string after it. */
  ghost predicate StepOk(p: seq<bv8>, op: Op, q: seq<bv8>, reply: Reply)
    requires OpOk(op)
  {
    if op.opcode == Get then q == p && reply == Number(ValueAt(p, op))
    else
      match Coded(op, ValueAt(p, op))
      case Refuse => q == p && reply == Nil
      case Store(value, r) => Written(p, op.offset, op.bits, ToUnsigned(value), q) && reply == Number(r)
  }

  /** The number that an operation is to store: for INCRBY the exact sum, for SET its argument as the type reads it. */
  function Target(op: Op, was: int): int {
    if op.opcode == IncrBy then was + op.arg else if op.signed || op.arg >= 0 then op.arg else op.arg + TWO64
  }

  /** The nearest value of a type. */
  ghost predicate Nearest(x: int, y: int, signed: bool, bits: nat)
    requires bits > 0
  {
    InRange(y, signed, bits) && forall z :: InRange(z, signed, bits) ==> Distance(x, y) <= Distance(x, z)
  }

  function Distance(x: int, y: int): nat {
    if x < y then y - x else x - y
  }

  /** Two numbers with the same lowest bits. */
  ghost predicate SameBelow(x: int, y: int, bits: nat) {
    x % Pow2(bits) == y % Pow2(bits)
  }

  /**
    What a reply says and what is stored. INCRBY replies what a later GET reads, SET what a GET before it read;
    an operation is refused, with nil and without a change, exactly when its overflow type is FAIL and its number
    does not fit. A number that fits is stored; otherwise the one with the same bits, or the nearest one.
   */
  ghost predicate Meaning(p: seq<bv8>, op: Op, q: seq<bv8>, reply: Reply)
    requires OpOk(op)
  {
    var x, y := Target(op, ValueAt(p, op)), ValueAt(q, op);
    && (reply == Nil <==> op.owtype == Fail && !InRange(x, op.signed, op.bits))
    && (reply == Nil ==> q == p)
    && (reply != Nil ==> reply == Number(if op.opcode == IncrBy then ValueAt(q, op) else ValueAt(p, op)))
    && (reply != Nil && InRange(x, op.signed, op.bits) ==> y == x)
    && (reply != Nil && op.owtype == Wrap ==> SameBelow(x, y, op.bits))
    && (reply != Nil && op.owtype == Sat && !(op.opcode == Set && op.signed && TooLow(op.arg, op.bits)) ==>
          Nearest(x, y, op.signed, op.bits))
    && (reply != Nil ==> forall n: nat :: n < op.offset || n >= op.offset + op.bits ==> BitAt(q, n) == BitAt(p, n))
  }

  lemma {:induction false} TargetIsWanted(op: Op, was: int)
    requires OpOk(op)
    ensures Target(op, was) == Wanted(op, was)
  {
  }

  lemma {:induction false} WrapsToSame(x: int, signed: bool, bits: nat)
    requires bits > 0
    ensures SameBelow(x, Wrapped(x, signed, bits), bits)
  {
    var m, u := Pow2(bits), x % Pow2(bits);
    assert m == 2 * Pow2(bits - 1);
    hide Pow2;
    if signed && u >= Pow2(bits - 1) {
      EuclidUnique(u - m, m, -1, u);
    } else {
      EuclidUnique(u, m, 0, u);
    }
  }

  lemma {:induction false} ClampsToNearest(x: int, signed: bool, bits: nat)
    requires bits > 0
    ensures Nearest(x, Clamped(x, signed, bits), signed, bits)
  {
    assert Pow2(bits) == 2 * Pow2(bits - 1);
    hide Pow2;
  }

  /** What SET and INCRBY come to, without the checks that decide it. */
  lemma {:induction false} OutcomeMeans(op: Op, was: int)
    requires OpOk(op) && op.opcode != Get
    ensures var x, o := Target(op, was), Coded(op, was);
            && (o.Refuse? <==> op.owtype == Fail && !InRange(x, op.signed, op.bits))
            && (o.Store? ==>
                  && o.reply == (if op.opcode == IncrBy then o.value else was)
                  && (InRange(x, op.signed, op.bits) ==> o.value == x)
                  && (op.owtype == Wrap ==> SameBelow(x, o.value, op.bits))
                  && (op.owtype == Sat && !(op.opcode == Set && op.signed && TooLow(op.arg, op.bits)) ==>
                        Nearest(x, o.value, op.signed, op.bits)))
  {
    TargetIsWanted(op, was);
    var x := Target(op, was);
    WrapsToSame(x, op.signed, op.bits);
    ClampsToNearest(x, op.signed, op.bits);
    if op.signed {
      SetOverIff(op.arg, op.bits);
    }
    hide Pow2, Wrapped, Nearest, SameBelow, Target, SignedOver, TooLow;
  }

  lemma {:induction false} StepMeans(p: seq<bv8>, op: Op, q: seq<bv8>, reply: Reply)
    requires OpOk(op) && op.opcode != Get && StepOk(p, op, q, reply)
    ensures Meaning(p, op, q, reply)
  {
    hide ValueAt, Coded, Nearest, SameBelow, Target, InRange, TooLow, BitAt;
    OutcomeMeans(op, ValueAt(p, op));
    StoredFits(p, op);
    var o := Coded(op, ValueAt(p, op));
    if o.Store? {
      StoredIsRead(p, op, o.value, q);
    }
  }

  /** SET and INCRBY. */
  method ExecWrite(a: array<bv8>, op: Op) returns (reply: Reply)
    requires OpOk(op) && op.opcode != Get && op.offset + op.bits <= 8 * a.Length
    modifies a
    ensures StepOk(old(a[..]), op, a[..], reply) && Meaning(old(a[..]), op, a[..], reply)
  {
    hide StepOk, Meaning;
    reply := WriteValue(a, op);
    StepMeans(old(a[..]), op, a[..], reply);
  }

  method WriteValue(a: array<bv8>, op: Op) returns (reply: Reply)
    requires OpOk(op) && op.opcode != Get && op.offset + op.bits <= 8 * a.Length
    modifies a
    ensures StepOk(old(a[..]), op, a[..], reply)
  {
    ghost var p := a[..];
    FieldInRange(p, op);
    hide Written, Field, Pow2, IdealCheck, SetCheck, InRange;
    if op.signed {
      var oldval := GetSigned(a, op.offset, op.bits);
      var newval, retval, check;
      if op.opcode == IncrBy {
        newval := oldval + op.arg;
        check := CheckSigned(oldval, op.arg, op.bits, op.owtype);
        if check.code != 0 {
          newval := check.limit;
        }
        retval := newval;
      } else {
        newval := op.arg;
        check := CheckSigned(newval, 0, op.bits, op.owtype);
        if check.code != 0 {
          newval := check.limit;
        }
        retval := oldval;
      }
      if !(check.code != 0 && op.owtype == Fail) {
        reply := Number(retval);
        SetSigned(a, op.offset, op.bits, newval);
      } else {
        reply := Nil;
      }
    } else {
      var oldval := GetUnsigned(a, op.offset, op.bits);
      var newval, retval, check;
      if op.opcode == IncrBy {
        newval := oldval + op.arg;
        check := CheckUnsigned(oldval, op.arg, op.bits, op.owtype);
        if check.code != 0 {
          newval := check.limit;
        }
        retval := newval;
      } else {
        newval := ToUnsigned(op.arg);
        check := CheckUnsigned(newval, 0, op.bits, op.owtype);
        if check.code != 0 {
          newval := check.limit;
        }
        retval := oldval;
      }
      if !(check.code != 0 && op.owtype == Fail) {
        reply := Number(retval);
        SetUnsigned(a, op.offset, op.bits, ToUnsigned(newval));
      } else {
        reply := Nil;
      }
    }
  }

  // ---------------------------------------------------------------- the command

  /** The highest bit that an operation writes. */
  method HighestWrite(ops: seq<Op>) returns (readOnly: bool, highest: nat)
    requires OpsOk(ops)
    ensures readOnly <==> forall i :: 0 <= i < |ops| ==> ops[i].opcode == Get
    ensures forall i :: 0 <= i < |ops| && ops[i].opcode != Get ==> ops[i].offset + ops[i].bits - 1 <= highest
    ensures !readOnly ==> exists i :: 0 <= i < |ops| && ops[i].opcode != Get && ops[i].offset + ops[i].bits - 1 == highest
  {
    readOnly, highest := true, 0;
    for i := 0 to |ops|
      invariant readOnly <==> forall j :: 0 <= j < i ==> ops[j].opcode == Get
      invariant forall j :: 0 <= j < i && ops[j].opcode != Get ==> ops[j].offset + ops[j].bits - 1 <= highest
      invariant readOnly ==> highest == 0
      invariant !readOnly ==> exists j :: 0 <= j < i && ops[j].opcode != Get && ops[j].offset + ops[j].bits - 1 == highest
    {
      if ops[i].opcode != Get {
        readOnly := false;
        if highest < ops[i].offset + ops[i].bits - 1 {
          highest := ops[i].offset + ops[i].bits - 1;
        }
      }
    }
  }

  function Max(a: nat, b: nat): nat {
    if a < b then b else a
  }

  /** lookupStringForBitCommand: the string with room for a bit, padded with zeros. */
  method Grow(s: seq<bv8>, maxbit: nat) returns (a: array<bv8>)
    ensures fresh(a) && a.Length == Max(|s|, maxbit / 8 + 1)
    ensures forall n {:trigger BitAt(a[..], n)} :: 0 <= n ==> BitAt(a[..], n) == BitAt(s, n)
  {
    var size := Max(|s|, maxbit / 8 + 1);
    a := new bv8[size](i requires 0 <= i < size => if i < |s| then s[i] else 0);
    forall n | 0 <= n ensures BitAt(a[..], n) == BitAt(s, n) {
      assert !BitOf(0, n % 8);
      hide BitOf;
    }
  }

  /** A run of the operations: every state follows from the one before. */
  ghost predicate Run(states: seq<seq<bv8>>, ops: seq<Op>, replies: seq<Reply>)
    requires OpsOk(ops)
  {
    && |states| == |ops| + 1 && |replies| == |ops|
    && (forall i :: 0 <= i < |ops| ==> StepOk(states[i], ops[i], states[i + 1], replies[i]))
    && (forall i :: 0 <= i < |ops| && ops[i].opcode != Get ==> Meaning(states[i], ops[i], states[i + 1], replies[i]))
  }

  /** The last bit that a write touches, or 0. */
  ghost function Last(ops: seq<Op>, i: nat): nat {
    if i < |ops| && ops[i].opcode != Get && ops[i].bits > 0 then ops[i].offset + ops[i].bits - 1 else 0
  }

  /**
    The execution of BITFIELD. The string grows once, by zeros, to the highest bit that is
    written; every write then fits; and the operations take effect one after the other.
   */
  method Execute(s: seq<bv8>, ops: seq<Op>) returns (after: seq<bv8>, replies: seq<Reply>, ghost states: seq<seq<bv8>>)
    requires OpsOk(ops)
    ensures Run(states, ops, replies) && after == states[|ops|]
    ensures forall n {:trigger BitAt(states[0], n)} :: 0 <= n ==> BitAt(states[0], n) == BitAt(s, n)
    ensures (forall i :: 0 <= i < |ops| ==> ops[i].opcode == Get) ==> after == s
    ensures forall i :: 0 <= i < |ops| && ops[i].opcode != Get ==> (ops[i].offset + ops[i].bits - 1) / 8 < |after|
    ensures |after| == |s| || exists i :: 0 <= i < |ops| && ops[i].opcode != Get && Last(ops, i) / 8 + 1 == |after|
  {
    hide StepOk, Meaning, BitAt, Field;
    var readOnly, highest := HighestWrite(ops);
    replies := [];
    if readOnly {
      states := [s];
      after := s;
      for j := 0 to |ops|
        invariant |states| == j + 1 && |replies| == j && states[j] == s && states[0] == s
        invariant forall i :: 0 <= i < j ==> StepOk(states[i], ops[i], states[i + 1], replies[i])
      {
        var value := ExecGet(s, ops[j]);
        GetStep(s, ops[j]);
        replies, states := replies + [Number(value)], states + [s];
      }
    } else {
      var a := Grow(s, highest);
      ghost var grown := a[..];
      states := [grown];
      for j := 0 to |ops|
        invariant |states| == j + 1 && |replies| == j && states[j] == a[..]
        invariant states[0] == grown
        invariant forall i :: 0 <= i < j ==> StepOk(states[i], ops[i], states[i + 1], replies[i])
        invariant forall i :: 0 <= i < j && ops[i].opcode != Get ==> Meaning(states[i], ops[i], states[i + 1], replies[i])
      {
        var reply;
        if ops[j].opcode == Get {
          var value := ExecGet(a[..], ops[j]);
          GetStep(a[..], ops[j]);
          reply := Number(value);
        } else {
          reply := ExecWrite(a, ops[j]);
        }
        replies, states := replies + [reply], states + [a[..]];
      }
      after := a[..];
      ghost var k :| 0 <= k < |ops| && ops[k].opcode != Get && ops[k].offset + ops[k].bits - 1 == highest;
      assert Last(ops, k) == highest;
    }
  }

  lemma {:induction false} GetStep(p: seq<bv8>, op: Op)
    requires OpOk(op) && op.opcode == Get
    ensures StepOk(p, op, p, Number(ValueAt(p, op)))
  {
  }
}
