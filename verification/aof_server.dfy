/**
  The append-only file of a running server: logging, flushing with a kernel that
  may write less than asked or fail, and the background rewrite up to the moment
  the new file takes the place of the old one.
 */
module AofServers {
  import opened Decimals
  import opened AofCodec
  import opened Strings
  import opened AofLoader
  import opened AofTranslate
  import opened AofHandover

  // ---------------------------------------------------------------- writing to the kernel

  /** What one write system call does: takes some bytes, is interrupted, or fails. */
  datatype WriteResult = Wrote(n: nat) | Interrupted | Error

  /** How many of len bytes a retrying writer gets rid of, given what the kernel does next. */
  function Written(kernel: seq<WriteResult>, len: nat): (n: nat)
    ensures n <= len
    decreases |kernel|
  {
    if len == 0 || kernel == [] then 0
    else
      match kernel[0]
      case Wrote(n) => var m := if n < len then n else len; m + Written(kernel[1..], len - m)
      case Interrupted => Written(kernel[1..], len)
      case Error => 0
  }

  /** aofWrite: retry after short and interrupted writes, stop at an error. */
  method AofWrite(file: string, buf: string, kernel: seq<WriteResult>) returns (after: string, result: int)
    ensures var n := Written(kernel, |buf|);
            after == file + buf[..n] && result == if n == 0 && buf != "" then -1 else n
  {
    after := file;
    var total, i := 0, 0;
    while total < |buf|
      invariant 0 <= total <= |buf| && i <= |kernel|
      invariant Written(kernel, |buf|) == total + Written(kernel[i..], |buf| - total)
      invariant after == file + buf[..total]
      decreases |kernel| - i
    {
      if i == |kernel| || kernel[i].Error? {
        return after, if total > 0 then total else -1;
      }
      assert kernel[i..][1..] == kernel[i + 1..];
      match kernel[i] {
        case Wrote(n) =>
          var m := if n < |buf| - total then n else |buf| - total;
          after := after + buf[total..total + m];
          assert buf[..total] + buf[total..total + m] == buf[..total + m];
          total := total + m;
        case Interrupted =>
      }
      i := i + 1;
    }
    result := total;
  }

  /** ftruncate: cut, or pad with zero bytes. */
  function Truncated(file: string, size: nat): string {
    if size <= |file| then file[..size] else file + seq(size - |file|, i => '\0')
  }

  // ---------------------------------------------------------------- the rewrite buffer

  const BLOCK_SIZE: nat := 1024 * 1024 * 10

  /** A block: the bytes in use, and how many more fit. */
  datatype RwBlock = RwBlock(data: string, free: nat)

  ghost predicate BlocksOk(blocks: seq<RwBlock>) {
    forall i :: 0 <= i < |blocks| ==> |blocks[i].data| + blocks[i].free == BLOCK_SIZE
  }

  function Flat(blocks: seq<RwBlock>): string {
    if blocks == [] then "" else blocks[0].data + Flat(blocks[1..])
  }

  lemma {:induction false} FlatConcat(a: seq<RwBlock>, b: seq<RwBlock>)
    ensures Flat(a + b) == Flat(a) + Flat(b)
    decreases |a|
  {
    if a == [] {
      assert a + b == b;
    } else {
      assert (a + b)[1..] == a[1..] + b;
      FlatConcat(a[1..], b);
    }
  }

  lemma {:induction false} FlatLast(blocks: seq<RwBlock>)
    requires blocks != []
    ensures var n := |blocks| - 1; Flat(blocks) == Flat(blocks[..n]) + blocks[n].data
  {
    var n := |blocks| - 1;
    assert blocks == blocks[..n] + [blocks[n]];
    FlatConcat(blocks[..n], [blocks[n]]);
    assert [blocks[n]][1..] == [];
  }

  /** More bytes in the last block. */
  lemma {:induction false} FlatGrow(blocks: seq<RwBlock>, b: RwBlock, s: string)
    requires blocks != [] && b.data == blocks[|blocks| - 1].data + s
    ensures Flat(blocks[|blocks| - 1 := b]) == Flat(blocks) + s
  {
    var n := |blocks| - 1;
    FlatLast(blocks);
    FlatLast(blocks[n := b]);
    assert blocks[n := b][..n] == blocks[..n];
  }

  predicate HasRoom(blocks: seq<RwBlock>) {
    blocks != [] && blocks[|blocks| - 1].free > 0
  }

  /** The bytes appended to the buffer, in new blocks where the last one is full. */
  method AppendTo(blocks: seq<RwBlock>, s: string) returns (r: seq<RwBlock>)
    requires BlocksOk(blocks)
    ensures BlocksOk(r) && Flat(r) == Flat(blocks) + s
  {
    hide Flat;
    r := blocks;
    var rest := s;
    assert Flat(blocks) + s == Flat(r) + rest;
    while rest != ""
      invariant BlocksOk(r) && Flat(blocks) + s == Flat(r) + rest
      decreases |rest|, if HasRoom(r) then 0 else 1
    {
      if r != [] {
        var last := r[|r| - 1];
        var len := if last.free < |rest| then last.free else |rest|;
        if len > 0 {
          var grown := RwBlock(last.data + rest[..len], last.free - len);
          FlatGrow(r, grown, rest[..len]);
          assert (Flat(r) + rest[..len]) + rest[len..] == Flat(r) + rest;
          r, rest := r[|r| - 1 := grown], rest[len..];
        }
      }
      if rest != "" {
        FlatConcat(r, [RwBlock("", BLOCK_SIZE)]);
        assert Flat([RwBlock("", BLOCK_SIZE)]) == "" by {
          FlatLast([RwBlock("", BLOCK_SIZE)]);
          FlatNothing();
        }
        assert Flat(r) + "" == Flat(r);
        r := r + [RwBlock("", BLOCK_SIZE)];
      }
    }
    assert Flat(r) + "" == Flat(r);
  }

  lemma {:induction false} FlatNothing()
    ensures Flat([]) == ""
  {
  }

  /** Whether the kernel takes every block with one write each. */
  predicate TakesAll(blocks: seq<RwBlock>, kernel: seq<WriteResult>)
    decreases |blocks|
  {
    if blocks == [] then true
    else if blocks[0].data == "" then TakesAll(blocks[1..], kernel)
    else kernel != [] && kernel[0].Wrote? && kernel[0].n >= |blocks[0].data| && TakesAll(blocks[1..], kernel[1..])
  }

  /** The whole buffer written to a file, one write per block: all of it, or a failure. */
  method WriteBlocks(file: string, blocks: seq<RwBlock>, kernel: seq<WriteResult>) returns (ok: bool, after: string)
    ensures ok == TakesAll(blocks, kernel)
    ensures ok ==> after == file + Flat(blocks)
  {
    hide Flat;
    after := file;
    var i, k := 0, 0;
    assert Flat(blocks[..0]) == "" by {
      FlatNothing();
    }
    while i < |blocks|
      invariant i <= |blocks| && k <= |kernel|
      invariant after == file + Flat(blocks[..i])
      invariant TakesAll(blocks, kernel) == TakesAll(blocks[i..], kernel[k..])
    {
      var data := blocks[i].data;
      FlatLast(blocks[..i + 1]);
      assert blocks[..i + 1][..i] == blocks[..i];
      assert blocks[i..][1..] == blocks[i + 1..];
      if data != "" {
        if k == |kernel| || !kernel[k].Wrote? || kernel[k].n < |data| {
          return false, after;
        }
        assert kernel[k..][1..] == kernel[k + 1..];
        k := k + 1;
      }
      after := after + data;
      i := i + 1;
    }
    assert blocks[..i] == blocks;
    ok := true;
  }

  // ---------------------------------------------------------------- what a command logs, as bytes

  /** The PEXPIREAT command for an argument of a command, appended to the bytes. */
  method CatAppendOnlyExpireAtCommand(buf: string, name: string, key: string, arg: string, now: int) returns (r: string)
    ensures r == buf + Encode(PExpireAt(key, When(name, arg, now)))
  {
    hide Encode, Strtol, Wrap64;
    var when := Strtol(arg);
    if name == "expire" || name == "setex" || name == "expireat" {
      when := Wrap64(when * 1000);
    }
    if name == "expire" || name == "pexpire" || name == "setex" || name == "psetex" {
      when := Wrap64(when + now);
    }
    r := CatAppendOnlyGenericCommand(buf, ["PEXPIREAT", key, Decimal(when)]);
  }

  /** The arguments after the last EX and the last PX of a SET. */
  method ScanSetOptions(argv: Command) returns (ex: Ttl, px: Ttl)
    requires |argv| >= 3
    ensures (ex, px) == Scan(argv, 3, NoTtl, NoTtl)
  {
    hide Lower;
    ex, px := NoTtl, NoTtl;
    for i := 3 to |argv|
      invariant Scan(argv, 3, NoTtl, NoTtl) == Scan(argv, i, ex, px)
    {
      var next := if i + 1 < |argv| then argv[i + 1] else "";
      ScanStep(argv, i, ex, px);
      if Lower(argv[i]) == "ex" {
        ex := Ttl(Seconds, next);
      }
      if Lower(argv[i]) == "px" {
        px := Ttl(Milliseconds, next);
      }
    }
  }

  lemma {:induction false} LogOfTwo(a: Command, b: Command)
    ensures Log([a, b]) == Encode(a) + Encode(b) && Log([a]) == Encode(a)
  {
    hide Encode;
    assert [a, b][1..] == [b] && [b][1..] == [] && [a][1..] == [];
    assert Log([b]) == Encode(b) + "" == Encode(b);
  }

  /** The writer finds both an EX and a PX in a SET. */
  ghost predicate Ambiguous(argv: Command)
    requires |argv| > 0
  {
    Lower(argv[0]) == "set" && |argv| > 3 && Both(Scan(argv, 3, NoTtl, NoTtl))
  }

  /** The commands a command is translated into, as bytes; false when the writer's assertion on EX and PX fails. */
  method CatTranslated(argv: Command, now: int) returns (ok: bool, buf: string)
    requires |argv| > 0
    ensures ok <==> !Ambiguous(argv)
    ensures ok ==> buf == Log(Translate(argv, now))
  {
    hide Lower, Encode, When, Scan, Log;
    var name := Lower(argv[0]);
    ok, buf := true, "";
    if (name == "expire" || name == "pexpire" || name == "expireat") && |argv| == 3 {
      buf := CatAppendOnlyExpireAtCommand(buf, name, argv[1], argv[2], now);
      LogOfTwo(PExpireAt(argv[1], When(name, argv[2], now)), argv);
    } else if (name == "setex" || name == "psetex") && |argv| == 4 {
      buf := CatAppendOnlyGenericCommand(buf, ["SET", argv[1], argv[3]]);
      buf := CatAppendOnlyExpireAtCommand(buf, name, argv[1], argv[2], now);
      LogOfTwo(["SET", argv[1], argv[3]], PExpireAt(argv[1], When(name, argv[2], now)));
    } else if name == "set" && |argv| > 3 {
      var ex, px := ScanSetOptions(argv);
      if ex.Ttl? && px.Ttl? {
        return false, "";
      }
      if ex.Ttl? || px.Ttl? {
        buf := CatAppendOnlyGenericCommand(buf, argv[..3]);
        if ex.Ttl? {
          buf := CatAppendOnlyExpireAtCommand(buf, "expire", argv[1], ex.arg, now);
          LogOfTwo(argv[..3], PExpireAt(argv[1], When("expire", ex.arg, now)));
        }
        if px.Ttl? {
          buf := CatAppendOnlyExpireAtCommand(buf, "pexpire", argv[1], px.arg, now);
          LogOfTwo(argv[..3], PExpireAt(argv[1], When("pexpire", px.arg, now)));
        }
      } else {
        buf := CatAppendOnlyGenericCommand(buf, argv);
        LogOfTwo(argv, argv);
      }
    } else {
      buf := CatAppendOnlyGenericCommand(buf, argv);
      LogOfTwo(argv, argv);
    }
  }

  lemma {:induction false} SelectBytes(db: nat)
    ensures Encode(Select(db)) == "*2\r\n$6\r\nSELECT\r\n$" + Digits(|Digits(db)|) + "\r\n" + Digits(db) + "\r\n"
  {
    SelectParts();
    SelectPrefix();
    TwoBulks("SELECT", Digits(db));
    assert |Select(db)| == 2;
    assert Bulk(Digits(db)) == "$" + Digits(|Digits(db)|) + "\r\n" + Digits(db) + "\r\n";
    hide Bulks, Bulk, Digits;
    JoinParts("*" + Digits(2) + "\r\n", Bulk("SELECT"), Digits(|Digits(db)|), Digits(db));
  }

  lemma {:induction false} SelectParts()
    ensures "*" + Digits(2) + "\r\n" == "*2\r\n"
    ensures Bulk("SELECT") == "$6\r\nSELECT\r\n"
  {
    assert Digits(2) == "2" && Digits(6) == "6";
  }

  lemma {:induction false} SelectPrefix()
    ensures "*2\r\n" + "$6\r\nSELECT\r\n" + "$" == "*2\r\n$6\r\nSELECT\r\n$"
  {
  }

  lemma {:induction false} TwoBulks(a: string, b: string)
    ensures Bulks([a, b]) == Bulk(a) + (Bulk(b) + "")
  {
    hide Bulk;
    assert [a, b][1..] == [b] && [b][1..] == [];
    assert Bulks([b]) == Bulk(b) + "";
  }

  lemma {:induction false} JoinParts(h: string, x: string, n: string, d: string)
    ensures h + (x + ("$" + n + "\r\n" + d + "\r\n" + "")) == h + x + "$" + n + "\r\n" + d + "\r\n"
  {
  }

  // ---------------------------------------------------------------- the server

  datatype AofState = Off | On | WaitRewrite
  datatype FsyncPolicy = NoFsync | EverySec | Always

  /** How a flush ends. Partial is a short write that could not be undone; Exit ends the server. */
  datatype FlushResult = Nothing | Postponed | Flushed | Rejected | Partial(n: nat) | Exit

  /** The bytes logged by the events from number k on, starting with no database selected. */
  ghost function BytesFrom(events: seq<Event>, k: nat): string
    requires k <= |events| && HasArgs(events)
  {
    Log(LogOf(events[k..], -1))
  }

  /** The database selected in the log, as far as the events from number k on show it. */
  ghost predicate SelectedFrom(events: seq<Event>, k: nat, selected: int) {
    k <= |events| && SelectedAfter(events[k..], -1) == selected
  }

  lemma {:induction false} BytesFromSnoc(events: seq<Event>, k: nat, e: Event, selected: int)
    requires HasArgs(events) && e.Ran? && |e.argv| > 0 && |e.left| > 0 && SelectedFrom(events, k, selected)
    ensures HasArgs(events + [e])
    ensures BytesFrom(events + [e], k) == BytesFrom(events, k) + Log(Logged(e.left, e.db, selected, e.fed))
    ensures SelectedFrom(events + [e], k, e.db)
  {
    hide Logged, Log, LogOf;
    assert (events + [e])[k..] == events[k..] + [e];
    LogOfOne(e, selected);
    LogOfSnoc(events[k..], e, -1);
    LogConcat(LogOf(events[k..], -1), Logged(e.left, e.db, selected, e.fed));
  }

  lemma {:induction false} BytesFromRewrite(events: seq<Event>, k: nat)
    requires HasArgs(events) && k <= |events|
    ensures HasArgs(events + [Rewrite])
    ensures BytesFrom(events + [Rewrite], k) == BytesFrom(events, k)
    ensures SelectedFrom(events + [Rewrite], k, -1)
    ensures BytesFrom(events + [Rewrite], |events| + 1) == "" && SelectedFrom(events + [Rewrite], |events| + 1, -1)
  {
    hide Logged;
    assert (events + [Rewrite])[k..] == events[k..] + [Rewrite];
    assert (events + [Rewrite])[|events| + 1..] == [];
    LogOfOne(Rewrite, SelectedAfter(events[k..], -1));
    LogOfSnoc(events[k..], Rewrite, -1);
    assert LogOf(events[k..], -1) + [] == LogOf(events[k..], -1);
  }

  /** The log of a running server, on disk and in memory. */
  ghost predicate LogKept(file: string, aofBuf: string, size: nat, base: string, events: seq<Event>, k: nat,
      selected: int) {
    && HasArgs(events)
    && k <= |events|
    && SelectedFrom(events, k, selected)
    && file + aofBuf == base + BytesFrom(events, k)
    && size == |file|
  }

  /** A rewrite under way: the handover carries exactly the bytes logged since the fork. */
  ghost predicate RewriteKept(h: Handover, events: seq<Event>, k: nat, selected: int) {
    && HasArgs(events)
    && SelectedFrom(events, k, selected)
    && Kept(h)
    && h.fed == BytesFrom(events, k)
  }

  lemma {:induction false} LogKeptFeed(file: string, aofBuf: string, size: nat, base: string, events: seq<Event>,
      k: nat,
      selected: int, e: Event, buf: string)
    requires LogKept(file, aofBuf, size, base, events, k, selected)
    requires e.Ran? && |e.argv| > 0 && |e.left| > 0 && buf == Log(Logged(e.left, e.db, selected, e.fed))
    ensures LogKept(file, aofBuf + buf, size, base, events + [e], k, e.db)
  {
    hide BytesFrom, SelectedFrom, Log, Logged;
    BytesFromSnoc(events, k, e, selected);
    assert file + (aofBuf + buf) == (file + aofBuf) + buf;
    assert base + (BytesFrom(events, k) + buf) == (base + BytesFrom(events, k)) + buf;
  }

  lemma {:induction false} RewriteKeptFeed(h: Handover, events: seq<Event>, k: nat, selected: int, e: Event,
      buf: string)
    requires RewriteKept(h, events, k, selected)
    requires e.Ran? && |e.argv| > 0 && |e.left| > 0 && buf == Log(Logged(e.left, e.db, selected, e.fed))
    ensures RewriteKept(Step(h, Action.Feed(buf)), events + [e], k, e.db)
  {
    hide BytesFrom, SelectedFrom, Log, Logged, Kept;
    BytesFromSnoc(events, k, e, selected);
    StepKeeps(h, Action.Feed(buf));
  }

  /** A step of the handover that logs nothing. */
  lemma {:induction false} RewriteKeptStep(h: Handover, events: seq<Event>, k: nat, selected: int, a: Action)
    requires RewriteKept(h, events, k, selected) && Enabled(h, a) && !a.Feed?
    ensures RewriteKept(Step(h, a), events, k, selected)
  {
    hide BytesFrom, SelectedFrom, Kept;
    StepKeeps(h, a);
  }

  lemma {:induction false} OneMoreRead(before: string, pipe: string, total: nat, n: nat)
    requires total + n <= |pipe|
    ensures before + pipe[..total] + pipe[total..][..n] == before + pipe[..total + n]
    ensures pipe[total..][n..] == pipe[total + n..]
  {
  }

  lemma {:induction false} HasArgsSnoc(events: seq<Event>, e: Event)
    requires HasArgs(events) && (e.Ran? ==> |e.argv| > 0 && |e.left| > 0)
    ensures HasArgs(events + [e])
  {
  }

  class AofServer {
    // The file and what has not been written to it.
    var state: AofState
    var policy: FsyncPolicy
    var aofBuf: string
    var file: string
    var currentSize: nat
    var fsyncOffset: nat
    var lastFsync: int
    var postponedStart: int
    var lastWriteOk: bool
    var selectedDb: int
    var exited: bool

    // The rewrite: the parent's buffer, the pipes, and the child.
    var childRunning: bool
    var rewriteScheduled: bool
    var blocks: seq<RwBlock>
    var sendEvent: bool
    var stopSending: bool
    var pipe: string
    var ask: bool
    var ack: bool
    var childDiff: string
    var temp: string
    var snapshot: string
    var phase: Phase

    // What happened: every event, and where the current file and the running rewrite begin.
    ghost var events: seq<Event>
    ghost var base: string
    ghost var baseEvent: nat
    ghost var forkEvent: nat
    ghost var fed: string

    /** A server that starts with logging on and this file, loaded, or with logging off. */
    constructor (policy: FsyncPolicy, on: bool, file: string)
      ensures Valid() && !exited && !childRunning && this.policy == policy && this.file == file && aofBuf == ""
      ensures state == (if on then On else Off) && events == [] && currentSize == |file|
    {
      this.policy, this.file := policy, file;
      state := if on then On else Off;
      aofBuf, currentSize, fsyncOffset, lastFsync, postponedStart, lastWriteOk := "", |file|, |file|, 0, 0, true;
      selectedDb, exited, childRunning, rewriteScheduled := -1, false, false, false;
      blocks, sendEvent, stopSending, ask, ack, phase := [], false, false, false, false, Gone;
      pipe, childDiff, temp, snapshot := "", "", "", "";
      events, base, baseEvent, forkEvent, fed := [], file, 0, 0, "";
      new;
      assert file + "" == file;
    }

    ghost function View(): Handover
      reads this
    {
      Handover(fed, snapshot, Flat(blocks), pipe, stopSending, ask, ack, childDiff, temp, phase)
    }

    ghost predicate FileValid()
      reads this
    {
      && HasArgs(events)
      && (state == On && !exited ==> LogKept(file, aofBuf, currentSize, base, events, baseEvent, selectedDb))
    }

    ghost predicate RewriteValid()
      reads this
    {
      && HasArgs(events)
      && BlocksOk(blocks)
      && (childRunning ==>
            && RewriteKept(View(), events, forkEvent, selectedDb)
            && (blocks != [] && !stopSending ==> sendEvent))
      && (!childRunning ==> blocks == [])
    }

    ghost predicate Valid()
      reads this
    {
      FileValid() && RewriteValid()
    }

    /** A write that took less than the buffer: undo it if the file can be cut, else drop what was written. */
    method ShortWrite(n: int, canTruncate: bool, ghost before: string) returns (r: FlushResult)
      requires !exited && -1 <= n < |aofBuf| && n != 0 && file == before + aofBuf[..if n < 0 then 0 else n]
      modifies this`file, this`aofBuf, this`currentSize, this`lastWriteOk, this`exited
      ensures (r.Exit? || r.Rejected? || r.Partial?) && exited == r.Exit?
      ensures (r.Exit? <==> policy == Always) && (r.Partial? <==> policy != Always && n > 0 && !canTruncate)
      ensures r.Rejected? ==> aofBuf == old(aofBuf) && currentSize == old(currentSize) && !lastWriteOk
      ensures r.Rejected? && old(currentSize) == |before| ==> file == before
      ensures r.Partial? ==> 0 < r.n < |old(aofBuf)| && file == before + old(aofBuf)[..r.n] && aofBuf == old(aofBuf)[r.n..]
                             && currentSize == old(currentSize) + r.n && !lastWriteOk && !canTruncate
      ensures r.Exit? && old(currentSize) == |before| ==> file <= before + old(aofBuf) && before <= file
      ensures currentSize >= old(currentSize)
    {
      var nwritten := n;
      if nwritten != -1 && canTruncate {
        file := Truncated(file, currentSize);
        assert currentSize == |before| ==> file == before;
        nwritten := -1;
      }
      if policy == Always {
        exited := true;
        return Exit;
      }
      lastWriteOk := false;
      if nwritten > 0 {
        currentSize := currentSize + nwritten;
        aofBuf := aofBuf[nwritten..];
        return Partial(nwritten);
      }
      return Rejected;
    }

    /** flushAppendOnlyFile, with what the clock, the background fsync and the kernel do as parameters. */
    method Flush(force: bool, now: int, syncing: bool, noFsync: bool, canTruncate: bool, kernel: seq<WriteResult>)
      returns (r: FlushResult)
      requires !exited
      modifies this`file, this`aofBuf, this`currentSize, this`fsyncOffset, this`lastFsync, this`postponedStart,
          this`lastWriteOk, this`exited
      ensures exited == r.Exit? && (exited ==> policy == Always)
      ensures r.Nothing? <==> old(aofBuf) == ""
      ensures r.Postponed? <==> old(aofBuf) != "" && policy == EverySec && !force && syncing
                                && (old(postponedStart) == 0 || now - old(postponedStart) < 2)
      ensures postponedStart == if r.Nothing? then old(postponedStart) else if !r.Postponed? then 0
                                else if old(postponedStart) == 0 then now else old(postponedStart)
      ensures r.Nothing? || r.Postponed? ==> file == old(file) && aofBuf == old(aofBuf) && currentSize == old(currentSize)
      ensures !r.Nothing? && !r.Postponed? ==>
                var n := Written(kernel, |old(aofBuf)|);
                && (r.Flushed? <==> n == |old(aofBuf)|) && (r.Exit? <==> n < |old(aofBuf)| && policy == Always)
                && (r.Partial? <==> 0 < n < |old(aofBuf)| && policy != Always && !canTruncate)
      ensures r.Flushed? ==> file == old(file) + old(aofBuf) && aofBuf == "" && lastWriteOk
      ensures r.Flushed? ==> currentSize == old(currentSize) + |old(aofBuf)|
      ensures r.Rejected? ==> aofBuf == old(aofBuf) && currentSize == old(currentSize) && !lastWriteOk
      ensures r.Rejected? && old(currentSize) == |old(file)| ==> file == old(file)
      ensures r.Partial? ==> 0 < r.n < |old(aofBuf)| && file == old(file) + old(aofBuf)[..r.n] && aofBuf == old(aofBuf)[r.n..]
                             && currentSize == old(currentSize) + r.n && !lastWriteOk && !canTruncate
      ensures r.Exit? && old(currentSize) == |old(file)| ==> file <= old(file) + old(aofBuf) && old(file) <= file
      ensures old(fsyncOffset) <= old(currentSize) ==> fsyncOffset <= currentSize
    {
      hide Written;
      if aofBuf == "" {
        if policy == EverySec && fsyncOffset != currentSize && now > lastFsync && !syncing {
          TryFsync(now, syncing, noFsync);
        }
        return Nothing;
      }
      if policy == EverySec && !force && syncing {
        if postponedStart == 0 {
          postponedStart := now;
          return Postponed;
        } else if now - postponedStart < 2 {
          return Postponed;
        }
      }
      r := WriteBuffer(now, syncing, noFsync, canTruncate, kernel);
    }

    /** The part of a flush that writes the buffer. */
    method WriteBuffer(now: int, syncing: bool, noFsync: bool, canTruncate: bool, kernel: seq<WriteResult>)
      returns (r: FlushResult)
      requires !exited && aofBuf != ""
      modifies this`file, this`aofBuf, this`currentSize, this`fsyncOffset, this`lastFsync, this`postponedStart,
          this`lastWriteOk, this`exited
      ensures exited == r.Exit? && (exited ==> policy == Always) && postponedStart == 0 && !r.Nothing? && !r.Postponed?
      ensures var n := Written(kernel, |old(aofBuf)|);
              && (r.Flushed? <==> n == |old(aofBuf)|) && (r.Exit? <==> n < |old(aofBuf)| && policy == Always)
              && (r.Partial? <==> 0 < n < |old(aofBuf)| && policy != Always && !canTruncate)
      ensures r.Flushed? ==> file == old(file) + old(aofBuf) && aofBuf == "" && lastWriteOk
      ensures r.Flushed? ==> currentSize == old(currentSize) + |old(aofBuf)|
      ensures r.Rejected? ==> aofBuf == old(aofBuf) && currentSize == old(currentSize) && !lastWriteOk
      ensures r.Rejected? && old(currentSize) == |old(file)| ==> file == old(file)
      ensures r.Partial? ==> 0 < r.n < |old(aofBuf)| && file == old(file) + old(aofBuf)[..r.n] && aofBuf == old(aofBuf)[r.n..]
                             && currentSize == old(currentSize) + r.n && !lastWriteOk && !canTruncate
      ensures r.Exit? && old(currentSize) == |old(file)| ==> file <= old(file) + old(aofBuf) && old(file) <= file
      ensures old(fsyncOffset) <= old(currentSize) ==> fsyncOffset <= currentSize
    {
      var after, nwritten := AofWrite(file, aofBuf, kernel);
      file := after;
      postponedStart := 0;
      if nwritten != |aofBuf| {
        r := ShortWrite(nwritten, canTruncate, old(file));
        return;
      }
      lastWriteOk := true;
      currentSize := currentSize + nwritten;
      assert aofBuf[..nwritten] == aofBuf;
      aofBuf := "";
      TryFsync(now, syncing, noFsync);
      r := Flushed;
    }

    /** The fsync at the end of a flush; noFsync is set while a child saves and fsync is configured off meanwhile. */
    method TryFsync(now: int, syncing: bool, noFsync: bool)
      modifies this`fsyncOffset, this`lastFsync
      ensures var due := !noFsync && (policy == Always || (policy == EverySec && now > old(lastFsync)));
              && lastFsync == (if due then now else old(lastFsync))
              && fsyncOffset == (if due && (policy == Always || !syncing) then currentSize else old(fsyncOffset))
    {
      if noFsync {
        return;
      }
      if policy == Always {
        fsyncOffset := currentSize;
        lastFsync := now;
      } else if policy == EverySec && now > lastFsync {
        if !syncing {
          fsyncOffset := currentSize;
        }
        lastFsync := now;
      }
    }

    /** A flush never loses or reorders logged bytes. */
    method FlushKeepsLog(force: bool, now: int, syncing: bool, noFsync: bool, canTruncate: bool,
        kernel: seq<WriteResult>)
      returns (r: FlushResult)
      requires Valid() && !exited && state == On
      modifies this`file, this`aofBuf, this`currentSize, this`fsyncOffset, this`lastFsync, this`postponedStart,
          this`lastWriteOk, this`exited
      ensures Valid()
      ensures !exited ==> file + aofBuf == old(file + aofBuf)
      ensures file <= base + BytesFrom(events, baseEvent)
    {
      hide BytesFrom, HasArgs, RewriteKept, SelectedFrom, Written, Flat, BlocksOk;
      r := Flush(force, now, syncing, noFsync, canTruncate, kernel);
      if r.Partial? {
        assert old(file) + old(aofBuf)[..r.n] + old(aofBuf)[r.n..] == old(file) + old(aofBuf);
      } else if r.Flushed? {
        assert file + "" == file;
      }
    }

    /** aofRewriteBufferAppend: more bytes in the blocks, and a handler to send them to the child. */
    method RewriteBufferAppend(bytes: string)
      requires BlocksOk(blocks)
      modifies this`blocks, this`sendEvent, this`fed
      ensures BlocksOk(blocks) && sendEvent
      ensures View() == Step(old(View()), Action.Feed(bytes))
    {
      hide Flat, BlocksOk;
      blocks := AppendTo(blocks, bytes);
      sendEvent := true;
      fed := fed + bytes;
    }

    /**
      feedAppendOnlyFile: the bytes of what a command left go to the log, and to the rewrite buffer while a child
      runs.
     */
    method Feed(db: nat, argv: Command, now: int, ghost sent: Command, ghost at: Moment) returns (ok: bool)
      requires Valid() && !exited && |argv| > 0 && |sent| > 0
      modifies this`aofBuf, this`selectedDb, this`blocks, this`sendEvent, this`exited, this`events, this`fed
      ensures Valid()
      ensures ok <==> !Ambiguous(argv)
      ensures exited == !ok
      ensures ok ==> events == old(events) + [Ran(db, sent, at, argv, now)] && selectedDb == db
      ensures ok && state == On ==> aofBuf == old(aofBuf) + Log(Logged(argv, db, old(selectedDb), now))
      ensures ok && childRunning ==> View() == Step(old(View()), Action.Feed(Log(Logged(argv, db, old(selectedDb), now))))
    {
      hide Ambiguous, LogKept, RewriteKept, Log, Logged, Flat, BlocksOk, HasArgs, Step;
      var buf;
      ok, buf := LogBytes(db, argv, selectedDb, now);
      if !ok {
        exited := true;
        return;
      }
      AppendFed(db, buf, Ran(db, sent, at, argv, now));
    }

    /** The bytes of an event go to the buffer of the file and to that of a rewrite. */
    method AppendFed(db: nat, buf: string, ghost e: Event)
      requires Valid() && !exited && e.Ran? && |e.argv| > 0 && |e.left| > 0 && e.db == db
      requires buf == Log(Logged(e.left, e.db, selectedDb, e.fed))
      modifies this`aofBuf, this`selectedDb, this`blocks, this`sendEvent, this`events, this`fed
      ensures Valid() && events == old(events) + [e] && selectedDb == db
      ensures state == On ==> aofBuf == old(aofBuf) + buf
      ensures childRunning ==> View() == Step(old(View()), Action.Feed(buf))
    {
      hide LogKept, RewriteKept, Log, Logged, Flat, BlocksOk, HasArgs, Step;
      HasArgsSnoc(events, e);
      AppendToFile(buf, e);
      if childRunning {
        RewriteKeptFeed(View(), events, forkEvent, selectedDb, e, buf);
        RewriteBufferAppend(buf);
      }
      events := events + [e];
      selectedDb := db;
    }

    method AppendToFile(buf: string, ghost e: Event)
      requires FileValid() && !exited && e.Ran? && |e.argv| > 0 && |e.left| > 0
      requires buf == Log(Logged(e.left, e.db, selectedDb, e.fed))
      modifies this`aofBuf
      ensures aofBuf == old(aofBuf) + if state == On then buf else ""
      ensures state == On ==> LogKept(file, aofBuf, currentSize, base, events + [e], baseEvent, e.db)
    {
      hide LogKept, Log, Logged;
      if state == On {
        LogKeptFeed(file, aofBuf, currentSize, base, events, baseEvent, selectedDb, e, buf);
        aofBuf := aofBuf + buf;
      }
    }

    /** aofChildWriteDiffData: pieces of the buffer go into the pipe, as much as the kernel takes each time. */
    method ChildWriteDiffData(kernel: seq<WriteResult>) returns (sent: nat)
      requires Valid() && childRunning
      modifies this`blocks, this`pipe, this`sendEvent
      ensures Valid()
      ensures sent <= |Flat(old(blocks))| && (stopSending ==> sent == 0)
      ensures View() == Step(old(View()), Send(sent))
    {
      ghost var before := View();
      hide RewriteKept, LogKept, Flat, HasArgs, BlocksOk;
      var after, sentBytes, done := SendBlocks(blocks, stopSending, kernel);
      sent := |sentBytes|;
      SplitAt(before.buffered, sentBytes, Flat(after));
      RewriteKeptStep(before, events, forkEvent, selectedDb, Send(sent));
      blocks, pipe := after, pipe + sentBytes;
      if done {
        sendEvent := false;
      }
    }

    /** aofReadDiffFromParent: the child reads until the pipe is empty. */
    method ReadDiffFromParent(chunks: seq<nat>) returns (total: nat)
      requires Valid() && childRunning && (phase == Rewriting || phase == Acked)
      modifies this`childDiff, this`pipe
      ensures Valid()
      ensures pipe == "" && total == |old(pipe)|
      ensures View() == Step(old(View()), Read(total))
    {
      ghost var before := View();
      hide RewriteKept, LogKept, Flat, HasArgs, BlocksOk;
      total := 0;
      var i := 0;
      while pipe != ""
        invariant total <= |old(pipe)| && pipe == old(pipe)[total..]
        invariant childDiff == old(childDiff) + old(pipe)[..total]
        decreases |pipe|
      {
        // Each read takes between one byte and the size of the child's buffer.
        var most := if |pipe| < 65536 then |pipe| else 65536;
        var n := if i < |chunks| && 1 <= chunks[i] <= most then chunks[i] else most;
        OneMoreRead(old(childDiff), old(pipe), total, n);
        childDiff, pipe, total, i := childDiff + pipe[..n], pipe[n..], total + n, i + 1;
      }
      RewriteKeptStep(before, events, forkEvent, selectedDb, Read(total));
    }

    /** The child asks the parent to stop sending. */
    method AskToStop()
      requires Valid() && childRunning && phase == Rewriting
      modifies this`ask, this`phase
      ensures Valid() && View() == Step(old(View()), Ask)
    {
      hide RewriteKept, LogKept, Flat, HasArgs, BlocksOk;
      RewriteKeptStep(View(), events, forkEvent, selectedDb, Ask);
      ask, phase := true, Asked;
    }

    /** aofChildPipeReadable: the parent stops sending and answers, if its write succeeds. */
    method ChildPipeReadable(writeOk: bool)
      requires Valid() && childRunning && ask
      modifies this`ask, this`ack, this`stopSending
      ensures Valid() && View() == Step(old(View()), Answer(writeOk))
    {
      hide RewriteKept, LogKept, Flat, HasArgs, BlocksOk;
      RewriteKeptStep(View(), events, forkEvent, selectedDb, Answer(writeOk));
      ask, stopSending, ack := false, true, writeOk;
    }

    /** The child gets the answer. */
    method GetAnswer()
      requires Valid() && childRunning && phase == Asked && ack
      modifies this`ack, this`phase
      ensures Valid() && View() == Step(old(View()), GetAck)
    {
      hide RewriteKept, LogKept, Flat, HasArgs, BlocksOk;
      RewriteKeptStep(View(), events, forkEvent, selectedDb, GetAck);
      ack, phase := false, Acked;
    }

    /** The child's file and what the parent still has to add make the snapshot and all that was fed. */
    ghost predicate TempIsExact()
      reads this
    {
      temp + Flat(blocks) == snapshot + fed
    }

    /** The child has read all there is, writes the diff after the snapshot and exits. */
    method FinishRewrite()
      requires childRunning && Enabled(View(), Finish) && Valid()
      modifies this`phase, this`temp
      ensures Valid() && View() == Step(old(View()), Finish) && TempIsExact()
    {
      hide RewriteKept, LogKept, Flat, HasArgs, BlocksOk;
      RewriteKeptStep(View(), events, forkEvent, selectedDb, Finish);
      temp, phase := snapshot + childDiff, Finished;
      RewriteKeptFinished(View(), events, forkEvent, selectedDb);
    }

    /** The child dies, or gives up, before it has exited well. */
    method ChildFails()
      requires Valid() && childRunning && phase != Finished
      modifies this`phase
      ensures Valid() && phase == Gone
    {
      hide RewriteKept, LogKept, Flat, HasArgs, BlocksOk;
      RewriteKeptStep(View(), events, forkEvent, selectedDb, Fail);
      phase := Gone;
    }

    /**
      rewriteAppendOnlyFileBackground: fork a child that will write the snapshot; the log forgets its
      database. Nothing happens while another child runs, or when the pipes or the fork fail.
     */
    method StartRewrite(image: string, otherChild: bool, canPipe: bool, canFork: bool) returns (ok: bool)
      requires Valid() && !exited
      modifies this
      ensures Valid() && (ok <==> !old(childRunning) && !otherChild && canPipe && canFork)
      ensures !ok ==> unchanged(this)
      ensures ok ==> childRunning && selectedDb == -1 && !rewriteScheduled && View() == Start(image)
      ensures ok ==> events == old(events) + [Rewrite] && forkEvent == |events|
      ensures state == old(state) && file == old(file) && aofBuf == old(aofBuf) && currentSize == old(currentSize)
      ensures exited == old(exited)
    {
      hide LogKept, RewriteKept, HasArgs, Start, Flat, BlocksOk;
      if childRunning || otherChild || !canPipe || !canFork {
        return false;
      }
      Forked(image);
      rewriteScheduled := false;
      ok := true;
    }

    /** The parent after the fork. */
    method Forked(image: string)
      requires Valid() && !childRunning && !exited
      modifies this`sendEvent, this`stopSending, this`pipe, this`ask, this`ack, this`childDiff, this`temp,
          this`snapshot, this`phase, this`fed, this`childRunning, this`events, this`selectedDb, this`forkEvent
      ensures Valid() && childRunning && selectedDb == -1
      ensures View() == Start(image)
      ensures events == old(events) + [Rewrite] && forkEvent == |events|
    {
      hide LogKept, RewriteKept, HasArgs, Start, Flat, BlocksOk;
      NewChild(image);
      MarkFork(image);
    }

    /** From here on what is logged goes to the child as well, and starts with a SELECT. */
    method MarkFork(ghost image: string)
      requires Valid() && !childRunning && !exited && View() == Start(image)
      modifies this`childRunning, this`events, this`selectedDb, this`forkEvent
      ensures Valid() && childRunning && selectedDb == -1
      ensures events == old(events) + [Rewrite] && forkEvent == |events|
    {
      hide LogKept, RewriteKept, HasArgs, Start, Flat, BlocksOk;
      HasArgsSnoc(events, Rewrite);
      RewriteKeptStart(image, events);
      if state == On {
        LogKeptRewrite(file, aofBuf, currentSize, base, events, baseEvent, selectedDb);
      }
      childRunning, events, selectedDb, forkEvent := true, events + [Rewrite], -1, |events| + 1;
    }

    /** The pipes and the child right after the fork. */
    method NewChild(image: string)
      requires blocks == []
      modifies this`sendEvent, this`stopSending, this`pipe, this`ask, this`ack, this`childDiff, this`temp,
          this`snapshot, this`phase, this`fed
      ensures View() == Start(image)
    {
      sendEvent, stopSending, ask, ack, phase := false, false, false, false, Rewriting;
      pipe, childDiff, temp, fed, snapshot := "", "", "", "", image;
    }

    /** Forget the child and its buffer. */
    method Cleanup()
      requires HasArgs(events)
      modifies this`childRunning, this`blocks, this`sendEvent
      ensures RewriteValid() && !childRunning
    {
      childRunning, blocks, sendEvent := false, [], false;
    }

    /**
      backgroundRewriteDoneHandler. When the child exited well and the rest of the buffer and
      the rename go through, the file is the snapshot and everything logged since the fork, and
      the bytes waiting in memory can be dropped; in every other case the old file and the
      waiting bytes stay as they were.
     */
    method RewriteDone(canOpen: bool, kernel: seq<WriteResult>, canRename: bool) returns (ok: bool)
      requires Valid() && childRunning && !exited
      requires phase == Finished || phase == Gone
      modifies this
      ensures Valid() && !childRunning
      ensures ok <==> old(phase) == Finished && canOpen && TakesAll(old(blocks), kernel) && canRename
      ensures ok ==> file == old(snapshot) + BytesFrom(old(events), old(forkEvent))
      ensures ok && old(state) != Off ==> state == On && aofBuf == "" && base == old(snapshot) && baseEvent == old(forkEvent)
                                          && selectedDb == -1 && currentSize == |file| && events == old(events) + [Rewrite]
      ensures ok && old(state) == Off ==> state == Off && aofBuf == old(aofBuf) && events == old(events)
      ensures !ok ==> file == old(file) && aofBuf == old(aofBuf) && currentSize == old(currentSize) && state == old(state)
                      && events == old(events) && selectedDb == old(selectedDb)
      ensures exited == old(exited)
    {
      hide LogKept, RewriteKept, HasArgs, Flat, BytesFrom, BlocksOk, TakesAll;
      ok := false;
      if phase == Finished && canOpen {
        var written, after := WriteBlocks(temp, blocks, kernel);
        if written && canRename {
          RewriteKeptFinished(View(), events, forkEvent, selectedDb);
          LogKeptFresh(after, snapshot, events, forkEvent);
          HasArgsSnoc(events, Rewrite);
          Install(after);
          ok := true;
        }
      }
      Cleanup();
    }

    /** The renamed file takes the place of the old one; if logging was asked for, it is what we append to. */
    method Install(after: string)
      requires !exited && HasArgs(events) && HasArgs(events + [Rewrite])
      requires LogKept(after, "", |after|, snapshot, events + [Rewrite], forkEvent, -1)
      modifies this`file, this`aofBuf, this`currentSize, this`fsyncOffset, this`state, this`selectedDb, this`events,
          this`base, this`baseEvent
      ensures file == after && FileValid()
      ensures old(state) != Off ==> state == On && aofBuf == "" && base == snapshot && baseEvent == forkEvent
                                    && selectedDb == -1 && currentSize == |file| && events == old(events) + [Rewrite]
      ensures old(state) == Off ==> state == Off && aofBuf == old(aofBuf) && events == old(events)
    {
      hide LogKept, HasArgs;
      file := after;
      if state != Off {
        base, baseEvent := snapshot, forkEvent;
        selectedDb := -1;
        events := events + [Rewrite];
        currentSize := |file|;
        fsyncOffset := currentSize;
        aofBuf := "";
        state := On;
      }
    }

    /** killAppendOnlyChild. */
    method KillChild()
      requires Valid()
      modifies this`childRunning, this`blocks, this`sendEvent
      ensures Valid() && !childRunning
    {
      hide LogKept, RewriteKept, HasArgs;
      if childRunning {
        Cleanup();
      }
    }

    /** stopAppendOnly: a last forced flush, then no more logging. */
    method StopAppendOnly(now: int, syncing: bool, noFsync: bool, canTruncate: bool, kernel: seq<WriteResult>)
      requires Valid() && !exited && state != Off
      modifies this
      ensures Valid()
      ensures old(state) == On ==> file <= old(base + BytesFrom(events, baseEvent))
      ensures !exited ==> state == Off && !childRunning && !rewriteScheduled && selectedDb == -1
      ensures !exited && (old(state) == On || old(currentSize) == |old(file)|) ==> file + aofBuf == old(file + aofBuf)
    {
      hide LogKept, RewriteKept, HasArgs, BytesFrom, Written, Flat, BlocksOk;
      if state == On {
        var _ := FlushKeepsLog(true, now, syncing, noFsync, canTruncate, kernel);
      } else {
        FlushConserves(now, syncing, noFsync, canTruncate, kernel);
      }
      if !exited {
        state, selectedDb, rewriteScheduled := Off, -1, false;
        Cleanup();
      }
    }

    /** A forced flush of what is left from before logging was switched off. */
    method FlushConserves(now: int, syncing: bool, noFsync: bool, canTruncate: bool, kernel: seq<WriteResult>)
      requires Valid() && !exited && state != On
      modifies this`file, this`aofBuf, this`currentSize, this`fsyncOffset, this`lastFsync, this`postponedStart,
          this`lastWriteOk, this`exited
      ensures Valid()
      ensures !exited && old(currentSize) == |old(file)| ==> file + aofBuf == old(file + aofBuf)
    {
      hide LogKept, RewriteKept, HasArgs, Written, Flat, BlocksOk;
      var r := Flush(true, now, syncing, noFsync, canTruncate, kernel);
      if r.Partial? {
        assert old(file) + old(aofBuf)[..r.n] + old(aofBuf)[r.n..] == old(file) + old(aofBuf);
      } else if r.Flushed? {
        assert file + "" == file;
      }
    }

    /**
      startAppendOnly: wait for a rewrite before logging again. A rewrite that is already running is
      replaced; while another child runs, one is scheduled.
     */
    method StartAppendOnly(image: string, now: int, canOpen: bool, otherChild: bool, canPipe: bool,
        canFork: bool) returns (ok: bool)
      requires Valid() && !exited && state == Off
      modifies this
      ensures Valid() && file == old(file) && aofBuf == old(aofBuf) && state == if ok then WaitRewrite else Off
      ensures ok <==> canOpen && (if otherChild then !old(childRunning) else canPipe && canFork)
      ensures !canOpen ==> unchanged(this)
      ensures ok && !otherChild ==> childRunning && View() == Start(image)
      ensures ok && otherChild ==> !childRunning && rewriteScheduled
      ensures canOpen && !ok ==> !childRunning
    {
      hide LogKept, RewriteKept, HasArgs, Start, Flat, BlocksOk;
      if !canOpen {
        return false;
      }
      if otherChild && !childRunning {
        rewriteScheduled := true;
      } else {
        KillChild();
        var started := StartRewrite(image, otherChild, canPipe, canFork);
        if !started {
          return false;
        }
      }
      state, lastFsync := WaitRewrite, now;
      ok := true;
    }
  }

  lemma {:induction false} RewriteKeptStart(image: string, events: seq<Event>)
    requires HasArgs(events)
    ensures RewriteKept(Start(image), events + [Rewrite], |events| + 1, -1)
  {
    BytesFromRewrite(events, |events|);
    hide BytesFrom, SelectedFrom;
  }

  lemma {:induction false} LogKeptRewrite(file: string, aofBuf: string, size: nat, base: string, events: seq<Event>,
      k: nat, selected: int)
    requires LogKept(file, aofBuf, size, base, events, k, selected)
    ensures LogKept(file, aofBuf, size, base, events + [Rewrite], k, -1)
  {
    hide BytesFrom, SelectedFrom;
    BytesFromRewrite(events, k);
  }

  lemma {:induction false} LogKeptFresh(file: string, base: string, events: seq<Event>, k: nat)
    requires HasArgs(events) && k <= |events| && file == base + BytesFrom(events, k)
    ensures LogKept(file, "", |file|, base, events + [Rewrite], k, -1)
  {
    hide BytesFrom, SelectedFrom;
    BytesFromRewrite(events, k);
    assert file + "" == file;
  }

  lemma {:induction false} RewriteKeptFinished(h: Handover, events: seq<Event>, k: nat, selected: int)
    requires RewriteKept(h, events, k, selected) && h.phase == Finished
    ensures k <= |events| && h.temp + h.buffered == h.snapshot + BytesFrom(events, k) == h.snapshot + h.fed
  {
    hide BytesFrom;
    FinishedIsExact(h);
  }

  lemma {:induction false} SplitAt(whole: string, a: string, b: string)
    requires whole == a + b
    ensures whole[..|a|] == a && whole[|a|..] == b
  {
  }

  lemma {:induction false} FlatFirst(blocks: seq<RwBlock>)
    requires blocks != []
    ensures Flat(blocks) == blocks[0].data + Flat(blocks[1..])
  {
  }

  /** Fewer bytes in the first block. */
  lemma {:induction false} FlatShrink(blocks: seq<RwBlock>, n: nat)
    requires blocks != [] && n <= |blocks[0].data|
    ensures var b := RwBlock(blocks[0].data[n..], blocks[0].free + n);
            Flat(blocks) == blocks[0].data[..n] + Flat(blocks[0 := b])
  {
    var b := RwBlock(blocks[0].data[n..], blocks[0].free + n);
    assert blocks[0 := b][1..] == blocks[1..];
    assert blocks[0].data == blocks[0].data[..n] + b.data;
  }

  /** The loop that sends blocks: what is left, what was sent, and whether there is nothing more to send. */
  method SendBlocks(blocks: seq<RwBlock>, stop: bool, kernel: seq<WriteResult>)
    returns (r: seq<RwBlock>, sent: string, done: bool)
    requires BlocksOk(blocks)
    ensures BlocksOk(r) && sent + Flat(r) == Flat(blocks)
    ensures stop ==> sent == ""
    ensures |r| <= |blocks| && (done <==> stop || r == [])
  {
    hide Flat;
    r, sent := blocks, "";
    var k := 0;
    while true
      invariant BlocksOk(r) && k <= |kernel| && |r| <= |blocks|
      invariant sent + Flat(r) == Flat(blocks)
      invariant stop ==> sent == ""
      decreases |Flat(r)|, |r|
    {
      if stop || r == [] {
        return r, sent, true;
      }
      FlatFirst(r);
      if r[0].data != "" {
        if k == |kernel| || !kernel[k].Wrote? || kernel[k].n == 0 {
          return r, sent, false;
        }
        var data := r[0].data;
        var n := if kernel[k].n < |data| then kernel[k].n else |data|;
        FlatShrink(r, n);
        ghost var q := r;
        r := r[0 := RwBlock(data[n..], r[0].free + n)];
        assert (sent + data[..n]) + Flat(r) == sent + Flat(q);
        sent, k := sent + data[..n], k + 1;
      }
      FlatFirst(r);
      if r[0].data == "" {
        assert "" + Flat(r[1..]) == Flat(r[1..]);
        r := r[1..];
      }
    }
  }

  lemma {:induction false} LogOfNothing()
    ensures Log([]) == ""
  {
  }

  /** The bytes logged for a command: a SELECT when the log has another database selected, and the translation. */
  method LogBytes(db: nat, argv: Command, selected: int, now: int) returns (ok: bool, buf: string)
    requires |argv| > 0
    ensures ok <==> !Ambiguous(argv)
    ensures ok ==> buf == Log(Logged(argv, db, selected, now))
  {
    hide Ambiguous, Translate, Encode, Log;
    var translated;
    ok, translated := CatTranslated(argv, now);
    if !ok {
      return false, "";
    }
    buf := "";
    if db != selected {
      var seldb := Digits(db);
      SelectBytes(db);
      buf := "*2\r\n$6\r\nSELECT\r\n$" + Digits(|seldb|) + "\r\n" + seldb + "\r\n";
      LogOfTwo(Select(db), Select(db));
    } else {
      LogOfNothing();
    }
    buf := buf + translated;
    LogConcat(if db != selected then [Select(db)] else [], Translate(argv, now));
  }
}
