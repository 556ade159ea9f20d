/**
  What loading makes of a log that was cut at any byte: which commands run, and
  whether the file it leaves behind ends between two entries.
 */
module AofRecovery {
  import opened AofCodec
  import opened Strings
  import opened AofLoader

  // ---------------------------------------------------------------- any sequence of commands

  ghost predicate Loadable(commands: seq<Command>, cfg: Config) {
    forall i :: 0 <= i < |commands| ==> Writable(commands[i]) && Lower(commands[i][0]) in cfg.known
  }

  /** How many of the commands are complete in the first p bytes of the log. */
  function Complete(commands: seq<Command>, p: nat): (n: nat)
    ensures n <= |commands|
    decreases |commands|
  {
    if commands == [] || p < |Encode(commands[0])| then 0
    else 1 + Complete(commands[1..], p - |Encode(commands[0])|)
  }

  /** The session after the commands, the first of which starts at an offset. */
  function Play(s: Session, commands: seq<Command>, offset: nat): Session
    requires NoneEmpty(commands)
    decreases |commands|
  {
    if commands == [] then s
    else
      var end := offset + |Encode(commands[0])|;
      Play(Perform(s, commands[0], end, true), commands[1..], end)
  }

  ghost predicate Tracks(cfg: Config) {
    cfg.loadTruncated && cfg.canTruncate
  }

  /** The log cut at byte p: exactly the complete commands are performed, and the end is never a format error. */
  lemma {:induction false} LoadCut(commands: seq<Command>, p: nat, offset: nat, s: Session, cfg: Config)
    requires Loadable(commands, cfg) && p <= |Log(commands)| && Tracks(cfg)
    ensures var n := Complete(commands, p);
            var t := Play(s, commands[..n], offset);
            |Log(commands[..n])| <= p
            && LoadFrom(Log(commands)[..p], offset, s, cfg) ==
               if p == |Log(commands[..n])| then AtCleanEnd(t, cfg) else AtEof(t, cfg)
    decreases |commands|
  {
    hide ReadCommand, Encode, Perform, Writable, Lower, AtEof, AtCleanEnd;
    var rest := Log(commands)[..p];
    if p == 0 {
      if commands != [] {
        assert |Encode(commands[0])| > 0;
      }
      assert commands[..0] == [];
    } else {
      var first := commands[0];
      var e := Encode(first);
      assert Writable(first);
      if p < |e| {
        ReadCommandCut(first, p);
        assert rest == e[..p];
        assert commands[..0] == [];
      } else {
        var tail := Log(commands[1..])[..p - |e|];
        assert rest == e + tail;
        ReadCommandBack(first, tail);
        var end := offset + |e|;
        NotEmpty(first);
        LoadCut(commands[1..], p - |e|, end, Perform(s, first, end, true), cfg);
        var n := Complete(commands[1..], p - |e|);
        assert commands[..n + 1] == [first] + commands[1..][..n];
        assert commands[..n + 1][1..] == commands[1..][..n];
      }
    }
  }

  lemma {:induction false} NotEmpty(argv: Command)
    requires Writable(argv)
    ensures |argv| > 0
  {
  }

  lemma {:induction false} PlayConcat(s: Session, a: seq<Command>, b: seq<Command>, offset: nat)
    requires NoneEmpty(a) && NoneEmpty(b)
    ensures Play(s, a + b, offset) == Play(Play(s, a, offset), b, offset + |Log(a)|)
    decreases |a|
  {
    hide Encode, Perform;
    if a == [] {
      assert a + b == b;
    } else {
      assert (a + b)[1..] == a[1..] + b;
      var end := offset + |Encode(a[0])|;
      PlayConcat(Perform(s, a[0], end, true), a[1..], b, end);
    }
  }

  // ---------------------------------------------------------------- entries: single commands and transactions

  /** What the server logs as a unit: one command, or the commands of a transaction between MULTI and EXEC. */
  datatype Entry = One(command: Command) | Block(commands: seq<Command>)

  const MULTI: Command := ["MULTI"]
  const EXEC: Command := ["EXEC"]

  ghost predicate Ordinary(argv: Command) {
    |argv| > 0 && Lower(argv[0]) != "multi" && Lower(argv[0]) != "exec"
  }

  ghost predicate AllOrdinary(commands: seq<Command>) {
    forall i :: 0 <= i < |commands| ==> Ordinary(commands[i])
  }

  function Contents(e: Entry): seq<Command> {
    match e
    case One(c) => [c]
    case Block(cs) => cs
  }

  function Wire(e: Entry): (cs: seq<Command>)
    ensures |cs| > 0
  {
    match e
    case One(c) => [c]
    case Block(cs) => [MULTI] + cs + [EXEC]
  }

  function ContentsAll(entries: seq<Entry>): seq<Command> {
    if entries == [] then [] else Contents(entries[0]) + ContentsAll(entries[1..])
  }

  function WireAll(entries: seq<Entry>): seq<Command> {
    if entries == [] then [] else Wire(entries[0]) + WireAll(entries[1..])
  }

  function Bytes(entries: seq<Entry>): nat {
    |Log(WireAll(entries))|
  }

  ghost predicate Proper(entries: seq<Entry>) {
    forall i :: 0 <= i < |entries| ==> AllOrdinary(Contents(entries[i]))
  }

  /** How many entries lie entirely within the first n commands. */
  function Whole(entries: seq<Entry>, n: nat): (k: nat)
    ensures k <= |entries|
    decreases |entries|
  {
    if entries == [] || n < |Wire(entries[0])| then 0 else 1 + Whole(entries[1..], n - |Wire(entries[0])|)
  }

  lemma {:induction false} WireNotEmpty(e: Entry)
    requires AllOrdinary(Contents(e))
    ensures NoneEmpty(Wire(e))
  {
    forall i | 0 <= i < |Wire(e)| ensures |Wire(e)[i]| > 0 {
      if e.Block? && 0 < i < |Wire(e)| - 1 {
        assert Ordinary(e.commands[i - 1]);
      } else if e.One? {
        assert Ordinary(Contents(e)[0]);
      }
    }
  }

  lemma {:induction false} WireAllNotEmpty(entries: seq<Entry>)
    requires Proper(entries)
    ensures NoneEmpty(WireAll(entries))
    decreases |entries|
  {
    hide Wire, AllOrdinary;
    if entries != [] {
      WireNotEmpty(entries[0]);
      WireAllNotEmpty(entries[1..]);
    }
  }

  /** Where the validity offset stands. */
  lemma {:induction false} PlayTracks(s: Session, commands: seq<Command>, offset: nat)
    requires NoneEmpty(commands) && s.validUpTo == offset
    ensures Play(s, commands, offset).validUpTo == offset + |Log(commands)|
    decreases |commands|
  {
    hide Encode;
    if commands != [] {
      var end := offset + |Encode(commands[0])|;
      PlayTracks(Perform(s, commands[0], end, true), commands[1..], end);
    }
  }

  /** Inside a transaction commands are queued and nothing runs. */
  lemma {:induction false} PlayQueues(s: Session, commands: seq<Command>, offset: nat)
    requires AllOrdinary(commands) && s.multi
    ensures var t := Play(s, commands, offset);
            t.multi && t.executed == s.executed && t.queue == s.queue + commands && t.beforeMulti == s.beforeMulti
    decreases |commands|
  {
    hide Encode;
    if commands == [] {
      assert s.queue + commands == s.queue;
    } else {
      var end := offset + |Encode(commands[0])|;
      assert Ordinary(commands[0]);
      var u := Perform(s, commands[0], end, true);
      PlayQueues(u, commands[1..], end);
      assert s.queue + commands == u.queue + commands[1..];
    }
  }

  ghost predicate Idle(s: Session, offset: nat) {
    !s.multi && s.queue == [] && s.validUpTo == offset
  }

  lemma {:induction false} Names()
    ensures Lower("MULTI") == "multi" && Lower("EXEC") == "exec"
  {
    hide Lower;
    Lowered("MULTI", "multi");
    Lowered("EXEC", "exec");
  }

  /** The first n commands of a transaction, but not all of it: nothing runs, and the transaction is open. */
  lemma {:induction false} PlayPart(s: Session, cs: seq<Command>, n: nat, offset: nat)
    requires AllOrdinary(cs) && Idle(s, offset) && 0 < n < |cs| + 2
    requires NoneEmpty(Wire(Block(cs))[..n])
    ensures var t := Play(s, Wire(Block(cs))[..n], offset);
            t.multi && t.executed == s.executed && t.queue == cs[..n - 1] && t.beforeMulti == offset
  {
    hide Encode;
    Names();
    hide Lower;
    var w := Wire(Block(cs))[..n];
    assert w[0] == MULTI && w[1..] == cs[..n - 1];
    var end := offset + |Encode(MULTI)|;
    var u := Perform(s, MULTI, end, true);
    PlayQueues(u, cs[..n - 1], end);
    assert u.queue + cs[..n - 1] == cs[..n - 1];
  }

  /** A whole entry runs as a unit. */
  lemma {:induction false} PlayEntry(s: Session, e: Entry, offset: nat)
    requires AllOrdinary(Contents(e)) && Idle(s, offset) && NoneEmpty(Wire(e))
    ensures var t := Play(s, Wire(e), offset);
            t.executed == s.executed + Contents(e) && Idle(t, offset + |Log(Wire(e))|)
  {
    hide Encode;
    PlayTracks(s, Wire(e), offset);
    match e {
      case One(c) =>
        assert Ordinary(Contents(e)[0]);
        assert Wire(e)[1..] == [];
      case Block(cs) =>
        var n := |cs| + 1;
        assert Wire(e) == Wire(e)[..n] + [EXEC];
        assert NoneEmpty([EXEC]) && NoneEmpty(Wire(e)[..n]);
        PlayPart(s, cs, n, offset);
        assert cs[..n - 1] == cs;
        PlayConcat(s, Wire(e)[..n], [EXEC], offset);
        Names();
        hide Lower;
        var u := Play(s, Wire(e)[..n], offset);
        assert [EXEC][1..] == [];
    }
  }

  /** The first n commands of a log: whole entries ran, each as a unit; the last one is open when n falls inside it. */
  lemma {:induction false} PlayEntries(entries: seq<Entry>, n: nat, s: Session, offset: nat)
    requires Proper(entries) && n <= |WireAll(entries)| && Idle(s, offset) && NoneEmpty(WireAll(entries))
    ensures var k := Whole(entries, n);
            var t := Play(s, WireAll(entries)[..n], offset);
            && t.executed == s.executed + ContentsAll(entries[..k])
            && |WireAll(entries[..k])| <= n
            && (t.multi <==> n > |WireAll(entries[..k])|)
            && (t.multi ==> t.beforeMulti == offset + Bytes(entries[..k]))
    decreases |entries|
  {
    hide Encode, Play, Contents, Wire, AllOrdinary, Log;
    if entries == [] || n < |Wire(entries[0])| {
      PlayFewer(entries, n, s, offset);
    } else {
      var e := entries[0];
      var w := Wire(e);
      WireNotEmpty(e);
      PlayEntry(s, e, offset);
      var rest := WireAll(entries[1..])[..n - |w|];
      assert WireAll(entries)[..n] == w + rest;
      assert NoneEmpty(WireAll(entries[1..])) by {
        WireAllNotEmpty(entries[1..]);
      }
      PlayConcat(s, w, rest, offset);
      var u := Play(s, w, offset);
      PlayEntries(entries[1..], n - |w|, u, offset + |Log(w)|);
      var k := Whole(entries[1..], n - |w|);
      FirstEntry(entries, k);
      assert s.executed + ContentsAll(entries[..k + 1]) == (s.executed + Contents(e)) + ContentsAll(entries[1..][..k]);
    }
  }

  lemma {:induction false} FirstEntry(entries: seq<Entry>, k: nat)
    requires k < |entries|
    ensures WireAll(entries[..k + 1]) == Wire(entries[0]) + WireAll(entries[1..][..k])
    ensures ContentsAll(entries[..k + 1]) == Contents(entries[0]) + ContentsAll(entries[1..][..k])
    ensures Bytes(entries[..k + 1]) == |Log(Wire(entries[0]))| + Bytes(entries[1..][..k])
  {
    hide Wire, Contents, Encode;
    assert entries[..k + 1][1..] == entries[1..][..k];
    LogConcat(Wire(entries[0]), WireAll(entries[1..][..k]));
  }

  lemma {:induction false} PlayFewer(entries: seq<Entry>, n: nat, s: Session, offset: nat)
    requires Proper(entries) && n <= |WireAll(entries)| && Idle(s, offset) && NoneEmpty(WireAll(entries))
    requires entries == [] || n < |Wire(entries[0])|
    ensures var t := Play(s, WireAll(entries)[..n], offset);
            && t.executed == s.executed + ContentsAll(entries[..0])
            && (t.multi <==> n > |WireAll(entries[..0])|)
            && (t.multi ==> t.beforeMulti == offset + Bytes(entries[..0]))
  {
    hide Encode;
    assert s.executed + [] == s.executed;
    if n > 0 {
      var cs := entries[0].commands;
      var w := WireAll(entries)[..n];
      assert w == Wire(Block(cs))[..n];
      PlayPart(s, cs, n, offset);
    }
  }

  // ---------------------------------------------------------------- a crash at any byte

  lemma {:induction false} LogGrows(commands: seq<Command>, i: nat, j: nat)
    requires i <= j <= |commands|
    ensures |Log(commands[..i])| <= |Log(commands[..j])|
    ensures i < j ==> |Log(commands[..i])| < |Log(commands[..j])|
  {
    hide Encode;
    assert commands[..j] == commands[..i] + commands[i..j];
    LogConcat(commands[..i], commands[i..j]);
  }

  lemma {:induction false} CompleteBounds(commands: seq<Command>, p: nat)
    ensures var n := Complete(commands, p);
            |Log(commands[..n])| <= p && (n < |commands| ==> p < |Log(commands[..n + 1])|)
    decreases |commands|
  {
    hide Encode;
    if commands == [] {
    } else if p < |Encode(commands[0])| {
      assert commands[..1] == [commands[0]];
      assert commands[..1][1..] == [];
    } else {
      CompleteBounds(commands[1..], p - |Encode(commands[0])|);
      var n := Complete(commands[1..], p - |Encode(commands[0])|);
      assert commands[..n + 1][1..] == commands[1..][..n];
      if n + 1 < |commands| {
        assert commands[..n + 2][1..] == commands[1..][..n + 1];
      }
    }
  }

  lemma {:induction false} WirePrefix(entries: seq<Entry>, k: nat)
    requires k <= |entries|
    ensures |WireAll(entries[..k])| <= |WireAll(entries)|
    ensures WireAll(entries)[..|WireAll(entries[..k])|] == WireAll(entries[..k])
    decreases k
  {
    hide Wire;
    if k > 0 {
      WirePrefix(entries[1..], k - 1);
      assert entries[..k][1..] == entries[1..][..k - 1];
    }
  }

  lemma {:induction false} WholeBounds(entries: seq<Entry>, n: nat)
    requires n <= |WireAll(entries)|
    ensures var k := Whole(entries, n);
            |WireAll(entries[..k])| <= n && (k < |entries| ==> n < |WireAll(entries[..k + 1])|)
    decreases |entries|
  {
    hide Wire, Contents, Log;
    if entries == [] {
    } else if n < |Wire(entries[0])| {
      FirstEntry(entries, 0);
      assert entries[1..][..0] == [];
    } else {
      WholeBounds(entries[1..], n - |Wire(entries[0])|);
      var k := Whole(entries[1..], n - |Wire(entries[0])|);
      FirstEntry(entries, k);
      if k + 1 < |entries| {
        FirstEntry(entries, k + 1);
      }
    }
  }

  /** The number of entries that are whole in the first p bytes. */
  function WholeIn(entries: seq<Entry>, p: nat): (k: nat)
    ensures k <= |entries|
  {
    Whole(entries, Complete(WireAll(entries), p))
  }

  lemma {:induction false} WholeInBounds(entries: seq<Entry>, p: nat)
    ensures var k := WholeIn(entries, p);
            Bytes(entries[..k]) <= p && (k < |entries| ==> p < Bytes(entries[..k + 1]))
  {
    hide Wire, Log, Complete, Whole;
    var cs := WireAll(entries);
    var n := Complete(cs, p);
    var k := Whole(entries, n);
    CompleteBounds(cs, p);
    WholeBounds(entries, n);
    WirePrefix(entries, k);
    LogGrows(cs, |WireAll(entries[..k])|, n);
    if k < |entries| {
      WirePrefix(entries, k + 1);
      LogGrows(cs, n + 1, |WireAll(entries[..k + 1])|);
    }
  }

  /** The cut falls inside a command, and that command is not the first one of its transaction. */
  ghost predicate TornInside(entries: seq<Entry>, p: nat) {
    var cs := WireAll(entries);
    var n := Complete(cs, p);
    p != |Log(cs[..n])| && n > |WireAll(entries[..Whole(entries, n)])|
  }

  /** The session after the commands that are complete in the first p bytes. */
  ghost function Played(commands: seq<Command>, p: nat): Session
    requires NoneEmpty(commands)
  {
    Play(START, commands[..Complete(commands, p)], 0)
  }

  /** Loading the first p bytes of a log is playing the complete commands. */
  lemma {:induction false} LoadIsPlay(commands: seq<Command>, p: nat, cfg: Config)
    requires Loadable(commands, cfg) && Tracks(cfg) && 0 < p <= |Log(commands)| && NoneEmpty(commands)
    ensures var t := Played(commands, p);
            Load(Log(commands)[..p], cfg) ==
            if p == |Log(commands[..Complete(commands, p)])| then AtCleanEnd(t, cfg) else AtEof(t, cfg)
  {
    StartsWithStar(commands, p);
    hide Log, Complete, Play, LoadFrom, Loadable, AtCleanEnd, AtEof;
    LoadCut(commands, p, 0, START, cfg);
  }

  /** What has been played: the whole entries, and part of a transaction when the commands end inside one. */
  lemma {:induction false} PlayedEntries(entries: seq<Entry>, p: nat)
    requires Proper(entries) && NoneEmpty(WireAll(entries)) && p <= Bytes(entries)
    ensures var k := WholeIn(entries, p);
            var n := Complete(WireAll(entries), p);
            var t := Played(WireAll(entries), p);
            && t.executed == ContentsAll(entries[..k])
            && (t.multi <==> n > |WireAll(entries[..k])|) && (t.multi ==> t.beforeMulti == Bytes(entries[..k]))
            && t.validUpTo == |Log(WireAll(entries)[..n])| <= p
            && Bytes(entries[..k]) <= t.validUpTo && (Bytes(entries[..k]) == t.validUpTo <==> !t.multi)
  {
    var cs := WireAll(entries);
    var n := Complete(cs, p);
    var k := Whole(entries, n);
    hide Wire, Encode, Log, Complete, Whole, Play, ContentsAll, WireAll, Proper;
    CompleteBounds(cs, p);
    PlayEntries(entries, n, START, 0);
    PlayTracks(START, cs[..n], 0);
    assert [] + ContentsAll(entries[..k]) == ContentsAll(entries[..k]);
    WirePrefix(entries, k);
    LogGrows(cs, |WireAll(entries[..k])|, n);
  }

  /**
    Crash recovery. Whatever the byte p at which the log ends, loading runs exactly the
    entries that are whole, each transaction as a unit, and never takes the format-error
    path; and it leaves a file that ends between two entries unless the log was torn
    inside a transaction.
   */
  lemma {:induction false} CrashRecovery(entries: seq<Entry>, p: nat, cfg: Config)
    requires Proper(entries) && Loadable(WireAll(entries), cfg) && Tracks(cfg)
    requires 0 < p <= Bytes(entries)
    ensures var k := WholeIn(entries, p);
            var o := Load(Log(WireAll(entries))[..p], cfg);
            && (o.Loaded? || o.Cut?)
            && o.executed == ContentsAll(entries[..k])
            && (o.Loaded? <==> p == Bytes(entries[..k]))
            && (o.Cut? ==> Bytes(entries[..k]) <= o.at <= p)
            && (o.Cut? ==> (o.at == Bytes(entries[..k]) <==> !TornInside(entries, p)))
  {
    hide Wire, Encode, Log, Complete, Whole, Play, Load, Loadable, ContentsAll, WireAll, Proper;
    WireAllNotEmpty(entries);
    LoadIsPlay(WireAll(entries), p, cfg);
    PlayedEntries(entries, p);
  }

  lemma {:induction false} StartsWithStar(commands: seq<Command>, p: nat)
    requires 0 < p <= |Log(commands)|
    ensures !("REDIS" <= Log(commands)[..p]) && Log(commands)[..p] != ""
  {
    hide Bulks;
    assert Log(commands)[0] == Encode(commands[0])[0] == '*';
  }

  // ---------------------------------------------------------------- going on after the cut

  lemma {:induction false} WireConcat(a: seq<Entry>, b: seq<Entry>)
    ensures WireAll(a + b) == WireAll(a) + WireAll(b)
    decreases |a|
  {
    hide Wire;
    if a == [] {
      assert a + b == b;
    } else {
      assert (a + b)[1..] == a[1..] + b;
      WireConcat(a[1..], b);
    }
  }

  lemma {:induction false} LogPrefix(commands: seq<Command>, n: nat)
    requires n <= |commands|
    ensures |Log(commands[..n])| <= |Log(commands)| && Log(commands)[..|Log(commands[..n])|] == Log(commands[..n])
  {
    hide Encode;
    assert commands == commands[..n] + commands[n..];
    LogConcat(commands[..n], commands[n..]);
  }

  /** The whole entries of a log, and entries appended after them, all load. */
  lemma {:induction false} WholeLogLoads(entries: seq<Entry>, cfg: Config)
    requires Proper(entries) && Loadable(WireAll(entries), cfg) && Tracks(cfg) && Bytes(entries) > 0
    ensures Load(Log(WireAll(entries)), cfg) == Loaded(ContentsAll(entries))
  {
    hide Loadable, Proper, Load, ContentsAll, Log, WholeIn;
    var p := Bytes(entries);
    CrashRecovery(entries, p, cfg);
    assert Log(WireAll(entries))[..p] == Log(WireAll(entries));
    WholeInBounds(entries, p);
    var k := WholeIn(entries, p);
    if k < |entries| {
      WirePrefix(entries, k + 1);
      assert WireAll(entries)[..|WireAll(entries)|] == WireAll(entries);
      LogGrows(WireAll(entries), |WireAll(entries[..k + 1])|, |WireAll(entries)|);
    }
    assert entries[..|entries|] == entries;
  }

  /** The file after loading it. */
  function LeftOnDisk(file: string, o: Outcome): string {
    if o.Cut? && o.at <= |file| then file[..o.at] else file
  }

  /** What loading leaves when the log is not torn inside a transaction: the whole entries. */
  lemma {:induction false} WholeEntriesLeft(entries: seq<Entry>, p: nat, cfg: Config)
    requires Proper(entries) && Loadable(WireAll(entries), cfg) && Tracks(cfg)
    requires 0 < p <= Bytes(entries) && !TornInside(entries, p)
    ensures var file := Log(WireAll(entries))[..p];
            LeftOnDisk(file, Load(file, cfg)) == Log(WireAll(entries[..WholeIn(entries, p)]))
  {
    hide Loadable, Proper, TornInside, WholeIn, Load, Log, WireAll, ContentsAll;
    var k := WholeIn(entries, p);
    CrashRecovery(entries, p, cfg);
    WirePrefix(entries, k);
    LogPrefix(WireAll(entries), |WireAll(entries[..k])|);
    var file := Log(WireAll(entries))[..p];
    var at := Bytes(entries[..k]);
    assert file[..at] == Log(WireAll(entries))[..at];
  }

  /** Then entries that the server appends to the file are all recovered as well. */
  lemma {:induction false} AppendsSurvive(entries: seq<Entry>, p: nat, more: seq<Entry>, cfg: Config)
    requires Proper(entries) && Loadable(WireAll(entries), cfg) && Tracks(cfg)
    requires Proper(more) && Loadable(WireAll(more), cfg) && Bytes(more) > 0
    requires 0 < p <= Bytes(entries) && !TornInside(entries, p)
    ensures var file := Log(WireAll(entries))[..p];
            Load(LeftOnDisk(file, Load(file, cfg)) + Log(WireAll(more)), cfg)
            == Loaded(ContentsAll(entries[..WholeIn(entries, p)]) + ContentsAll(more))
  {
    hide Loadable, Proper, TornInside, WholeIn, Load, LeftOnDisk, Log, WireAll, ContentsAll;
    var k := WholeIn(entries, p);
    WholeEntriesLeft(entries, p, cfg);
    var all := entries[..k] + more;
    WireConcat(entries[..k], more);
    ContentsConcat(entries[..k], more);
    LogConcat(WireAll(entries[..k]), WireAll(more));
    AllLoadable(entries, k, more, cfg);
    WholeLogLoads(all, cfg);
  }

  lemma {:induction false} ContentsConcat(a: seq<Entry>, b: seq<Entry>)
    ensures ContentsAll(a + b) == ContentsAll(a) + ContentsAll(b)
    decreases |a|
  {
    hide Contents;
    if a == [] {
      assert a + b == b;
    } else {
      assert (a + b)[1..] == a[1..] + b;
      ContentsConcat(a[1..], b);
    }
  }

  lemma {:induction false} AllLoadable(entries: seq<Entry>, k: nat, more: seq<Entry>, cfg: Config)
    requires k <= |entries| && Proper(entries) && Proper(more)
    requires Loadable(WireAll(entries), cfg) && Loadable(WireAll(more), cfg)
    ensures Proper(entries[..k] + more) && Loadable(WireAll(entries[..k] + more), cfg)
  {
    hide Wire, WireAll, Fits, Lower, AllOrdinary, Contents;
    WireConcat(entries[..k], more);
    WirePrefix(entries, k);
    var a, b := WireAll(entries[..k]), WireAll(more);
    assert Loadable(a, cfg) by {
      assert forall i :: 0 <= i < |a| ==> a[i] == WireAll(entries)[i];
    }
  }

  /** Torn inside a transaction, the file left behind ends with an open MULTI, and commands appended to it are lost. */
  lemma {:induction false} AppendsAreLost(entries: seq<Entry>, p: nat, more: seq<Command>, cfg: Config)
    requires Proper(entries) && Loadable(WireAll(entries), cfg) && Tracks(cfg)
    requires AllOrdinary(more) && Loadable(more, cfg)
    requires 0 < p <= Bytes(entries) && TornInside(entries, p)
    ensures var file := Log(WireAll(entries))[..p];
            var k := WholeIn(entries, p);
            Load(LeftOnDisk(file, Load(file, cfg)) + Log(more), cfg) == Cut(ContentsAll(entries[..k]), Bytes(entries[..k]))
  {
    assert Complete(WireAll(entries), p) > |WireAll(entries[..WholeIn(entries, p)])|;
    hide Loadable, Proper, TornInside, Load, LeftOnDisk, Log, WireAll, ContentsAll, Complete, Play, WholeIn, Tracks,
        AllOrdinary;
    TornCut(entries, p, cfg);
    WireAllNotEmpty(entries);
    PlayedEntries(entries, p);
    OpenLogLoads(WireAll(entries), Complete(WireAll(entries), p), more, cfg);
  }

  /** A log that ends inside a transaction, with more commands after it. */
  lemma {:induction false} OpenLogLoads(commands: seq<Command>, n: nat, more: seq<Command>, cfg: Config)
    requires Loadable(commands, cfg) && Tracks(cfg) && 0 < n <= |commands| && NoneEmpty(commands)
    requires Play(START, commands[..n], 0).multi && AllOrdinary(more) && Loadable(more, cfg)
    ensures var t := Play(START, commands[..n], 0);
            Load(Log(commands[..n]) + Log(more), cfg) == Cut(t.executed, t.beforeMulti)
  {
    hide Encode, Play, Perform, LoadFrom, Lower;
    var kept := commands[..n];
    var all := kept + more;
    LogConcat(kept, more);
    LogGrows(kept, 0, n);
    assert kept[..n] == kept;
    var q := |Log(all)|;
    assert Log(all)[..q] == Log(all);
    StartsWithStar(all, q);
    AllComplete(all);
    assert Loadable(all, cfg);
    LoadCut(all, q, 0, START, cfg);
    assert all[..|all|] == all;
    PlayConcat(START, kept, more, 0);
    PlayQueues(Play(START, kept, 0), more, |Log(kept)|);
  }

  lemma {:induction false} AllComplete(commands: seq<Command>)
    ensures Complete(commands, |Log(commands)|) == |commands|
    decreases |commands|
  {
    hide Encode;
    if commands != [] {
      AllComplete(commands[1..]);
    }
  }

  /** Torn inside a transaction, the file is cut after the last complete command of the transaction. */
  lemma {:induction false} TornCut(entries: seq<Entry>, p: nat, cfg: Config)
    requires Proper(entries) && Loadable(WireAll(entries), cfg) && Tracks(cfg)
    requires 0 < p <= Bytes(entries) && TornInside(entries, p)
    ensures var cs := WireAll(entries);
            var file := Log(cs)[..p];
            LeftOnDisk(file, Load(file, cfg)) == Log(cs[..Complete(cs, p)]) && Complete(cs, p) > 0
  {
    hide Wire, Encode, Log, Complete, Whole, Play, Load, Loadable, WireAll, Proper, ContentsAll;
    var cs := WireAll(entries);
    var n := Complete(cs, p);
    WireAllNotEmpty(entries);
    LoadIsPlay(cs, p, cfg);
    PlayedEntries(entries, p);
    LogPrefix(cs, n);
    var at := |Log(cs[..n])|;
    assert Log(cs)[..p][..at] == Log(cs)[..at];
  }

  /** Such logs exist: a transaction of one command, cut one byte into that command. */
  lemma {:induction false} TornExample(c: Command)
    ensures TornInside([Block([c])], |Encode(MULTI)| + 1)
  {
    assert |Encode(c)| > 1;
    hide Encode;
    var es := [Block([c])];
    var cs := WireAll(es);
    assert es[1..] == [] && Wire(es[0]) == [MULTI] + [c] + [EXEC];
    assert WireAll(es[1..]) == [];
    assert cs == [MULTI] + [c] + [EXEC] + [];
    assert cs == [MULTI, c, EXEC];
    assert cs[1..][0] == c;
    assert Complete(cs[1..], 1) == 0;
    assert Complete(cs, |Encode(MULTI)| + 1) == 1;
    assert cs[..1] == [MULTI];
    assert [MULTI][1..] == [];
    assert |Log(cs[..1])| == |Encode(MULTI)|;
  }
}
