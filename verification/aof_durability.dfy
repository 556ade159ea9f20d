/**
  From running commands to loading the file: the snapshot of a rewrite and the
  log since its fork, loaded by the loader and replayed, give back the dataset.
 */
module AofDurability {
  import opened AofCodec
  import opened Decimals
  import opened Strings
  import opened AofLoader
  import opened AofRecovery
  import opened AofTranslate

  function Singles(commands: seq<Command>): (es: seq<Entry>)
    ensures |es| == |commands|
  {
    if commands == [] then [] else [One(commands[0])] + Singles(commands[1..])
  }

  lemma {:induction false} SinglesAre(commands: seq<Command>)
    requires AllOrdinary(commands)
    ensures WireAll(Singles(commands)) == commands && ContentsAll(Singles(commands)) == commands
    ensures Proper(Singles(commands))
    decreases |commands|
  {
    hide Ordinary;
    if commands != [] {
      SinglesAre(commands[1..]);
      var es := Singles(commands);
      assert es[0] == One(commands[0]) && es[1..] == Singles(commands[1..]);
      assert Wire(es[0]) == [commands[0]] && Contents(es[0]) == [commands[0]];
      assert commands == [commands[0]] + commands[1..];
      forall i | 0 <= i < |es| ensures AllOrdinary(Contents(es[i])) {
        if i > 0 {
          assert es[i] == es[1..][i - 1];
        }
      }
    }
  }

  lemma {:induction false} SinglesPrefix(commands: seq<Command>, k: nat)
    requires k <= |commands|
    ensures Singles(commands)[..k] == Singles(commands[..k])
    decreases k
  {
    if k > 0 {
      SinglesPrefix(commands[1..], k - 1);
      assert commands[..k][1..] == commands[1..][..k - 1];
    }
  }

  /** Commands outside transactions: after a crash anywhere, exactly the complete ones are executed. */
  lemma {:induction false} CrashedCommands(commands: seq<Command>, p: nat, cfg: Config) returns (k: nat)
    requires AllOrdinary(commands) && Loadable(commands, cfg) && Tracks(cfg) && 0 < p <= |Log(commands)|
    ensures k <= |commands| && |Log(commands[..k])| <= p && (k < |commands| ==> p < |Log(commands[..k + 1])|)
    ensures var o := Load(Log(commands)[..p], cfg); (o.Loaded? || o.Cut?) && o.executed == commands[..k]
  {
    hide Loadable, Log, WireAll, ContentsAll, Load, WholeIn, TornInside, Proper, Singles;
    var es := Singles(commands);
    SinglesAre(commands);
    CrashRecovery(es, p, cfg);
    WholeInBounds(es, p);
    k := WholeIn(es, p);
    SinglesPrefix(commands, k);
    assert AllOrdinary(commands[..k]);
    SinglesAre(commands[..k]);
    if k < |commands| {
      SinglesPrefix(commands, k + 1);
      assert AllOrdinary(commands[..k + 1]);
      SinglesAre(commands[..k + 1]);
    }
  }

  // ---------------------------------------------------------------- transactions

  /** The marks of a transaction do nothing to the dataset. */
  ghost predicate IgnoresMarks(other: Other) {
    forall d, db :: other(d, db, MULTI) == d && other(d, db, EXEC) == d
  }

  lemma {:induction false} MarkDoesNothing(r: Replica, clock: int, other: Other)
    requires IgnoresMarks(other)
    ensures ReplayOne(r, MULTI, clock, other) == r && ReplayOne(r, EXEC, clock, other) == r
  {
    Names();
    hide Lower, RunSet, RunExpire;
    assert other(r.data, r.db, MULTI) == r.data && other(r.data, r.db, EXEC) == r.data;
  }

  lemma {:induction false} ReplayEntry(r: Replica, e: Entry, clock: int, other: Other)
    requires IgnoresMarks(other) && AllOrdinary(Contents(e))
    ensures NoneEmpty(Wire(e)) && NoneEmpty(Contents(e))
    ensures Replay(r, Wire(e), clock, other) == Replay(r, Contents(e), clock, other)
  {
    WireNotEmpty(e);
    hide Ordinary, IgnoresMarks, ReplayOne;
    if e.Block? {
      var cs := e.commands;
      assert NoneEmpty(cs) && NoneEmpty([MULTI]) && NoneEmpty([EXEC]) && NoneEmpty([MULTI] + cs);
      MarkDoesNothing(r, clock, other);
      ReplayConcat(r, [MULTI], cs, clock, other);
      assert [MULTI][1..] == [] && Replay(r, [MULTI], clock, other) == r;
      ReplayConcat(r, [MULTI] + cs, [EXEC], clock, other);
      var u := Replay(r, cs, clock, other);
      MarkDoesNothing(u, clock, other);
      assert [EXEC][1..] == [] && Replay(u, [EXEC], clock, other) == u;
    }
  }

  /** Replaying a log, its transactions marked, does what replaying their contents does. */
  lemma {:induction false} ReplayEntries(r: Replica, entries: seq<Entry>, clock: int, other: Other)
    requires IgnoresMarks(other) && Proper(entries)
    ensures NoneEmpty(WireAll(entries)) && NoneEmpty(ContentsAll(entries))
    ensures Replay(r, WireAll(entries), clock, other) == Replay(r, ContentsAll(entries), clock, other)
    decreases |entries|
  {
    hide Replay, IgnoresMarks, Wire, Contents, AllOrdinary;
    if entries != [] {
      ReplayEntry(r, entries[0], clock, other);
      var u := Replay(r, Wire(entries[0]), clock, other);
      ReplayEntries(u, entries[1..], clock, other);
      ReplayConcat(r, Wire(entries[0]), WireAll(entries[1..]), clock, other);
      ReplayConcat(r, Contents(entries[0]), ContentsAll(entries[1..]), clock, other);
    }
  }

  /** The snapshot of a rewrite, the events since its fork, and their log as entries. */
  ghost predicate Logs(image: seq<Command>, atFork: Data, events: seq<Event>, entries: seq<Entry>, cfg: Config,
      clock: int, other: Other) {
    && AllRan(atFork, events, other) && DbsFit(events) && HasArgs(events) && IgnoresMarks(other)
    && AllOrdinary(image) && LogOf(events, -1) == WireAll(entries) && Proper(entries)
    && Loadable(image, cfg) && Loadable(LogOf(events, -1), cfg) && Tracks(cfg) && image != []
    && NoneEmpty(image) && Replay(Replica(map[], 0), image, clock, other).data == atFork
  }

  /** The dataset that a file restores. */
  ghost function Restored(file: string, cfg: Config, clock: int, other: Other): Data {
    var o := Load(file, cfg);
    if (o.Loaded? || o.Cut?) && NoneEmpty(o.executed) then Replay(Replica(map[], 0), o.executed, clock, other).data else map[]
  }

  /** The snapshot and the log after it are one log. */
  lemma {:induction false} FileIsLog(image: seq<Command>, entries: seq<Entry>, cfg: Config)
    requires AllOrdinary(image) && Proper(entries) && image != [] && Loadable(image, cfg)
    requires Loadable(WireAll(entries), cfg)
    ensures var all := Singles(image) + entries;
            && Proper(all) && Loadable(WireAll(all), cfg) && Log(WireAll(all)) == Log(image) + Log(WireAll(entries))
            && WireAll(Singles(image)) == ContentsAll(Singles(image)) == image && |Log(image)| > 0
            && Bytes(all) == |Log(image)| + Bytes(entries)
  {
    assert |Log(image)| > 0;
    hide Log, Ordinary, Writable, Lower, Wire, WireAll, ContentsAll;
    LogConcat(image, WireAll(entries));
    SinglesAre(image);
    WireConcat(Singles(image), entries);
  }

  /**
    A file that is a snapshot followed by the log of the events since the snapshot restores
    the dataset those events left, at whatever time it is loaded, provided that commands were
    logged when they ran. The log may hold transactions, as long as each of them is complete.
   */
  lemma {:induction false} LogRestoresDataset(image: seq<Command>, atFork: Data, events: seq<Event>,
      entries: seq<Entry>,
      cfg: Config, clock: int, other: Other)
    requires Logs(image, atFork, events, entries, cfg, clock, other)
    ensures var file := Log(image) + Log(LogOf(events, -1));
            Load(file, cfg).Loaded? && Restored(file, cfg, clock, other) == Live(atFork, events, other)
  {
    hide Log, LogOf, Live, Replay, Load, AllRan, IgnoresMarks, Wire, WireAll, ContentsAll, Loadable, Singles,
        AllOrdinary, Proper;
    FileIsLog(image, entries, cfg);
    ContentsConcat(Singles(image), entries);
    WholeLogLoads(Singles(image) + entries, cfg);
    var r := Replay(Replica(map[], 0), image, clock, other);
    ReplayEntries(r, entries, clock, other);
    ReplayConcat(Replica(map[], 0), image, ContentsAll(entries), clock, other);
    ReplayIsLive(r, events, -1, clock, other);
  }

  // ---------------------------------------------------------------- a crash inside the log

  /** How many events are whole in the first n commands of their log. */
  ghost function WholeEvents(events: seq<Event>, selected: int, n: nat): (m: nat)
    requires HasArgs(events)
    ensures m <= |events|
    decreases |events|
  {
    if events == [] then 0
    else
      match events[0]
      case Rewrite => 1 + WholeEvents(events[1..], -1, n)
      case Ran(db, _, _, left, fed) =>
        var size := |Logged(left, db, selected, fed)|;
        if n < size then 0 else 1 + WholeEvents(events[1..], db, n - size)
  }

  lemma {:induction false} LogOfFirst(events: seq<Event>, selected: int, m: nat)
    requires HasArgs(events) && m < |events|
    ensures HasArgs(events[..m + 1]) && HasArgs(events[1..][..m])
    ensures LogOf(events[..m + 1], selected) ==
            if events[0].Ran? then
              Logged(events[0].left, events[0].db, selected, events[0].fed) + LogOf(events[1..][..m], events[0].db)
            else LogOf(events[1..][..m], -1)
  {
    hide Logged;
    assert events[..m + 1][1..] == events[1..][..m];
  }

  lemma {:induction false} FirstIsNotWhole(events: seq<Event>, selected: int, n: nat)
    requires HasArgs(events) && events != [] && events[0].Ran?
    requires n < |Logged(events[0].left, events[0].db, selected, events[0].fed)|
    ensures WholeEvents(events, selected, n) == 0 && HasArgs(events[..0]) && HasArgs(events[..1])
    ensures LogOf(events[..0], selected) == [] && n < |LogOf(events[..1], selected)|
  {
    hide Logged, LogOf;
    LogOfFirst(events, selected, 0);
    EmptyLog(events[1..][..0], events[0].db);
    EmptyLog(events[..0], selected);
  }

  lemma {:induction false} WholeEventsBounds(events: seq<Event>, selected: int, n: nat)
    requires HasArgs(events)
    ensures var m := WholeEvents(events, selected, n);
            && HasArgs(events[..m]) && |LogOf(events[..m], selected)| <= n
            && (m < |events| ==> events[m].Ran? && HasArgs(events[..m + 1]) && n < |LogOf(events[..m + 1], selected)|)
    decreases |events|
  {
    hide Logged, LogOf;
    if events != [] {
      var next := if events[0].Ran? then events[0].db else -1;
      var size := if events[0].Ran? then |Logged(events[0].left, events[0].db, selected, events[0].fed)| else 0;
      if n < size {
        FirstIsNotWhole(events, selected, n);
      } else {
        WholeEventsBounds(events[1..], next, n - size);
        var m := WholeEvents(events[1..], next, n - size);
        assert WholeEvents(events, selected, n) == m + 1;
        hide WholeEvents;
        LogOfFirst(events, selected, m);
        if m + 1 < |events| {
          assert events[m + 1] == events[1..][m];
          LogOfFirst(events, selected, m + 1);
        }
      }
    } else {
      EmptyLog(events[..0], selected);
    }
  }

  lemma {:induction false} EmptyLog(events: seq<Event>, selected: int)
    requires events == []
    ensures HasArgs(events) && LogOf(events, selected) == []
  {
  }

  /** What a command is logged as: a SET and the expiry of its key, in two commands. */
  ghost predicate LoggedAsTwo(e: Event) {
    e.Ran? && |e.left| > 0 && |Translate(e.left, e.fed)| == 2
  }

  /** The log was cut between the SET and the expiry of its key. */
  ghost predicate CutsSet(events: seq<Event>, selected: int, n: nat)
    requires HasArgs(events)
  {
    var m := WholeEvents(events, selected, n);
    && m < |events| && LoggedAsTwo(events[m])
    && HasArgs(events[..m + 1]) && n + 1 == |LogOf(events[..m + 1], selected)|
  }

  /** The key and value that a command with a time to live sets. */
  function KeyOf(argv: Command): string {
    if |argv| > 1 then argv[1] else ""
  }

  function ValueOf(argv: Command): string {
    if |argv| == 4 && Lower(argv[0]) != "set" then argv[3] else if |argv| > 2 then argv[2] else ""
  }

  /** What the first n commands of the log restore: the whole events, and the SET of one that is cut after it. */
  ghost function Recovered(d: Data, events: seq<Event>, selected: int, n: nat, other: Other): Data
    requires HasArgs(events)
  {
    var m := WholeEvents(events, selected, n);
    var live := Live(d, events[..m], other);
    if CutsSet(events, selected, n) then
      Store(live, events[m].db, KeyOf(events[m].left), ValueOf(events[m].left), false)
    else live
  }

  /** Part of what is logged for one command. */
  lemma {:induction false} ReplayPart(r: Replica, argv: Command, db: nat, selected: int, now: int, n: nat, clock: int,
      other: Other)
    requires |argv| > 0 && db <= LONG_MAX && (selected == -1 || selected == r.db)
    requires n < |Logged(argv, db, selected, now)|
    ensures var twice := |Translate(argv, now)| == 2 && n + 1 == |Logged(argv, db, selected, now)|;
            var stored := Store(r.data, db, KeyOf(argv), ValueOf(argv), false);
            Replay(r, Logged(argv, db, selected, now)[..n], clock, other).data == if twice then stored else r.data
  {
    var t := Translate(argv, now);
    var log := Logged(argv, db, selected, now);
    FirstOfTwo(argv, now);
    hide Translate, Replay, ReplayOne, Lower, Select;
    if db != selected {
      ReplaySelect(r, db, clock, other);
      if n == 0 {
        ReplayNothing(r, log[..0], clock, other);
      } else if n == 1 {
        assert log[..1] == [Select(db)];
      } else {
        assert log[..2] == [Select(db)] + [t[0]];
        ReplayConcat(r, [Select(db)], [t[0]], clock, other);
        ReplayStored(r.(db := db), argv, now, clock, other);
      }
    } else if n == 0 {
      ReplayNothing(r, log[..0], clock, other);
    } else {
      assert log[..1] == [t[0]];
      ReplayStored(r, argv, now, clock, other);
    }
  }

  lemma {:induction false} ReplayNothing(r: Replica, commands: seq<Command>, clock: int, other: Other)
    requires commands == []
    ensures Replay(r, commands, clock, other) == r
  {
  }

  /** At most two commands are logged for one, and of two the first stores the value. */
  lemma {:induction false} FirstOfTwo(argv: Command, now: int)
    requires |argv| > 0
    ensures var t := Translate(argv, now);
            1 <= |t| <= 2 && (|t| == 2 ==> exists name :: Lower(name) == "set" && t[0] == [name, KeyOf(argv), ValueOf(argv)])
  {
    LogNames();
    hide Lower, When, Scan;
    var t := Translate(argv, now);
    if |t| == 2 {
      assert t[0] == [t[0][0], KeyOf(argv), ValueOf(argv)];
    }
  }

  lemma {:induction false} ReplayStored(r: Replica, argv: Command, now: int, clock: int, other: Other)
    requires |argv| > 0 && |Translate(argv, now)| == 2
    ensures var stored := Store(r.data, r.db, KeyOf(argv), ValueOf(argv), false);
            Replay(r, [Translate(argv, now)[0]], clock, other) == r.(data := stored)
  {
    hide Translate, Lower, Replay, ReplayOne, Store;
    FirstOfTwo(argv, now);
    var first := Translate(argv, now)[0];
    var name :| Lower(name) == "set" && first == [name, KeyOf(argv), ValueOf(argv)];
    ReplayTwo(r, first, first, clock, other);
    ReplayPlainSet(r, name, KeyOf(argv), ValueOf(argv), clock, other);
  }

  lemma {:induction false} RecoveredNext(d: Data, events: seq<Event>, selected: int, n: nat, other: Other)
    requires HasArgs(events) && events != []
    requires events[0].Ran? ==> n >= |Logged(events[0].left, events[0].db, selected, events[0].fed)|
    ensures Recovered(d, events, selected, n, other) ==
            if events[0].Ran? then
              Recovered(Run(d, events[0].db, events[0].argv, events[0].at, other), events[1..], events[0].db,
                        n - |Logged(events[0].left, events[0].db, selected, events[0].fed)|, other)
            else Recovered(d, events[1..], -1, n, other)
  {
    hide Logged, LogOf, Run, Store;
    var next := if events[0].Ran? then events[0].db else -1;
    var size := if events[0].Ran? then |Logged(events[0].left, events[0].db, selected, events[0].fed)| else 0;
    var m := WholeEvents(events[1..], next, n - size);
    assert WholeEvents(events, selected, n) == m + 1;
    assert events[..m + 1][1..] == events[1..][..m];
    assert m + 1 < |events| ==> events[m + 1] == events[1..][m];
    CutsSetNext(events, selected, n);
    hide CutsSet, WholeEvents;
  }

  lemma {:induction false} CutsSetNext(events: seq<Event>, selected: int, n: nat)
    requires HasArgs(events) && events != []
    requires events[0].Ran? ==> n >= |Logged(events[0].left, events[0].db, selected, events[0].fed)|
    ensures CutsSet(events, selected, n) <==>
            if events[0].Ran? then
              CutsSet(events[1..], events[0].db, n - |Logged(events[0].left, events[0].db, selected, events[0].fed)|)
            else CutsSet(events[1..], -1, n)
  {
    hide Logged, LogOf, LoggedAsTwo;
    var next := if events[0].Ran? then events[0].db else -1;
    var size := if events[0].Ran? then |Logged(events[0].left, events[0].db, selected, events[0].fed)| else 0;
    var m := WholeEvents(events[1..], next, n - size);
    assert WholeEvents(events, selected, n) == m + 1;
    hide WholeEvents;
    if m + 1 < |events| {
      assert events[m + 1] == events[1..][m];
      LogOfFirst(events, selected, m + 1);
    }
  }

  /** The first n commands of a log, replayed at any time. */
  lemma {:induction false} ReplayPrefix(r: Replica, events: seq<Event>, selected: int, n: nat, clock: int, other: Other)
    requires AllRan(r.data, events, other) && DbsFit(events) && HasArgs(events) && (selected == -1 || selected == r.db)
    requires n <= |LogOf(events, selected)|
    ensures Replay(r, LogOf(events, selected)[..n], clock, other).data == Recovered(r.data, events, selected, n, other)
    decreases |events|
  {
    hide Logged, Replay, Run, Recovered, Took, Leaves;
    var log := LogOf(events, selected);
    if events == [] {
      ReplayNothing(r, log[..n], clock, other);
      RecoveredNone(r.data, events, selected, n, other);
    } else if events[0].Rewrite? {
      RecoveredNext(r.data, events, selected, n, other);
      ReplayPrefix(r, events[1..], -1, n, clock, other);
    } else {
      var Ran(db, argv, at, left, fed) := events[0];
      var head := Logged(left, db, selected, fed);
      if n < |head| {
        assert log[..n] == head[..n];
        ReplayPart(r, left, db, selected, fed, n, clock, other);
        RecoveredPart(r.data, events, selected, n, other);
      } else {
        RunIsEffect(r.data, db, argv, at, left, other);
        ReplayLogged(r, left, db, selected, fed, clock, other);
        var q := Replica(Run(r.data, db, argv, at, other), db);
        assert log[..n] == head + LogOf(events[1..], db)[..n - |head|];
        ReplayPrefix(q, events[1..], db, n - |head|, clock, other);
        ReplayConcat(r, head, LogOf(events[1..], db)[..n - |head|], clock, other);
        RecoveredNext(r.data, events, selected, n, other);
      }
    }
  }

  lemma {:induction false} RecoveredNone(d: Data, events: seq<Event>, selected: int, n: nat, other: Other)
    requires events == []
    ensures HasArgs(events) && Recovered(d, events, selected, n, other) == d
  {
    hide LogOf;
  }

  lemma {:induction false} RecoveredPart(d: Data, events: seq<Event>, selected: int, n: nat, other: Other)
    requires HasArgs(events) && events != [] && events[0].Ran?
    requires n < |Logged(events[0].left, events[0].db, selected, events[0].fed)|
    ensures var e := events[0];
            var twice := |Translate(e.left, e.fed)| == 2 && n + 1 == |Logged(e.left, e.db, selected, e.fed)|;
            Recovered(d, events, selected, n, other) == if twice then Store(d, e.db, KeyOf(e.left), ValueOf(e.left), false) else d
  {
    hide Logged, LogOf, Store, Translate;
    assert WholeEvents(events, selected, n) == 0;
    assert events[..0] == [];
    LogOfFirst(events, selected, 0);
    EmptyLog(events[1..][..0], events[0].db);
  }

  /** What the recovered dataset lacks: nothing, unless the log was cut between a SET and the expiry of its key. */
  lemma {:induction false} RecoveredIsLiveIff(d: Data, events: seq<Event>, selected: int, n: nat, other: Other)
    requires HasArgs(events)
    ensures var m := WholeEvents(events, selected, n);
            var live := Live(d, events[..m], other);
            Recovered(d, events, selected, n, other) == live <==>
            !CutsSet(events, selected, n)
            || (KeyOf(events[m].left) in Keys(live, events[m].db)
                && Keys(live, events[m].db)[KeyOf(events[m].left)] == Item(ValueOf(events[m].left), Never))
  {
    hide Live, LogOf, KeyOf, ValueOf;
    var m := WholeEvents(events, selected, n);
    if CutsSet(events, selected, n) {
      StoreIsNothingIff(Live(d, events[..m], other), events[m].db, KeyOf(events[m].left), ValueOf(events[m].left));
    }
  }

  lemma {:induction false} StoreIsNothingIff(d: Data, db: nat, key: string, value: string)
    ensures Store(d, db, key, value, false) == d <==> key in Keys(d, db) && Keys(d, db)[key] == Item(value, Never)
  {
    var e := Store(d, db, key, value, false);
    assert key in Keys(e, db) && Keys(e, db)[key] == Item(value, Never);
    if key in Keys(d, db) && Keys(d, db)[key] == Item(value, Never) {
      assert Keys(d, db)[key := Item(value, Never)] == Keys(d, db);
      assert e == d;
    }
  }

  lemma {:induction false} ImageIsWhole(start: seq<Entry>, entries: seq<Entry>, p: nat)
    requires Bytes(start) <= p
    ensures |start| <= WholeIn(start + entries, p)
  {
    hide Wire, WireAll, Log, WholeIn;
    var all := start + entries;
    var w := WholeIn(all, p);
    WholeInBounds(all, p);
    var cs := WireAll(start);
    assert cs[..|cs|] == cs;
    if w < |start| {
      assert all[..w + 1] == start[..w + 1];
      WirePrefix(start, w + 1);
      LogGrows(cs, |WireAll(start[..w + 1])|, |cs|);
    }
  }

  /** The entries of a file that are whole at byte p, when p lies in the log. */
  lemma {:induction false} WholeAfterImage(start: seq<Entry>, entries: seq<Entry>, p: nat) returns (k: nat)
    requires Bytes(start) <= p
    ensures k <= |entries| && WholeIn(start + entries, p) == |start| + k
    ensures Bytes(start) + Bytes(entries[..k]) <= p && (k < |entries| ==> p < Bytes(start) + Bytes(entries[..k + 1]))
  {
    hide Wire, WireAll, Log, WholeIn;
    var all := start + entries;
    var w := WholeIn(all, p);
    WholeInBounds(all, p);
    ImageIsWhole(start, entries, p);
    k := w - |start|;
    BytesOfBoth(start, entries, k);
    if k < |entries| {
      BytesOfBoth(start, entries, k + 1);
    }
  }

  lemma {:induction false} BytesOfBoth(start: seq<Entry>, entries: seq<Entry>, k: nat)
    requires k <= |entries|
    ensures Bytes((start + entries)[..|start| + k]) == Bytes(start) + Bytes(entries[..k])
  {
    hide WireAll, Log;
    assert (start + entries)[..|start| + k] == start + entries[..k];
    WireConcat(start, entries[..k]);
    LogConcat(WireAll(start), WireAll(entries[..k]));
  }

  /** What loading executes of a file that was cut inside its log: the snapshot and the whole entries. */
  lemma {:induction false} CutLogExecutes(image: seq<Command>, entries: seq<Entry>, p: nat,
      cfg: Config) returns (k: nat)
    requires AllOrdinary(image) && Proper(entries) && image != [] && Tracks(cfg)
    requires Loadable(image, cfg) && Loadable(WireAll(entries), cfg)
    requires |Log(image)| <= p <= |Log(image)| + Bytes(entries)
    ensures k <= |entries| && |Log(image)| + Bytes(entries[..k]) <= p
    ensures (k < |entries| ==> p < |Log(image)| + Bytes(entries[..k + 1]))
    ensures var o := Load((Log(image) + Log(WireAll(entries)))[..p], cfg);
            (o.Loaded? || o.Cut?) && o.executed == image + ContentsAll(entries[..k])
  {
    hide Log, Load, Wire, WireAll, ContentsAll, Loadable, WholeIn, TornInside, AllOrdinary, Proper, Singles;
    var start := Singles(image);
    var all := start + entries;
    FileIsLog(image, entries, cfg);
    CrashRecovery(all, p, cfg);
    k := WholeAfterImage(start, entries, p);
    assert all[..|start| + k] == start + entries[..k];
    ContentsConcat(start, entries[..k]);
  }

  /**
    A crash anywhere in the log: whatever the byte at which the file ends, loading it restores the dataset
    after the events whose entries are whole; one more SET counts when the file ends between it and the
    expiry of its key.
   */
  lemma {:induction false} CrashRestoresPrefix(image: seq<Command>, atFork: Data, events: seq<Event>,
      entries: seq<Entry>,
      p: nat, cfg: Config, clock: int, other: Other) returns (k: nat)
    requires Logs(image, atFork, events, entries, cfg, clock, other)
    requires |Log(image)| <= p <= |Log(image)| + Bytes(entries)
    ensures k <= |entries| && |Log(image)| + Bytes(entries[..k]) <= p
    ensures (k < |entries| ==> p < |Log(image)| + Bytes(entries[..k + 1]))
    ensures var file := (Log(image) + Log(LogOf(events, -1)))[..p];
            && (Load(file, cfg).Loaded? || Load(file, cfg).Cut?)
            && Restored(file, cfg, clock, other) == Recovered(atFork, events, -1, |WireAll(entries[..k])|, other)
  {
    hide Log, LogOf, Replay, Load, AllRan, Ordinary, Writable, Lower, IgnoresMarks, WireAll, ContentsAll, Loadable,
        Recovered, Bytes;
    k := CutLogExecutes(image, entries, p, cfg);
    var r := Replay(Replica(map[], 0), image, clock, other);
    ReplayEntries(r, entries[..k], clock, other);
    ReplayConcat(Replica(map[], 0), image, ContentsAll(entries[..k]), clock, other);
    WirePrefix(entries, k);
    ReplayPrefix(r, events, -1, |WireAll(entries[..k])|, clock, other);
  }

  const SETEX: Command := ["setex", "k", "10", "v"]
  const SHORT_LIVED: Event := Ran(0, SETEX, Moment(0, 0, true), SETEX, 0)

  /**
    Such a cut: SETEX k 10 v is logged as SELECT, SET and PEXPIREAT, and after the first two the key lives for
    ever.
   */
  lemma {:induction false} KeyOutlivesCrash(other: Other)
    ensures var events := [SHORT_LIVED];
            && AllRan(map[], events, other) && HasArgs(events) && CutsSet(events, -1, 2)
            && Get(Live(map[], events, other), 0, "k") == Item("v", At(10000))
            && Get(Recovered(map[], events, -1, 2, other), 0, "k") == Item("v", Never)
  {
    hide Lower, Parse, Strtol, Translate, Effect, Run, LogOf, Logged, Recovered, CutsSet, Leaves, Took, KeyOf, ValueOf;
    var events := [SHORT_LIVED];
    ShortLived(other);
    assert events[1..] == [];
    var d := Run(map[], 0, SETEX, Moment(0, 0, true), other);
    assert AllRan(d, [], other) && Live(d, [], other) == d;
    RecoveredPart(map[], events, -1, 2, other);
    ShortLivedIsCut(events);
  }

  lemma {:induction false} ShortLived(other: Other)
    ensures Leaves(map[], 0, SETEX, Moment(0, 0, true), SETEX) && Took(map[], 0, SETEX)
    ensures var d := Run(map[], 0, SETEX, Moment(0, 0, true), other); Get(d, 0, "k") == Item("v", At(10000))
    ensures |Translate(SETEX, 0)| == 2 && |Logged(SETEX, 0, -1, 0)| == 3
    ensures KeyOf(SETEX) == "k" && ValueOf(SETEX) == "v"
  {
    Lowered("setex", "setex");
    TenIsANumber();
    hide Lower, Parse, Strtol;
    SetExEffect(map[], 0, SETEX, 0, other);
    SetExIsLogged(SETEX, 0);
    hide Translate, Effect;
  }

  lemma {:induction false} ShortLivedIsCut(events: seq<Event>)
    requires events == [SHORT_LIVED] && |Translate(SETEX, 0)| == 2 && |Logged(SETEX, 0, -1, 0)| == 3
    ensures CutsSet(events, -1, 2)
  {
    hide Translate, Logged, LogOf;
    assert WholeEvents(events, -1, 2) == 0;
    LogOfFirst(events, -1, 0);
    EmptyLog(events[1..][..0], 0);
  }
}
