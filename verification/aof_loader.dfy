/**
  The loader of the append-only file: what it executes, and where it cuts the
  file, on any file; and what that means for a log that a crash cut anywhere.
 */
module AofLoader {
  import opened Decimals
  import opened AofCodec
  import opened Strings

  // ---------------------------------------------------------------- reading one command

  /** What reading something gives: a value and what follows it, or why there is none. */
  datatype Read<T> = Got(value: T, rest: string) | Short | Malformed | Unreadable

  function ReadArg(s: string): (r: Read<string>)
    ensures r.Got? ==> |r.rest| < |s|
  {
    if s == "" then Short
    else
      var n := LineLength(s, LINE);
      if s[0] != '$' then Malformed
      else
        var len := ToUnsigned(Strtol(s[1..n]));
        var t := s[n..];
        if len > |t| || |t| - len < 2 then Short
        else Got(t[..len], t[len + 2..])
  }

  function ReadArgs(s: string, n: nat): (r: Read<Command>)
    ensures r.Got? ==> |r.rest| <= |s| && |r.value| == n
    decreases n
  {
    if n == 0 then Got([], s)
    else Then(ReadArg(s), n)
  }

  function Then(first: Read<string>, n: nat): (r: Read<Command>)
    requires n > 0
    ensures r.Got? ==> first.Got? && |r.rest| <= |first.rest| && |r.value| == n
    decreases n, 0
  {
    match first
    case Got(arg, t) =>
      (match ReadArgs(t, n - 1)
       case Got(args, u) => Got([arg] + args, u)
       case Short => Short
       case Malformed => Malformed
       case Unreadable => Unreadable)
    case Short => Short
    case Malformed => Malformed
    case Unreadable => Unreadable
  }

  function ReadCommand(s: string): (r: Read<Command>)
    requires s != ""
    ensures r.Got? ==> |r.rest| < |s| && |r.value| > 0
  {
    var n := LineLength(s, LINE);
    if s[0] != '*' then Malformed
    else if n == 1 || s[1] == '\0' then
      (if HitsEnd(s, n) then Short else Unreadable)
    else
      var argc := ToInt(Strtol(s[1..n]));
      if argc < 1 then Malformed else ReadArgs(s[n..], argc)
  }

  // ---------------------------------------------------------------- a written number, read back

  lemma {:induction false} NoNewline(c: char, n: nat)
    requires c != '\n'
    ensures '\n' !in [c] + Digits(n) + "\r"
  {
    forall i | 0 <= i < |Digits(n)| ensures Digits(n)[i] != '\n' {
      DigitsAreDigits(n, i);
    }
  }

  lemma {:induction false} NumberLine(c: char, n: nat, b: string)
    requires c != '\n' && n <= LONG_MAX
    ensures LineLength([c] + Digits(n) + "\r\n" + b, LINE) == |Digits(n)| + 3
    ensures Strtol(([c] + Digits(n) + "\r\n" + b)[1..|Digits(n)| + 3]) == n
  {
    var a := [c] + Digits(n) + "\r";
    NoNewline(c, n);
    LongDigits(n);
    LineAt(a, b, LINE);
    var s := [c] + Digits(n) + "\r\n" + b;
    assert s == a + "\n" + b;
    StrtolDecimal(n, "\r\n");
    assert s[1..|Digits(n)| + 3] == Decimal(n) + "\r\n";
  }

  lemma {:induction false} CutNumberLine(c: char, n: nat, k: nat)
    requires c != '\n' && n <= LONG_MAX && 0 < k < |Digits(n)| + 3
    ensures var s := ([c] + Digits(n) + "\r\n")[..k];
            LineLength(s, LINE) == k && HitsEnd(s, k)
  {
    var a := [c] + Digits(n) + "\r";
    NoNewline(c, n);
    LongDigits(n);
    var s := ([c] + Digits(n) + "\r\n")[..k];
    assert s == a[..k];
    LineAtEnd(s, LINE);
  }

  // ---------------------------------------------------------------- a written command, read back

  lemma {:induction false} ReadArgBack(arg: string, b: string)
    requires |arg| <= LONG_MAX
    ensures ReadArg(Bulk(arg) + b) == Got(arg, b)
  {
    hide Strtol, LineLength, Digits;
    NumberLine('$', |arg|, arg + "\r\n" + b);
    var head := ['$'] + Digits(|arg|) + "\r\n";
    var s := Bulk(arg) + b;
    assert s == head + (arg + "\r\n" + b);
    assert s[|head|..] == arg + "\r\n" + b;
    assert (arg + "\r\n" + b)[..|arg|] == arg;
    assert (arg + "\r\n" + b)[|arg| + 2..] == b;
  }

  lemma {:induction false} ReadArgCut(arg: string, k: nat)
    requires |arg| <= LONG_MAX && k < |Bulk(arg)|
    ensures ReadArg(Bulk(arg)[..k]) == Short
  {
    hide Strtol, LineLength, Digits;
    var head := ['$'] + Digits(|arg|) + "\r\n";
    var s := Bulk(arg)[..k];
    assert Bulk(arg) == head + (arg + "\r\n");
    if k == 0 {
    } else if k < |head| {
      CutNumberLine('$', |arg|, k);
      assert s == head[..k];
    } else {
      var t := (arg + "\r\n")[..k - |head|];
      NumberLine('$', |arg|, t);
      assert s == head + t;
      assert s[|head|..] == t;
    }
  }

  ghost predicate Fits(argv: Command) {
    forall i :: 0 <= i < |argv| ==> |argv[i]| <= LONG_MAX
  }

  /** The commands a server can write: their counts fit the types of the writer. */
  ghost predicate Writable(argv: Command) {
    0 < |argv| < 0x8000_0000 && Fits(argv)
  }

  lemma {:induction false} ReadArgsBack(argv: Command, b: string)
    requires Fits(argv)
    ensures ReadArgs(Bulks(argv) + b, |argv|) == Got(argv, b)
    decreases |argv|
  {
    hide ReadArg, Bulk;
    if argv == [] {
      assert Bulks(argv) + b == b;
    } else {
      ReadArgBack(argv[0], Bulks(argv[1..]) + b);
      assert Bulks(argv) + b == Bulk(argv[0]) + (Bulks(argv[1..]) + b);
      ReadArgsBack(argv[1..], b);
      assert [argv[0]] + argv[1..] == argv;
    }
  }

  lemma {:induction false} ReadArgsCut(argv: Command, k: nat)
    requires Fits(argv) && k < |Bulks(argv)|
    ensures ReadArgs(Bulks(argv)[..k], |argv|) == Short
    decreases |argv|
  {
    hide ReadArg, Bulk;
    var first := Bulk(argv[0]);
    if k < |first| {
      ReadArgCut(argv[0], k);
      assert Bulks(argv)[..k] == first[..k];
    } else {
      var t := Bulks(argv[1..])[..k - |first|];
      assert Bulks(argv)[..k] == first + t;
      ReadArgBack(argv[0], t);
      ReadArgsCut(argv[1..], k - |first|);
    }
  }

  lemma {:induction false} SmallToInt(n: int)
    requires 0 <= n < 0x8000_0000
    ensures ToInt(n) == n
  {
  }

  /** A command is read back as it was written, whatever follows it. */
  lemma {:induction false} ReadCommandBack(argv: Command, b: string)
    requires Writable(argv)
    ensures ReadCommand(Encode(argv) + b) == Got(argv, b)
  {
    hide Strtol, LineLength, Digits, Bulks, ToInt, ReadArgs, Fits;
    NumberLine('*', |argv|, Bulks(argv) + b);
    var head := ['*'] + Digits(|argv|) + "\r\n";
    var s := Encode(argv) + b;
    assert s == head + (Bulks(argv) + b);
    assert s[|head|..] == Bulks(argv) + b;
    SomeDigits(|argv|);
    DigitsAreDigits(|argv|, 0);
    assert s[1] == Digits(|argv|)[0];
    SmallToInt(|argv|);
    ReadArgsBack(argv, b);
  }

  lemma {:induction false} SomeDigits(n: nat)
    ensures |Digits(n)| > 0
  {
  }

  /** A command cut anywhere inside is an unexpected end of file, never a format error. */
  lemma {:induction false} ReadCommandCut(argv: Command, k: nat)
    requires Writable(argv) && 0 < k < |Encode(argv)|
    ensures ReadCommand(Encode(argv)[..k]) == Short
  {
    hide Strtol, LineLength, Digits, Bulks, ToInt, ReadArgs, Fits;
    var head := ['*'] + Digits(|argv|) + "\r\n";
    var s := Encode(argv)[..k];
    assert Encode(argv) == head + Bulks(argv);
    SomeDigits(|argv|);
    if k < |head| {
      CutNumberLine('*', |argv|, k);
      assert s == head[..k];
      if k > 1 {
        CutCount(|argv|, k);
        assert s[1] == Digits(|argv|)[0];
        DigitsAreDigits(|argv|, 0);
        NothingLeft(ToInt(Strtol(s[1..k])));
        assert s[k..] == "";
      }
    } else {
      var t := Bulks(argv)[..k - |head|];
      NumberLine('*', |argv|, t);
      assert s == head + t;
      assert s[|head|..] == t;
      assert s[1] == Digits(|argv|)[0];
      DigitsAreDigits(|argv|, 0);
      SmallToInt(|argv|);
      ReadArgsCut(argv, k - |head|);
    }
  }

  lemma {:induction false} NothingLeft(n: int)
    requires n >= 1
    ensures ReadArgs("", n) == Short
  {
  }

  /** A header cut inside still announces a positive number of arguments. */
  lemma {:induction false} CutCount(n: nat, k: nat)
    requires 0 < n < 0x8000_0000 && 1 < k < |Digits(n)| + 3
    ensures ToInt(Strtol((['*'] + Digits(n) + "\r\n")[..k][1..k])) >= 1
  {
    hide Digits, Strtol;
    var s := (['*'] + Digits(n) + "\r\n")[..k][1..k];
    SomeDigits(n);
    if k - 1 <= |Digits(n)| {
      var m := CutDigits(n, k - 1);
      StrtolDecimal(m, "");
      assert s == Digits(n)[..k - 1] == Decimal(m) + "";
    } else {
      StrtolDecimal(n, "\r");
      assert s == Decimal(n) + "\r";
    }
  }

  // ---------------------------------------------------------------- loading a file

  /** The client that runs the commands of the file, and the two offsets the loader keeps. */
  datatype Session = Session(executed: seq<Command>, queue: seq<Command>, multi: bool, validUpTo: nat, beforeMulti: nat)

  const START := Session([], [], false, 0, 0)

  /** What the command table and the configuration say, and whether the file can be truncated. */
  datatype Config = Config(known: set<string>, loadTruncated: bool, canTruncate: bool)

  /** One command that ends at offset end: run, or queued inside a transaction. */
  function Perform(s: Session, argv: Command, end: nat, track: bool): Session
    requires |argv| > 0
  {
    var name := Lower(argv[0]);
    var t := if name == "multi" then s.(beforeMulti := s.validUpTo) else s;
    var u :=
      if t.multi && name != "exec" then t.(queue := t.queue + [argv])
      else if name == "multi" then t.(multi := true)
      else if name != "exec" then t.(executed := t.executed + [argv])
      else if t.multi then t.(executed := t.executed + t.queue, queue := [], multi := false)
      else t;
    if track then u.(validUpTo := end) else u
  }

  /** How loading ends. Cut is a file loaded after truncating it at an offset; the last five end the server. */
  datatype Outcome =
    | EmptyFile
    | Loaded(executed: seq<Command>)
    | Cut(executed: seq<Command>, at: nat)
    | RdbPreamble
    | UnexpectedEof
    | BadFormat
    | ReadFailure
    | UnknownCommand

  function AtEof(s: Session, cfg: Config): Outcome {
    if cfg.loadTruncated && cfg.canTruncate then Cut(s.executed, s.validUpTo) else UnexpectedEof
  }

  /** The end of the file, reached between two commands. */
  function AtCleanEnd(s: Session, cfg: Config): Outcome {
    if s.multi then AtEof(s.(validUpTo := s.beforeMulti), cfg) else Loaded(s.executed)
  }

  function LoadFrom(rest: string, offset: nat, s: Session, cfg: Config): Outcome
    decreases |rest|
  {
    if rest == "" then AtCleanEnd(s, cfg)
    else
      match ReadCommand(rest)
      case Short => AtEof(s, cfg)
      case Malformed => BadFormat
      case Unreadable => ReadFailure
      case Got(argv, t) =>
        if Lower(argv[0]) !in cfg.known then UnknownCommand
        else
          var end := offset + |rest| - |t|;
          LoadFrom(t, end, Perform(s, argv, end, cfg.loadTruncated), cfg)
  }

  function Load(file: string, cfg: Config): Outcome {
    if file == "" then EmptyFile
    else if "REDIS" <= file then RdbPreamble
    else LoadFrom(file, 0, START, cfg)
  }

  // ---------------------------------------------------------------- the loader's loops

  function Prefixed(argv: Command, r: Read<Command>): Read<Command> {
    if r.Got? then Got(argv + r.value, r.rest) else r
  }

  ghost predicate Agrees<T>(r: Read<T>, s: Stream)
    requires s.Valid()
    reads s
  {
    (r.Got? ==> r.rest == s.Rest() && !s.eof) && (r.Short? ==> s.eof) && (r.Unreadable? ==> !s.eof)
  }

  method LoadArg(s: Stream) returns (r: Read<string>)
    requires s.Valid()
    modifies s
    ensures s.Valid()
    ensures r == ReadArg(old(s.Rest())) && Agrees(r, s)
  {
    hide LineLength, Strtol;
    ghost var all := s.Rest();
    var ok, line := s.Fgets();
    if !ok {
      return Short;
    }
    if line[0] != '$' {
      return Malformed;
    }
    ghost var n := |line|;
    assert line[1..] == all[1..n] && s.Rest() == all[n..];
    var len := ToUnsigned(Strtol(line[1..]));
    var bytes := "";
    if len > 0 {
      ok, bytes := s.Fread(len);
      if !ok {
        return Short;
      }
    }
    assert bytes == all[n..][..len] && s.Rest() == all[n..][len..];
    var crlf;
    ok, crlf := s.Fread(2);
    if !ok {
      return Short;
    }
    assert s.Rest() == all[n..][len + 2..];
    return Got(bytes, s.Rest());
  }

  method LoadArgs(s: Stream, argc: nat) returns (r: Read<Command>)
    requires s.Valid() && argc > 0
    modifies s
    ensures s.Valid()
    ensures r == ReadArgs(old(s.Rest()), argc) && Agrees(r, s)
  {
    hide ReadArg;
    var argv: Command := [];
    PrefixedNothing(ReadArgs(s.Rest(), argc));
    for j := 0 to argc
      invariant s.Valid() && |argv| == j && (j > 0 ==> !s.eof)
      invariant ReadArgs(old(s.Rest()), argc) == Prefixed(argv, ReadArgs(s.Rest(), argc - j))
    {
      var arg := LoadArg(s);
      match arg {
        case Got(value, rest) =>
          PrefixedSnoc(argv, value, ReadArgs(rest, argc - j - 1));
          argv := argv + [value];
        case Short => return Short;
        case Malformed => return Malformed;
        case Unreadable => return Unreadable;
      }
    }
    r := Got(argv, s.Rest());
    assert argv + [] == argv;
  }

  lemma {:induction false} PrefixedNothing(r: Read<Command>)
    ensures Prefixed([], r) == r
  {
    if r.Got? {
      assert [] + r.value == r.value;
    }
  }

  lemma {:induction false} PrefixedSnoc(argv: Command, arg: string, r: Read<Command>)
    ensures Prefixed(argv + [arg], r) == Prefixed(argv, Prefixed([arg], r))
  {
    if r.Got? {
      assert argv + [arg] + r.value == argv + ([arg] + r.value);
    }
  }

  method LoadCommand(s: Stream) returns (r: Read<Command>)
    requires s.Valid() && !s.eof && s.Rest() != ""
    modifies s
    ensures s.Valid()
    ensures r == ReadCommand(old(s.Rest())) && Agrees(r, s)
  {
    hide LineLength, Strtol, ToInt, ReadArgs;
    ghost var all := s.Rest();
    var ok, line := s.Fgets();
    if line[0] != '*' {
      return Malformed;
    }
    assert s.Rest() == all[|line|..];
    if |line| == 1 || line[1] == '\0' {
      if s.eof {
        return Short;
      } else {
        return Unreadable;
      }
    }
    assert line[1..] == all[1..|line|];
    var argc := ToInt(Strtol(line[1..]));
    if argc < 1 {
      return Malformed;
    }
    r := LoadArgs(s, argc);
  }

  /** loadAppendOnlyFile: the loop over the commands of the file. */
  method LoadAppendOnlyFile(file: string, cfg: Config) returns (r: Outcome)
    ensures r == Load(file, cfg)
  {
    hide ReadCommand, Perform;
    if file == "" {
      return EmptyFile;
    }
    if |file| >= 5 && file[..5] == "REDIS" {
      return RdbPreamble;
    }
    assert !("REDIS" <= file);
    var s := new Stream(file);
    assert s.Rest() == file;
    var session := START;
    while s.pos < |s.data|
      invariant s.Valid() && !s.eof && s.data == file
      invariant fresh(s)
      invariant LoadFrom(file, 0, START, cfg) == LoadFrom(s.Rest(), s.pos, session, cfg)
      decreases |s.data| - s.pos
    {
      ghost var before, at := s.Rest(), s.pos;
      var command := LoadCommand(s);
      match command {
        case Short => return AtEof(session, cfg);
        case Malformed => return BadFormat;
        case Unreadable => return ReadFailure;
        case Got(argv, rest) =>
          if Lower(argv[0]) !in cfg.known {
            return UnknownCommand;
          }
          assert s.pos == at + |before| - |rest|;
          session := Perform(session, argv, s.pos, cfg.loadTruncated);
      }
    }
    r := AtCleanEnd(session, cfg);
  }
}
