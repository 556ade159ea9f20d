/**
  The translation of commands on their way into the append-only file: relative
  times become absolute ones, and a SELECT precedes a command for another
  database. Replaying the translated log is compared with the commands as they
  were executed.
 */
module AofTranslate {
  import opened Decimals
  import opened AofCodec
  import opened Strings
  import opened AofLoader

  // ---------------------------------------------------------------- the dataset

  datatype Expiry = Never | At(ms: int)
  datatype Item = Item(value: string, expiry: Expiry)

  /** The keys of every database. */
  type Data = map<nat, map<string, Item>>

  /** The commands the translation leaves alone, as any function of the dataset, the database and the arguments. */
  type Other = (Data, nat, Command) -> Data

  function Keys(d: Data, db: nat): map<string, Item> {
    if db in d then d[db] else map[]
  }

  function Put(d: Data, db: nat, key: string, item: Item): Data {
    d[db := Keys(d, db)[key := item]]
  }

  function SetExpire(d: Data, db: nat, key: string, when: int): Data {
    if key in Keys(d, db) then Put(d, db, key, Keys(d, db)[key].(expiry := At(when))) else d
  }

  function Delete(d: Data, db: nat, key: string): Data {
    if key in Keys(d, db) then d[db := Keys(d, db) - {key}] else d
  }

  function Store(d: Data, db: nat, key: string, value: string, keepTtl: bool): Data {
    var old' := Keys(d, db);
    Put(d, db, key, Item(value, if keepTtl && key in old' then old'[key].expiry else Never))
  }

  // ---------------------------------------------------------------- arguments

  datatype Number = NotANumber | Number(n: int)

  /** string2ll: the canonical decimal numbers of a 64-bit integer and nothing else. */
  function Parse(s: string): Number {
    if Decimal(Strtol(s)) == s then Number(Strtol(s)) else NotANumber
  }

  datatype Unit = Seconds | Milliseconds
  datatype Ttl = NoTtl | Ttl(unit: Unit, arg: string)
  datatype SetOptions = SyntaxError | Options(nx: bool, xx: bool, keepTtl: bool, ttl: Ttl)

  /** The options of SET, from argument j on. */
  function ParseOptions(argv: Command, j: nat, o: SetOptions): SetOptions
    requires o.Options?
    decreases |argv| - j
  {
    if j >= |argv| then o
    else
      var a := Lower(argv[j]);
      if a == "nx" && !o.xx then ParseOptions(argv, j + 1, o.(nx := true))
      else if a == "xx" && !o.nx then ParseOptions(argv, j + 1, o.(xx := true))
      else if a == "keepttl" && o.ttl.NoTtl? then ParseOptions(argv, j + 1, o.(keepTtl := true))
      else if a == "ex" && !o.keepTtl && !IsUnit(o.ttl, Milliseconds) && j + 1 < |argv| then
        ParseOptions(argv, j + 2, o.(ttl := Ttl(Seconds, argv[j + 1])))
      else if a == "px" && !o.keepTtl && !IsUnit(o.ttl, Seconds) && j + 1 < |argv| then
        ParseOptions(argv, j + 2, o.(ttl := Ttl(Milliseconds, argv[j + 1])))
      else SyntaxError
  }

  predicate IsUnit(t: Ttl, u: Unit) {
    t.Ttl? && t.unit == u
  }

  /** Whether one of the arguments from j on is an option, in any case. */
  ghost predicate Says(argv: Command, j: nat, name: string) {
    exists i :: j <= i < |argv| && Lower(argv[i]) == name
  }

  ghost predicate SaysTtl(argv: Command, j: nat, t: Ttl) {
    t.Ttl? && exists i :: j <= i < |argv| - 1 && Lower(argv[i]) == (if t.unit == Seconds then "ex" else "px") && argv[i + 1] == t.arg
  }

  /**
    Every option that is found is spelled out in the command; NX and XX, and KEEPTTL and a time, exclude each
    other.
   */
  lemma {:induction false} OptionsAreSpelled(argv: Command, j: nat, o: SetOptions)
    requires o.Options? && !(o.nx && o.xx) && !(o.keepTtl && o.ttl.Ttl?)
    ensures var p := ParseOptions(argv, j, o);
            p.Options? ==>
              && (p.nx ==> o.nx || Says(argv, j, "nx")) && (p.xx ==> o.xx || Says(argv, j, "xx"))
              && (p.keepTtl ==> o.keepTtl || Says(argv, j, "keepttl"))
              && (p.ttl.Ttl? ==> p.ttl == o.ttl || SaysTtl(argv, j, p.ttl))
              && !(p.nx && p.xx) && !(p.keepTtl && p.ttl.Ttl?)
              && (o.nx ==> p.nx) && (o.xx ==> p.xx) && (o.keepTtl ==> p.keepTtl) && (o.ttl.Ttl? ==> p.ttl.Ttl?)
    decreases |argv| - j
  {
    hide Lower;
    if j < |argv| {
      var a := Lower(argv[j]);
      if a == "nx" && !o.xx {
        OptionsAreSpelled(argv, j + 1, o.(nx := true));
      } else if a == "xx" && !o.nx {
        OptionsAreSpelled(argv, j + 1, o.(xx := true));
      } else if a == "keepttl" && o.ttl.NoTtl? {
        OptionsAreSpelled(argv, j + 1, o.(keepTtl := true));
      } else if a == "ex" && !o.keepTtl && !IsUnit(o.ttl, Milliseconds) && j + 1 < |argv| {
        OptionsAreSpelled(argv, j + 2, o.(ttl := Ttl(Seconds, argv[j + 1])));
      } else if a == "px" && !o.keepTtl && !IsUnit(o.ttl, Seconds) && j + 1 < |argv| {
        OptionsAreSpelled(argv, j + 2, o.(ttl := Ttl(Milliseconds, argv[j + 1])));
      }
    }
  }

  const NO_OPTIONS := Options(false, false, false, NoTtl)

  predicate Fits64(n: int) {
    LONG_MIN <= n <= LONG_MAX
  }

  /** A sum or product of 64-bit integers, in two's complement. */
  function Wrap64(n: int): (r: int)
    ensures Fits64(r) && (Fits64(n) ==> r == n)
  {
    if Fits64(n) then n else (n - LONG_MIN) % (LONG_MAX - LONG_MIN + 1) + LONG_MIN
  }

  function Scale(u: Unit, n: int): int {
    if u == Seconds then Wrap64(n * 1000) else n
  }

  /** The time in milliseconds that lies n units after another one. */
  function Deadline(u: Unit, n: int, base: int): int {
    Wrap64(Scale(u, n) + base)
  }

  // ---------------------------------------------------------------- execution

  /** What SET does at a time: nothing on a syntax error, a bad time to live, or when NX or XX forbids it. */
  function RunSet(d: Data, db: nat, key: string, value: string, o: SetOptions, now: int): Data {
    if !o.Options? || !TtlOk(o.ttl) || !Allowed(d, db, key, o) then d
    else
      var e := Store(d, db, key, value, o.keepTtl);
      if o.ttl.NoTtl? then e
      else SetExpire(e, db, key, Deadline(o.ttl.unit, Parse(o.ttl.arg).n, now))
  }

  predicate TtlOk(t: Ttl) {
    t.NoTtl? || (Parse(t.arg).Number? && Parse(t.arg).n > 0)
  }

  predicate Allowed(d: Data, db: nat, key: string, o: SetOptions)
    requires o.Options?
  {
    !(o.nx && key in Keys(d, db)) && !(o.xx && key !in Keys(d, db))
  }

  predicate IsExpire(argv: Command) {
    |argv| == 3 && Lower(argv[0]) in ["expire", "pexpire", "expireat", "pexpireat"]
  }

  /** EXPIRE, PEXPIRE, EXPIREAT and PEXPIREAT: a unit, and the time from which they count. */
  function ExpiryOf(argv: Command, now: int): int
    requires IsExpire(argv)
  {
    var name, n := Lower(argv[0]), Parse(argv[2]);
    Deadline(if name == "expire" || name == "expireat" then Seconds else Milliseconds, if n.Number? then n.n else 0,
             if name == "expire" || name == "pexpire" then now else 0)
  }

  function RunExpire(d: Data, db: nat, argv: Command, now: int): Data
    requires IsExpire(argv)
  {
    if Parse(argv[2]).Number? then SetExpire(d, db, argv[1], ExpiryOf(argv, now)) else d
  }

  /** What a command does when a file is loaded at a time: an expiry is set even when it is past. */
  function Effect(d: Data, db: nat, argv: Command, now: int, other: Other): Data
    requires |argv| > 0
  {
    var name := Lower(argv[0]);
    if name == "set" && |argv| >= 3 then RunSet(d, db, argv[1], argv[2], ParseOptions(argv, 3, NO_OPTIONS), now)
    else if name == "setex" && |argv| == 4 then
      RunSet(d, db, argv[1], argv[3], NO_OPTIONS.(ttl := Ttl(Seconds, argv[2])), now)
    else if name == "psetex" && |argv| == 4 then
      RunSet(d, db, argv[1], argv[3], NO_OPTIONS.(ttl := Ttl(Milliseconds, argv[2])), now)
    else if IsExpire(argv) then RunExpire(d, db, argv, now)
    else if (name == "del" || name == "unlink") && |argv| == 2 then Delete(d, db, argv[1])
    else other(d, db, argv)
  }

  /** When a command ran, when it then looked at the clock again, and whether the server is a master. */
  datatype Moment = Moment(ran: int, checked: int, master: bool)

  /** On a master, a time that is already past expires the key at once. */
  predicate ExpiresAtOnce(d: Data, db: nat, argv: Command, m: Moment) {
    && IsExpire(argv) && Parse(argv[2]).Number? && argv[1] in Keys(d, db)
    && m.master && ExpiryOf(argv, m.ran) <= m.checked
  }

  /** What a command does when a client sends it. */
  function Run(d: Data, db: nat, argv: Command, m: Moment, other: Other): Data
    requires |argv| > 0
  {
    if ExpiresAtOnce(d, db, argv, m) then Delete(d, db, argv[1]) else Effect(d, db, argv, m.ran, other)
  }

  /** The command that execution leaves to be logged: a key expired at once is logged as deleted. */
  ghost predicate Leaves(d: Data, db: nat, argv: Command, m: Moment, left: Command) {
    if ExpiresAtOnce(d, db, argv, m) then left == ["DEL", argv[1]] || left == ["UNLINK", argv[1]] else left == argv
  }

  /** Running a command does what loading the command it leaves does. */
  lemma {:induction false} RunIsEffect(d: Data, db: nat, argv: Command, m: Moment, left: Command, other: Other)
    requires |argv| > 0 && Leaves(d, db, argv, m, left)
    ensures |left| > 0 && Run(d, db, argv, m, other) == Effect(d, db, left, m.ran, other)
  {
    if ExpiresAtOnce(d, db, argv, m) {
      var key := argv[1];
      hide ExpiresAtOnce, Effect, Delete;
      DeletionDeletes(d, db, left, key, m.ran, other);
    } else {
      hide ExpiresAtOnce, Effect;
    }
  }

  lemma {:induction false} DeletionDeletes(d: Data, db: nat, left: Command, key: string, now: int, other: Other)
    requires left == ["DEL", key] || left == ["UNLINK", key]
    ensures Effect(d, db, left, now, other) == Delete(d, db, key)
  {
    Lowered("DEL", "del");
    Lowered("UNLINK", "unlink");
    hide Lower, RunSet, RunExpire, ParseOptions, Delete;
  }

  /** A client that replays commands: its dataset and its selected database. */
  datatype Replica = Replica(data: Data, db: nat)

  function ReplayOne(r: Replica, argv: Command, clock: int, other: Other): Replica
    requires |argv| > 0
  {
    if Lower(argv[0]) == "select" && |argv| == 2 && Strtol(argv[1]) >= 0 then r.(db := Strtol(argv[1]))
    else r.(data := Effect(r.data, r.db, argv, clock, other))
  }

  ghost function Replay(r: Replica, commands: seq<Command>, clock: int, other: Other): Replica
    requires NoneEmpty(commands)
    decreases |commands|
  {
    if commands == [] then r else Replay(ReplayOne(r, commands[0], clock, other), commands[1..], clock, other)
  }

  // ---------------------------------------------------------------- what the commands mean

  function ItemAt(d: Data, db: nat, key: string): Expiry
  {
    if key in Keys(d, db) then Keys(d, db)[key].expiry else Never
  }

  /** Nothing but one key of one database may differ. */
  ghost predicate SameElsewhere(d: Data, e: Data, db: nat, key: string) {
    forall b: nat, k: string :: (b, k) != (db, key) ==>
      (k in Keys(d, b) <==> k in Keys(e, b)) && (k in Keys(d, b) ==> Keys(e, b)[k] == Keys(d, b)[k])
  }

  lemma {:induction false} PutMeans(d: Data, db: nat, key: string, item: Item)
    ensures var e := Put(d, db, key, item);
            SameElsewhere(d, e, db, key) && key in Keys(e, db) && Keys(e, db)[key] == item
  {
  }

  lemma {:induction false} SetExpireMeans(d: Data, db: nat, key: string, when: int)
    ensures var e := SetExpire(d, db, key, when);
            && SameElsewhere(d, e, db, key) && (key in Keys(e, db) <==> key in Keys(d, db))
            && (key in Keys(d, db) ==> Keys(e, db)[key] == Item(Keys(d, db)[key].value, At(when)))
  {
    hide Put, Keys;
    if key in Keys(d, db) {
      PutMeans(d, db, key, Keys(d, db)[key].(expiry := At(when)));
    }
  }

  lemma {:induction false} ElsewhereSelf(d: Data, db: nat, key: string)
    ensures SameElsewhere(d, d, db, key)
  {
  }

  lemma {:induction false} ElsewhereTwice(a: Data, b: Data, c: Data, db: nat, key: string)
    requires SameElsewhere(a, b, db, key) && SameElsewhere(b, c, db, key)
    ensures SameElsewhere(a, c, db, key)
  {
    hide Keys;
  }

  /**
    SET: NX refuses a key that is there and XX one that is not; otherwise the key holds the value, with the expiry
    that EX or PX asks for, with the one it had under KEEPTTL, and with none else.
   */
  lemma {:induction false} SetMeans(d: Data, db: nat, key: string, value: string, o: SetOptions, now: int)
    requires o.Options?
    ensures var e := RunSet(d, db, key, value, o, now);
            var there := key in Keys(d, db);
            var wrong := o.ttl.Ttl? && !(Parse(o.ttl.arg).Number? && Parse(o.ttl.arg).n > 0);
            var ms := if !o.ttl.Ttl? || wrong then 0 else if o.ttl.unit == Seconds then Parse(o.ttl.arg).n * 1000 else Parse(o.ttl.arg).n;
            && SameElsewhere(d, e, db, key)
            && (wrong || (o.nx && there) || (o.xx && !there) ==> e == d)
            && (!wrong && !(o.nx && there) && !(o.xx && !there) ==>
                  && key in Keys(e, db)
                  && Keys(e, db)[key] ==
                       Item(value, if o.ttl.Ttl? then At(Wrap64(Wrap64(ms) + now)) else if o.keepTtl then ItemAt(d, db, key) else Never))
  {
    hide Parse, Keys, Put, SetExpire, SameElsewhere, Wrap64, Fits64;
    ElsewhereSelf(d, db, key);
    var kept := if o.keepTtl && key in Keys(d, db) then Keys(d, db)[key].expiry else Never;
    PutMeans(d, db, key, Item(value, kept));
    if o.ttl.Ttl? && Parse(o.ttl.arg).Number? {
      var e := Store(d, db, key, value, o.keepTtl);
      var when := Deadline(o.ttl.unit, Parse(o.ttl.arg).n, now);
      SetExpireMeans(e, db, key, when);
      ElsewhereTwice(d, e, SetExpire(e, db, key, when), db, key);
      ParseFits(o.ttl.arg);
      WrapFits(Parse(o.ttl.arg).n);
    }
  }

  lemma {:induction false} WrapFits(n: int)
    ensures Fits64(n) ==> Wrap64(n) == n
  {
  }

  /** EXPIRE and PEXPIRE count from now, EXPIREAT and PEXPIREAT do not; a key that is not there stays away. */
  lemma {:induction false} ExpireMeans(d: Data, db: nat, argv: Command, now: int)
    requires IsExpire(argv) && Parse(argv[2]).Number?
    ensures var e, name := RunExpire(d, db, argv, now), Lower(argv[0]);
            var n := if name == "expire" || name == "expireat" then Parse(argv[2]).n * 1000 else Parse(argv[2]).n;
            && SameElsewhere(d, e, db, argv[1])
            && (argv[1] in Keys(e, db) <==> argv[1] in Keys(d, db))
            && (argv[1] in Keys(d, db) ==>
                  Keys(e, db)[argv[1]] ==
                  Item(Keys(d, db)[argv[1]].value, At(Wrap64(Wrap64(n) + if name == "expire" || name == "pexpire" then now else 0))))
  {
    hide Parse, Lower, Keys, SetExpire, SameElsewhere, Wrap64, Fits64;
    ParseFits(argv[2]);
    SetExpireMeans(d, db, argv[1], ExpiryOf(argv, now));
    WrapFits(Parse(argv[2]).n);
  }

  lemma {:induction false} ParseFits(s: string)
    ensures Parse(s).Number? ==> Fits64(Parse(s).n)
  {
  }

  /** A deletion takes one key away. */
  lemma {:induction false} DeleteMeans(d: Data, db: nat, key: string)
    ensures SameElsewhere(d, Delete(d, db, key), db, key) && key !in Keys(Delete(d, db, key), db)
  {
  }

  // ---------------------------------------------------------------- translation

  /** The absolute time in milliseconds that an argument of a command means at a time. */
  function When(name: string, arg: string, now: int): int {
    var n := Strtol(arg);
    var ms := if name == "expire" || name == "setex" || name == "expireat" then Wrap64(n * 1000) else n;
    if name == "expire" || name == "pexpire" || name == "setex" || name == "psetex" then Wrap64(ms + now) else ms
  }

  function PExpireAt(key: string, when: int): Command {
    ["PEXPIREAT", key, Decimal(when)]
  }

  /** The arguments that follow the last EX and the last PX among the arguments from i on. */
  function Scan(argv: Command, i: nat, ex: Ttl, px: Ttl): (Ttl, Ttl)
    decreases |argv| - i
  {
    if i >= |argv| then (ex, px)
    else
      var next := if i + 1 < |argv| then argv[i + 1] else "";
      Scan(argv, i + 1, if Lower(argv[i]) == "ex" then Ttl(Seconds, next) else ex,
                        if Lower(argv[i]) == "px" then Ttl(Milliseconds, next) else px)
  }

  /** The commands that go into the file for one that was executed. */
  function Translate(argv: Command, now: int): (cs: seq<Command>)
    requires |argv| > 0
    ensures NoneEmpty(cs)
  {
    var name := Lower(argv[0]);
    if (name == "expire" || name == "pexpire" || name == "expireat") && |argv| == 3 then
      [PExpireAt(argv[1], When(name, argv[2], now))]
    else if (name == "setex" || name == "psetex") && |argv| == 4 then
      [["SET", argv[1], argv[3]], PExpireAt(argv[1], When(name, argv[2], now))]
    else if name == "set" && |argv| > 3 then
      var (ex, px) := Scan(argv, 3, NoTtl, NoTtl);
      if ex.Ttl? then [argv[..3], PExpireAt(argv[1], When("expire", ex.arg, now))]
      else if px.Ttl? then [argv[..3], PExpireAt(argv[1], When("pexpire", px.arg, now))]
      else [argv]
    else [argv]
  }

  function Select(db: nat): Command {
    ["SELECT", Digits(db)]
  }

  /** What is logged for a command: a SELECT unless the log already has its database selected. */
  function Logged(argv: Command, db: nat, selected: int, now: int): (cs: seq<Command>)
    requires |argv| > 0
    ensures NoneEmpty(cs)
  {
    (if db != selected then [Select(db)] else []) + Translate(argv, now)
  }

  // ---------------------------------------------------------------- the two readings of SET's options

  ghost predicate Represents(ttl: Ttl, ex: Ttl, px: Ttl) {
    match ttl
    case NoTtl => ex.NoTtl? && px.NoTtl?
    case Ttl(Seconds, _) => ex == ttl && px.NoTtl?
    case Ttl(Milliseconds, _) => px == ttl && ex.NoTtl?
  }

  /** The argument of an EX is spelled PX, or the argument of a PX is spelled EX. */
  predicate Clash(argv: Command, j: nat)
    decreases |argv| - j
  {
    if j >= |argv| then false
    else
      var a := Lower(argv[j]);
      if (a == "ex" || a == "px") && j + 1 < |argv| then
        (var b := Lower(argv[j + 1]); (b == "ex" || b == "px") && b != a) || Clash(argv, j + 2)
      else Clash(argv, j + 1)
  }

  lemma {:induction false} NumbersAreNotOptions(s: string)
    requires Parse(s).Number?
    ensures Lower(s) != "ex" && Lower(s) != "px"
  {
    var n := Strtol(s);
    if n < 0 {
      assert Decimal(n)[0] == '-';
    } else {
      SomeDigits(n);
      DigitsAreDigits(n, 0);
      assert Decimal(n)[0] == Digits(n)[0];
    }
    assert s[0] == '-' || IsDigit(s[0]);
    assert Lower(s)[0] == s[0];
  }

  /** Whatever one of the two arguments already holds stays set. */
  lemma {:induction false} ScanKeeps(argv: Command, i: nat, ex: Ttl, px: Ttl)
    ensures ex.Ttl? ==> Scan(argv, i, ex, px).0.Ttl?
    ensures px.Ttl? ==> Scan(argv, i, ex, px).1.Ttl?
    decreases |argv| - i
  {
    hide Lower;
    if i < |argv| {
      var next := if i + 1 < |argv| then argv[i + 1] else "";
      ScanKeeps(argv, i + 1, if Lower(argv[i]) == "ex" then Ttl(Seconds, next) else ex,
                if Lower(argv[i]) == "px" then Ttl(Milliseconds, next) else px);
    }
  }

  ghost predicate Both(r: (Ttl, Ttl)) {
    r.0.Ttl? && r.1.Ttl?
  }

  /**
    What the scan holds after the options that the parser has read: the same unit, and the same argument if it is a
    number.
   */
  ghost predicate Follows(t: Ttl, ex: Ttl, px: Ttl) {
    match t
    case NoTtl => ex.NoTtl? && px.NoTtl?
    case Ttl(Seconds, arg) => ex.Ttl? && px.NoTtl? && (Parse(arg).Number? ==> ex == t)
    case Ttl(Milliseconds, arg) => px.Ttl? && ex.NoTtl? && (Parse(arg).Number? ==> px == t)
  }

  function ScanEx(argv: Command, i: nat, ex: Ttl): Ttl
    requires i < |argv|
  {
    if Lower(argv[i]) == "ex" then Ttl(Seconds, if i + 1 < |argv| then argv[i + 1] else "") else ex
  }

  function ScanPx(argv: Command, i: nat, px: Ttl): Ttl
    requires i < |argv|
  {
    if Lower(argv[i]) == "px" then Ttl(Milliseconds, if i + 1 < |argv| then argv[i + 1] else "") else px
  }

  lemma {:induction false} ScanStep(argv: Command, i: nat, ex: Ttl, px: Ttl)
    requires i < |argv|
    ensures Scan(argv, i, ex, px) == Scan(argv, i + 1, ScanEx(argv, i, ex), ScanPx(argv, i, px))
  {
  }

  /** An EX or PX option with its argument, in the parser and in the scan. */
  lemma {:induction false} ScanTtl(argv: Command, j: nat, u: Unit, ex: Ttl, px: Ttl)
    requires j + 1 < |argv|
    requires Lower(argv[j]) == (if u == Seconds then "ex" else "px")
    requires if u == Seconds then px.NoTtl? else ex.NoTtl?
    ensures var ex1, px1 := ScanEx(argv, j, ex), ScanPx(argv, j, px);
            var ex2, px2 := ScanEx(argv, j + 1, ex1), ScanPx(argv, j + 1, px1);
            && Scan(argv, j, ex, px) == Scan(argv, j + 2, ex2, px2)
            && (Clash(argv, j) <==> (ex2.Ttl? && px2.Ttl?) || Clash(argv, j + 2))
            && (!(ex2.Ttl? && px2.Ttl?) ==> Follows(Ttl(u, argv[j + 1]), ex2, px2))
  {
    ScanStep(argv, j, ex, px);
    ScanStep(argv, j + 1, ScanEx(argv, j, ex), ScanPx(argv, j, px));
    if Parse(argv[j + 1]).Number? {
      NumbersAreNotOptions(argv[j + 1]);
    }
    hide Lower, Parse, Scan;
    assert "ex" != "px";
  }

  /**
    The log writer looks for EX and PX at every position; the parser skips over the
    arguments of the options. On a command that the parser accepts, the writer finds the
    same time to live, and its assertion that EX and PX do not both occur holds, exactly
    when no argument of EX is spelled PX and no argument of PX is spelled EX.
   */
  lemma {:induction false} ScanFollowsParser(argv: Command, j: nat, o: SetOptions, ex: Ttl, px: Ttl)
    requires o.Options? && Follows(o.ttl, ex, px)
    requires ParseOptions(argv, j, o).Options? && TtlOk(ParseOptions(argv, j, o).ttl)
    ensures var r := Scan(argv, j, ex, px);
            && (Both(r) <==> Clash(argv, j))
            && (Represents(ParseOptions(argv, j, o).ttl, r.0, r.1) <==> !Clash(argv, j))
    decreases |argv| - j
  {
    hide Lower, Parse;
    if j < |argv| {
      var a := Lower(argv[j]);
      if (a == "ex" || a == "px") && j + 1 < |argv| {
        var u := if a == "ex" then Seconds else Milliseconds;
        ScanTtl(argv, j, u, ex, px);
        var ex2 := ScanEx(argv, j + 1, ScanEx(argv, j, ex));
        var px2 := ScanPx(argv, j + 1, ScanPx(argv, j, px));
        if ex2.Ttl? && px2.Ttl? {
          ScanKeeps(argv, j + 2, ex2, px2);
        } else {
          ScanFollowsParser(argv, j + 2, o.(ttl := Ttl(u, argv[j + 1])), ex2, px2);
        }
      } else {
        ScanStep(argv, j, ex, px);
        var p := if a == "nx" then o.(nx := true) else if a == "xx" then o.(xx := true) else o.(keepTtl := true);
        ScanFollowsParser(argv, j + 1, p, ex, px);
      }
    }
  }

  const CLASHING: Command := ["SET", "k", "v", "EX", "px", "EX", "10"]

  /** The two readings do differ: this command is accepted, and the writer's assertion fails on it. */
  lemma {:induction false} AClashingCommand()
    ensures var o := ParseOptions(CLASHING, 3, NO_OPTIONS);
            o.Options? && o.ttl == Ttl(Seconds, "10") && TtlOk(o.ttl) && Clash(CLASHING, 3)
  {
    var argv := CLASHING;
    assert Lower("EX") == "ex" by {
      assert "EX"[1..] == "X" && "X"[1..] == "";
      assert Lower("X") == "x";
    }
    assert Lower("px") == "px" by {
      assert "px"[1..] == "x" && "x"[1..] == "";
      assert Lower("x") == "x";
    }
    TenIsANumber();
    hide Lower, Parse;
    var o := NO_OPTIONS.(ttl := Ttl(Seconds, "px"));
    assert ParseOptions(argv, 3, NO_OPTIONS) == ParseOptions(argv, 5, o);
    var p := o.(ttl := Ttl(Seconds, "10"));
    assert ParseOptions(argv, 5, o) == ParseOptions(argv, 7, p) == p;
  }

  // ---------------------------------------------------------------- translating one command

  /** The command is one that was accepted on the dataset. */
  ghost predicate Took(d: Data, db: nat, argv: Command) {
    && |argv| > 0
    && var name := Lower(argv[0]);
       && name != "select"
       && ((name == "expire" || name == "pexpire" || name == "expireat") && |argv| == 3 ==>
             Parse(argv[2]).Number?)
       && ((name == "setex" || name == "psetex") && |argv| == 4 ==>
             TtlOk(Ttl(Seconds, argv[2])))
       && (name == "set" && |argv| > 3 ==>
             var o := ParseOptions(argv, 3, NO_OPTIONS);
             o.Options? && TtlOk(o.ttl) && Allowed(d, db, argv[1], o) && !Clash(argv, 3))
  }

  lemma {:induction false} ParseDecimal(n: int)
    requires Fits64(n)
    ensures Parse(Decimal(n)) == Number(n)
  {
    StrtolDecimal(n, "");
    assert Decimal(n) + "" == Decimal(n);
  }

  lemma {:induction false} LogNames()
    ensures Lower("PEXPIREAT") == "pexpireat" && Lower("SET") == "set" && Lower("SELECT") == "select"
  {
    hide Lower;
    Lowered("PEXPIREAT", "pexpireat");
    Lowered("SET", "set");
    Lowered("SELECT", "select");
  }

  lemma {:induction false} ReplayPExpireAt(r: Replica, key: string, when: int, clock: int, other: Other)
    requires Fits64(when)
    ensures ReplayOne(r, PExpireAt(key, when), clock, other) == r.(data := SetExpire(r.data, r.db, key, when))
  {
    LogNames();
    ParseDecimal(when);
    hide Lower, Parse;
  }

  lemma {:induction false} ReplayPlainSet(r: Replica, name: string, key: string, value: string, clock: int,
      other: Other)
    requires Lower(name) == "set"
    ensures ReplayOne(r, [name, key, value], clock, other) == r.(data := Store(r.data, r.db, key, value, false))
  {
    hide Lower, Parse;
    assert ParseOptions([name, key, value], 3, NO_OPTIONS) == NO_OPTIONS;
  }

  lemma {:induction false} ReplayTwo(r: Replica, a: Command, b: Command, clock: int, other: Other)
    requires |a| > 0 && |b| > 0
    ensures Replay(r, [a, b], clock, other) == ReplayOne(ReplayOne(r, a, clock, other), b, clock, other)
    ensures Replay(r, [a], clock, other) == ReplayOne(r, a, clock, other)
  {
    hide ReplayOne;
    assert [a, b][1..] == [b] && [b][1..] == [] && [a][1..] == [];
    var q := ReplayOne(r, a, clock, other);
    assert Replay(q, [b], clock, other) == ReplayOne(q, b, clock, other);
  }

  lemma {:induction false} ReplaySetAndExpire(r: Replica, name: string, key: string, value: string, when: int,
      clock: int, other: Other)
    requires Lower(name) == "set" && Fits64(when)
    ensures Replay(r, [[name, key, value], PExpireAt(key, when)], clock, other)
         == r.(data := SetExpire(Store(r.data, r.db, key, value, false), r.db, key, when))
  {
    hide Lower, Replay, ReplayOne;
    ReplayTwo(r, [name, key, value], PExpireAt(key, when), clock, other);
    ReplayPlainSet(r, name, key, value, clock, other);
    ReplayPExpireAt(r.(data := Store(r.data, r.db, key, value, false)), key, when, clock, other);
  }

  /** What is logged for a SET with a time to live. */
  lemma {:induction false} SetIsLogged(argv: Command, now: int)
    requires |argv| > 3 && Lower(argv[0]) == "set" && !Clash(argv, 3)
    requires var o := ParseOptions(argv, 3, NO_OPTIONS); o.Options? && o.ttl.Ttl? && TtlOk(o.ttl)
    ensures var o := ParseOptions(argv, 3, NO_OPTIONS);
            var when := Deadline(o.ttl.unit, Parse(o.ttl.arg).n, now);
            Translate(argv, now) == [[argv[0], argv[1], argv[2]], PExpireAt(argv[1], when)]
  {
    hide Lower, Parse, Clash;
    var o := ParseOptions(argv, 3, NO_OPTIONS);
    ScanFollowsParser(argv, 3, NO_OPTIONS, NoTtl, NoTtl);
    ParseIsStrtol(o.ttl.arg);
    hide Scan, ParseOptions, Wrap64;
    assert argv[..3] == [argv[0], argv[1], argv[2]];
  }

  lemma {:induction false} SetWithoutTtl(argv: Command, now: int)
    requires |argv| > 3 && Lower(argv[0]) == "set" && !Clash(argv, 3)
    requires var o := ParseOptions(argv, 3, NO_OPTIONS); o.Options? && o.ttl.NoTtl?
    ensures Translate(argv, now) == [argv]
  {
    hide Lower, Parse, Clash;
    ScanFollowsParser(argv, 3, NO_OPTIONS, NoTtl, NoTtl);
    hide Scan, ParseOptions, When;
  }

  /** What a SET with a time to live does. */
  lemma {:induction false} SetEffect(d: Data, db: nat, argv: Command, now: int, other: Other)
    requires Took(d, db, argv) && Lower(argv[0]) == "set" && |argv| > 3 && ParseOptions(argv, 3, NO_OPTIONS).ttl.Ttl?
    ensures var ttl := ParseOptions(argv, 3, NO_OPTIONS).ttl;
            var when := Deadline(ttl.unit, Parse(ttl.arg).n, now);
            Effect(d, db, argv, now, other) == SetExpire(Store(d, db, argv[1], argv[2], false), db, argv[1], when)
  {
    hide Lower, Parse, Clash;
    NoKeep(argv, 3, NO_OPTIONS);
    hide ParseOptions, Deadline, Store, SetExpire;
  }

  /** SET with a time to live is a plain SET and a PEXPIREAT. */
  lemma {:induction false} TranslateSet(d: Data, db: nat, argv: Command, now: int, clock: int, other: Other)
    requires Took(d, db, argv) && Lower(argv[0]) == "set" && |argv| > 3
    ensures Replay(Replica(d, db), Translate(argv, now), clock, other)
         == Replica(Effect(d, db, argv, now, other), db)
  {
    var o := ParseOptions(argv, 3, NO_OPTIONS);
    assert o.Options? && TtlOk(o.ttl) && !Clash(argv, 3);
    if o.ttl.NoTtl? {
      hide Took, Lower, Parse, ParseOptions, Translate, Effect, Clash, Replay;
      SetWithoutTtl(argv, now);
      ReplayTwo(Replica(d, db), argv, argv, clock, other);
      ReplaySetOne(Replica(d, db), argv, clock, now, other);
    } else {
      hide Lower, Parse, ParseOptions, Translate, Effect, Clash, Replay, Took, Wrap64;
      SetIsLogged(argv, now);
      SetEffect(d, db, argv, now, other);
      ReplaySetAndExpire(Replica(d, db), argv[0], argv[1], argv[2], Deadline(o.ttl.unit, Parse(o.ttl.arg).n, now),
                         clock, other);
    }
  }

  /** A SET without a time to live does the same at any time. */
  lemma {:induction false} ReplaySetOne(r: Replica, argv: Command, clock: int, now: int, other: Other)
    requires |argv| > 3 && Lower(argv[0]) == "set"
    requires var o := ParseOptions(argv, 3, NO_OPTIONS); o.Options? && o.ttl.NoTtl?
    ensures ReplayOne(r, argv, clock, other) == r.(data := Effect(r.data, r.db, argv, now, other))
  {
    hide Lower, Parse, ParseOptions;
  }

  lemma {:induction false} ParseIsStrtol(arg: string)
    requires Parse(arg).Number?
    ensures Strtol(arg) == Parse(arg).n
  {
  }

  /** KEEPTTL excludes EX and PX. */
  lemma {:induction false} NoKeep(argv: Command, j: nat, o: SetOptions)
    requires o.Options? && !(o.keepTtl && o.ttl.Ttl?)
    ensures var p := ParseOptions(argv, j, o);
            p.Options? ==> !(p.keepTtl && p.ttl.Ttl?)
    decreases |argv| - j
  {
    hide Lower;
    if j < |argv| {
      var a := Lower(argv[j]);
      if a == "nx" {
        NoKeep(argv, j + 1, o.(nx := true));
      } else if a == "xx" {
        NoKeep(argv, j + 1, o.(xx := true));
      } else if a == "keepttl" && o.ttl.NoTtl? {
        NoKeep(argv, j + 1, o.(keepTtl := true));
      } else if a == "ex" && !o.keepTtl && j + 1 < |argv| {
        NoKeep(argv, j + 2, o.(ttl := Ttl(Seconds, argv[j + 1])));
      } else if a == "px" && !o.keepTtl && j + 1 < |argv| {
        NoKeep(argv, j + 2, o.(ttl := Ttl(Milliseconds, argv[j + 1])));
      }
    }
  }

  ghost predicate IsSetEx(argv: Command) {
    |argv| == 4 && (Lower(argv[0]) == "setex" || Lower(argv[0]) == "psetex")
  }

  lemma {:induction false} SetExIsLogged(argv: Command, now: int)
    requires IsSetEx(argv)
    ensures Translate(argv, now) == [["SET", argv[1], argv[3]], PExpireAt(argv[1], When(Lower(argv[0]), argv[2], now))]
  {
    hide Lower, When;
  }

  lemma {:induction false} SetExEffect(d: Data, db: nat, argv: Command, now: int, other: Other)
    requires IsSetEx(argv) && TtlOk(Ttl(Seconds, argv[2]))
    ensures Effect(d, db, argv, now, other)
         == SetExpire(Store(d, db, argv[1], argv[3], false), db, argv[1], When(Lower(argv[0]), argv[2], now))
  {
    hide Lower, Parse, Store, SetExpire;
    ParseIsStrtol(argv[2]);
  }

  lemma {:induction false} TranslateSetEx(d: Data, db: nat, argv: Command, now: int, clock: int, other: Other)
    requires Took(d, db, argv) && IsSetEx(argv)
    ensures Replay(Replica(d, db), Translate(argv, now), clock, other)
         == Replica(Effect(d, db, argv, now, other), db)
  {
    LogNames();
    assert TtlOk(Ttl(Seconds, argv[2]));
    SetExIsLogged(argv, now);
    SetExEffect(d, db, argv, now, other);
    var when := When(Lower(argv[0]), argv[2], now);
    assert Fits64(when);
    hide Lower, Parse, Took, Replay, Translate, Effect, When, Wrap64;
    ReplaySetAndExpire(Replica(d, db), "SET", argv[1], argv[3], when, clock, other);
  }

  lemma {:induction false} TranslateExpire(d: Data, db: nat, argv: Command, now: int, clock: int, other: Other)
    requires Took(d, db, argv)
    requires (Lower(argv[0]) == "expire" || Lower(argv[0]) == "pexpire" || Lower(argv[0]) == "expireat")
    requires |argv| == 3
    ensures Replay(Replica(d, db), Translate(argv, now), clock, other)
         == Replica(Effect(d, db, argv, now, other), db)
  {
    hide Lower, Parse;
    ParseIsStrtol(argv[2]);
    var name := Lower(argv[0]);
    var when := When(name, argv[2], now);
    assert Fits64(when) && when == ExpiryOf(argv, now);
    ReplayTwo(Replica(d, db), PExpireAt(argv[1], when), argv, clock, other);
    hide Wrap64;
    ReplayPExpireAt(Replica(d, db), argv[1], when, clock, other);
  }

  /**
    Replaying the translation of a command, at any later time, does what the command does at the time of the
    translation.
   */
  lemma {:induction false} TranslateOne(d: Data, db: nat, argv: Command, now: int, clock: int, other: Other)
    requires Took(d, db, argv)
    ensures Replay(Replica(d, db), Translate(argv, now), clock, other)
         == Replica(Effect(d, db, argv, now, other), db)
  {
    hide Lower, Parse;
    var name := Lower(argv[0]);
    if (name == "expire" || name == "pexpire" || name == "expireat") && |argv| == 3 {
      hide Took, Effect, Replay, Translate;
      TranslateExpire(d, db, argv, now, clock, other);
    } else if (name == "setex" || name == "psetex") && |argv| == 4 {
      TranslateSetEx(d, db, argv, now, clock, other);
    } else if name == "set" && |argv| > 3 {
      TranslateSet(d, db, argv, now, clock, other);
    } else {
      ReplayTwo(Replica(d, db), argv, argv, clock, other);
    }
  }

  // ---------------------------------------------------------------- a whole log

  /**
    A command that ran at some moment in a database, what it left and when that was logged; or the start or end of
    a rewrite.
   */
  datatype Event = Ran(db: nat, argv: Command, at: Moment, left: Command, fed: int) | Rewrite

  ghost predicate HasArgs(events: seq<Event>) {
    forall i :: 0 <= i < |events| && events[i].Ran? ==> |events[i].argv| > 0 && |events[i].left| > 0
  }

  /** What is logged for a sequence of events; a rewrite forgets the selected database. */
  ghost function LogOf(events: seq<Event>, selected: int): (cs: seq<Command>)
    requires HasArgs(events)
    ensures NoneEmpty(cs)
    decreases |events|
  {
    if events == [] then []
    else
      match events[0]
      case Rewrite => LogOf(events[1..], -1)
      case Ran(db, _, _, left, fed) => Logged(left, db, selected, fed) + LogOf(events[1..], db)
  }

  /** The dataset after the events, each command run by its client. */
  ghost function Live(d: Data, events: seq<Event>, other: Other): Data
    requires HasArgs(events)
    decreases |events|
  {
    if events == [] then d
    else
      match events[0]
      case Rewrite => Live(d, events[1..], other)
      case Ran(db, argv, at, _, _) => Live(Run(d, db, argv, at, other), events[1..], other)
  }

  /** The dataset when each command, as it was left, runs at the time it was logged. */
  ghost function AsLogged(d: Data, events: seq<Event>, other: Other): Data
    requires HasArgs(events)
    decreases |events|
  {
    if events == [] then d
    else
      match events[0]
      case Rewrite => AsLogged(d, events[1..], other)
      case Ran(db, _, _, left, fed) => AsLogged(Effect(d, db, left, fed, other), events[1..], other)
  }

  /** Every logged command is one that is accepted on the dataset it meets. */
  ghost predicate AllTook(d: Data, events: seq<Event>, other: Other)
    decreases |events|
  {
    events == [] ||
    match events[0]
    case Rewrite => AllTook(d, events[1..], other)
    case Ran(db, _, _, left, fed) => Took(d, db, left) && AllTook(Effect(d, db, left, fed, other), events[1..], other)
  }

  /** Every command ran on the dataset it met, was accepted, and was logged at the time it ran. */
  ghost predicate AllRan(d: Data, events: seq<Event>, other: Other)
    decreases |events|
  {
    events == [] ||
    match events[0]
    case Rewrite => AllRan(d, events[1..], other)
    case Ran(db, argv, at, left, fed) =>
      && |argv| > 0 && Leaves(d, db, argv, at, left) && Took(d, db, left) && at.ran == fed
      && AllRan(Run(d, db, argv, at, other), events[1..], other)
  }

  /** The database that the log has selected after the events. */
  function SelectedAfter(events: seq<Event>, selected: int): int {
    if events == [] then selected
    else
      var last := events[|events| - 1];
      if last.Ran? then last.db else -1
  }

  /** Logging one more command appends what Logged gives for the selected database. */
  lemma {:induction false} LogOfSnoc(events: seq<Event>, e: Event, selected: int)
    requires HasArgs(events) && HasArgs([e])
    ensures HasArgs(events + [e])
    ensures LogOf(events + [e], selected) == LogOf(events, selected) + LogOf([e], SelectedAfter(events, selected))
    decreases |events|
  {
    hide Logged;
    if events == [] {
      assert events + [e] == [e];
      assert [] + LogOf([e], selected) == LogOf([e], selected);
    } else {
      assert (events + [e])[1..] == events[1..] + [e];
      var next := if events[0].Ran? then events[0].db else -1;
      LogOfSnoc(events[1..], e, next);
      assert SelectedAfter(events, selected) == SelectedAfter(events[1..], next);
      if events[0].Ran? {
        var head := Logged(events[0].left, events[0].db, selected, events[0].fed);
        assert head + (LogOf(events[1..], next) + LogOf([e], SelectedAfter(events[1..], next)))
            == (head + LogOf(events[1..], next)) + LogOf([e], SelectedAfter(events[1..], next));
      }
    }
  }

  lemma {:induction false} LogOfOne(e: Event, selected: int)
    requires HasArgs([e])
    ensures LogOf([e], selected) == if e.Ran? then Logged([e][0].left, e.db, selected, e.fed) else []
  {
    hide Logged;
    assert [e][1..] == [];
    assert [e][0] == e;
    if e.Ran? {
      assert Logged(e.left, e.db, selected, e.fed) + [] == Logged(e.left, e.db, selected, e.fed);
    }
  }

  lemma {:induction false} RanHasArgs(d: Data, events: seq<Event>, other: Other)
    requires AllRan(d, events, other)
    ensures HasArgs(events)
    decreases |events|
  {
    hide Run, Took;
    if events != [] {
      if events[0].Rewrite? {
        RanHasArgs(d, events[1..], other);
      } else {
        RanHasArgs(Run(d, events[0].db, events[0].argv, events[0].at, other), events[1..], other);
      }
      assert forall i :: 1 <= i < |events| ==> events[i] == events[1..][i - 1];
    }
  }

  lemma {:induction false} ReplayConcat(r: Replica, a: seq<Command>, b: seq<Command>, clock: int, other: Other)
    requires NoneEmpty(a) && NoneEmpty(b)
    ensures NoneEmpty(a + b) && Replay(r, a + b, clock, other) == Replay(Replay(r, a, clock, other), b, clock, other)
    decreases |a|
  {
    hide ReplayOne;
    if a == [] {
      assert a + b == b;
    } else {
      assert (a + b)[1..] == a[1..] + b;
      ReplayConcat(ReplayOne(r, a[0], clock, other), a[1..], b, clock, other);
    }
  }

  lemma {:induction false} ReplaySelect(r: Replica, db: nat, clock: int, other: Other)
    requires db <= LONG_MAX
    ensures Replay(r, [Select(db)], clock, other) == r.(db := db)
  {
    LogNames();
    StrtolDecimal(db, "");
    assert Decimal(db) + "" == Digits(db);
    hide Lower, Strtol, Digits;
    ReplayTwo(r, Select(db), Select(db), clock, other);
  }

  /** One logged command, replayed from any database the log may have selected. */
  lemma {:induction false} ReplayLogged(r: Replica, argv: Command, db: nat, selected: int, now: int, clock: int,
      other: Other)
    requires Took(r.data, db, argv) && db <= LONG_MAX && (selected == -1 || selected == r.db)
    ensures Replay(r, Logged(argv, db, selected, now), clock, other) == Replica(Effect(r.data, db, argv, now, other), db)
  {
    assert |argv| > 0;
    hide Effect, Took, Translate, Replay, Select;
    TranslateOne(r.data, db, argv, now, clock, other);
    if db != selected {
      ReplaySelect(r, db, clock, other);
      ReplayConcat(r, [Select(db)], Translate(argv, now), clock, other);
    } else {
      assert [] + Translate(argv, now) == Translate(argv, now);
    }
  }

  ghost predicate DbsFit(events: seq<Event>) {
    forall i :: 0 <= i < |events| && events[i].Ran? ==> events[i].db <= LONG_MAX
  }

  /**
    Replaying a log, at any time and from any database when the log starts after a rewrite
    began or ended, gives the dataset that the commands give when each runs at the time it
    was logged.
   */
  lemma {:induction false} ReplayIsLiveAtFeed(r: Replica, events: seq<Event>, selected: int, clock: int, other: Other)
    requires AllTook(r.data, events, other) && DbsFit(events) && (selected == -1 || selected == r.db)
    requires HasArgs(events)
    ensures Replay(r, LogOf(events, selected), clock, other).data == AsLogged(r.data, events, other)
    decreases |events|
  {
    hide Effect, Took, Logged, ReplayOne;
    if events != [] {
      match events[0] {
        case Rewrite =>
          ReplayIsLiveAtFeed(r, events[1..], -1, clock, other);
        case Ran(db, _, _, left, fed) =>
          ReplayLogged(r, left, db, selected, fed, clock, other);
          var q := Replica(Effect(r.data, db, left, fed, other), db);
          ReplayIsLiveAtFeed(q, events[1..], db, clock, other);
          ReplayConcat(r, Logged(left, db, selected, fed), LogOf(events[1..], db), clock, other);
      }
    }
  }

  /** When no command is logged later than it ran, replaying the log restores every value and every absolute expiry. */
  lemma {:induction false} ReplayIsLive(r: Replica, events: seq<Event>, selected: int, clock: int, other: Other)
    requires AllRan(r.data, events, other) && DbsFit(events) && (selected == -1 || selected == r.db)
    requires HasArgs(events)
    ensures Replay(r, LogOf(events, selected), clock, other).data == Live(r.data, events, other)
  {
    hide AllTook, AllRan, Live, AsLogged, LogOf, Replay;
    SameTimes(r.data, events, other);
    ReplayIsLiveAtFeed(r, events, selected, clock, other);
  }

  lemma {:induction false} SameTimes(d: Data, events: seq<Event>, other: Other)
    requires AllRan(d, events, other) && HasArgs(events)
    ensures AllTook(d, events, other) && AsLogged(d, events, other) == Live(d, events, other)
    decreases |events|
  {
    hide Effect, Run, Took, Leaves;
    if events != [] {
      match events[0] {
        case Rewrite => SameTimes(d, events[1..], other);
        case Ran(db, argv, at, left, fed) =>
          RunIsEffect(d, db, argv, at, left, other);
          SameTimes(Effect(d, db, left, fed, other), events[1..], other);
      }
    }
  }

  // ---------------------------------------------------------------- the clock between running and logging

  /** The command sets an expiry that counts from the time it runs. */
  ghost predicate Relative(d: Data, db: nat, argv: Command) {
    && Took(d, db, argv)
    && var name := Lower(argv[0]);
       || ((name == "expire" || name == "pexpire") && |argv| == 3 && argv[1] in Keys(d, db))
       || ((name == "setex" || name == "psetex") && |argv| == 4)
       || (name == "set" && |argv| > 3 && ParseOptions(argv, 3, NO_OPTIONS).ttl.Ttl?)
  }

  const TWO64: int := 0x1_0000_0000_0000_0000

  /** How often an integer wraps around. */
  function Turns(n: int): int {
    (n - LONG_MIN) / TWO64
  }

  lemma {:induction false} WrapIs(n: int)
    ensures n == Wrap64(n) + TWO64 * Turns(n)
  {
  }

  lemma {:induction false} WrapUnique(n: int, r: int, k: int)
    requires Fits64(r) && n == r + TWO64 * k
    ensures Wrap64(n) == r
  {
    WrapIs(n);
    hide Wrap64, Turns;
  }

  lemma {:induction false} WrapAdds(a: int, b: int)
    ensures Wrap64(Wrap64(a) + b) == Wrap64(a + b)
  {
    WrapIs(a);
    WrapIs(Wrap64(a) + b);
    hide Wrap64, Turns;
    WrapUnique(a + b, Wrap64(Wrap64(a) + b), Turns(a) + Turns(Wrap64(a) + b));
  }

  lemma {:induction false} MultipleOf(n: int, k: int)
    requires n == TWO64 * k
    ensures n % TWO64 == 0
  {
  }

  lemma {:induction false} WrapsAlike(a: int, b: int)
    ensures Wrap64(a) == Wrap64(b) <==> (a - b) % TWO64 == 0
  {
    WrapIs(a);
    WrapIs(b);
    hide Wrap64, Turns;
    if Wrap64(a) == Wrap64(b) {
      MultipleOf(a - b, Turns(a) - Turns(b));
    } else if (a - b) % TWO64 == 0 {
      WrapUnique(a, Wrap64(b), (a - b) / TWO64 + Turns(b));
    }
  }

  /** Deadlines from two times differ as the times do. */
  lemma {:induction false} DeadlinesDiffer(u: Unit, n: int, ran: int, fed: int)
    ensures Deadline(u, n, fed) == Wrap64(Deadline(u, n, ran) + (fed - ran))
    ensures Deadline(u, n, fed) == Deadline(u, n, ran) <==> (fed - ran) % TWO64 == 0
  {
    hide Wrap64, Scale;
    WrapAdds(Scale(u, n) + ran, fed - ran);
    WrapsAlike(Scale(u, n) + fed, Scale(u, n) + ran);
    assert Scale(u, n) + fed - (Scale(u, n) + ran) == fed - ran;
    assert Scale(u, n) + ran + (fed - ran) == Scale(u, n) + fed;
  }

  /** The time to live that a relative command sets. */
  ghost function TtlOf(argv: Command): (t: (Unit, int))
    requires |argv| >= 3
  {
    var name := Lower(argv[0]);
    var ttl := if name == "expire" || name == "setex" then Ttl(Seconds, argv[2])
               else if name == "set" && ParseOptions(argv, 3, NO_OPTIONS).Options? then ParseOptions(argv, 3, NO_OPTIONS).ttl
               else Ttl(Milliseconds, argv[2]);
    if ttl.Ttl? && Parse(ttl.arg).Number? then (ttl.unit, Parse(ttl.arg).n) else (Milliseconds, 0)
  }

  /** The dataset without the expiry that a relative command sets. */
  ghost function Unexpiring(d: Data, db: nat, argv: Command): Data
    requires |argv| >= 3
  {
    var name := Lower(argv[0]);
    if name == "set" then Store(d, db, argv[1], argv[2], false)
    else if (name == "setex" || name == "psetex") && |argv| == 4 then Store(d, db, argv[1], argv[3], false)
    else d
  }

  lemma {:induction false} RelativeExpiry(d: Data, db: nat, argv: Command, now: int, other: Other)
    requires Relative(d, db, argv)
    ensures |argv| >= 3 && argv[1] in Keys(Unexpiring(d, db, argv), db)
    ensures var when := Deadline(TtlOf(argv).0, TtlOf(argv).1, now);
            Effect(d, db, argv, now, other) == SetExpire(Unexpiring(d, db, argv), db, argv[1], when)
  {
    hide Lower, Parse, ParseOptions, Deadline;
    if Lower(argv[0]) == "set" && |argv| > 3 {
      NoKeep(argv, 3, NO_OPTIONS);
    }
  }

  /**
    A relative command logged later than it ran leaves, after a replay, an expiry later by exactly that delay,
    and nothing else different.
   */
  lemma {:induction false} Drift(d: Data, db: nat, argv: Command, ran: int, fed: int, other: Other)
    requires Relative(d, db, argv)
    ensures argv[1..] != [] && argv[1] in Keys(Effect(d, db, argv, fed, other), db)
    ensures argv[1] in Keys(Effect(d, db, argv, ran, other), db)
    ensures var late := Keys(Effect(d, db, argv, fed, other), db)[argv[1]];
            var live := Keys(Effect(d, db, argv, ran, other), db)[argv[1]];
            && late.expiry.At? && live.expiry.At?
            && late.expiry.ms == Wrap64(live.expiry.ms + (fed - ran))
            && late.value == live.value
    ensures Effect(d, db, argv, fed, other) == Effect(d, db, argv, ran, other) <==>
            (fed - ran) % TWO64 == 0
  {
    hide Lower, Relative, Effect, Deadline, TtlOf, Wrap64, Unexpiring, SetExpire, Keys;
    RelativeExpiry(d, db, argv, ran, other);
    RelativeExpiry(d, db, argv, fed, other);
    var (u, n) := TtlOf(argv);
    DeadlinesDiffer(u, n, ran, fed);
    TwoExpiries(Unexpiring(d, db, argv), db, argv[1], Deadline(u, n, ran), Deadline(u, n, fed));
  }

  lemma {:induction false} TwoExpiries(d: Data, db: nat, key: string, a: int, b: int)
    requires key in Keys(d, db)
    ensures SetExpire(d, db, key, a) == SetExpire(d, db, key, b) <==> a == b
    ensures key in Keys(SetExpire(d, db, key, a), db) && key in Keys(SetExpire(d, db, key, b), db)
    ensures Keys(SetExpire(d, db, key, a), db)[key] == Item(Keys(d, db)[key].value, At(a))
    ensures Keys(SetExpire(d, db, key, b), db)[key] == Item(Keys(d, db)[key].value, At(b))
  {
    assert Keys(SetExpire(d, db, key, a), db)[key].expiry == At(a);
    assert Keys(SetExpire(d, db, key, b), db)[key].expiry == At(b);
  }

  function Get(d: Data, db: nat, key: string): Item {
    if key in Keys(d, db) then Keys(d, db)[key] else Item("", Never)
  }

  const LATE: Command := ["expire", "k", "10"]

  /** Such a command: run at time 0 and logged at time 1, it leaves the key one millisecond more. */
  lemma {:induction false} DriftExample(other: Other)
    ensures var d: Data := map[0 := map["k" := Item("v", Never)]];
            && Relative(d, 0, LATE) && Effect(d, 0, LATE, 1, other) != Effect(d, 0, LATE, 0, other)
            && Get(Effect(d, 0, LATE, 0, other), 0, "k") == Item("v", At(10000))
            && Get(Effect(d, 0, LATE, 1, other), 0, "k") == Item("v", At(10001))
  {
    Lowered("expire", "expire");
    TenIsANumber();
    hide Lower, Parse, Strtol;
    var d: Data := map[0 := map["k" := Item("v", Never)]];
    assert Relative(d, 0, LATE);
    Drift(d, 0, LATE, 0, 1, other);
  }

  lemma {:induction false} TenIsANumber()
    ensures Parse("10") == Number(10) && Strtol("10") == 10
  {
    assert Digits(1) == "1" && Digits(10) == "10";
    StrtolDecimal(10, "");
    assert Decimal(10) + "" == "10";
  }
}
