/**
  The append-only file as bytes: the writer of one command, and the loader that
  reads commands back, with the C library's fgets, fread, strtol and atoi.
 */
module AofCodec {
  import opened Decimals

  /** A command and its arguments. */
  type Command = seq<string>

  ghost predicate NoneEmpty(commands: seq<Command>) {
    forall i :: 0 <= i < |commands| ==> |commands[i]| > 0
  }

  // ---------------------------------------------------------------- writing

  function Bulk(arg: string): string {
    "$" + Digits(|arg|) + "\r\n" + arg + "\r\n"
  }

  function Bulks(argv: Command): string {
    if argv == [] then "" else Bulk(argv[0]) + Bulks(argv[1..])
  }

  function Header(argv: Command): string {
    "*" + Digits(|argv|) + "\r\n"
  }

  function Encode(argv: Command): (s: string)
    ensures |s| > 0
  {
    Header(argv) + Bulks(argv)
  }

  /** The file that a sequence of commands makes. */
  function Log(commands: seq<Command>): string {
    if commands == [] then "" else Encode(commands[0]) + Log(commands[1..])
  }

  lemma {:induction false} SelectParts()
    ensures Header(["SELECT", "0"]) == "*2\r\n"
    ensures Bulk("SELECT") == "$6\r\nSELECT\r\n"
    ensures Bulk("0") == "$1\r\n0\r\n"
  {
    assert Digits(2) == "2" && Digits(6) == "6" && Digits(1) == "1";
  }

  /** The bytes of a SELECT, as they stand in the file. */
  lemma {:induction false} SelectBytes()
    ensures Encode(["SELECT", "0"]) == "*2\r\n$6\r\nSELECT\r\n$1\r\n0\r\n"
  {
    hide Header, Bulk;
    SelectParts();
    assert ["SELECT", "0"][1..] == ["0"] && ["0"][1..] == [];
    assert Bulks(["0"]) == Bulk("0");
  }

  lemma {:induction false} BulksSnoc(argv: Command, arg: string)
    ensures Bulks(argv + [arg]) == Bulks(argv) + Bulk(arg)
    decreases |argv|
  {
    hide Bulk;
    if argv == [] {
      assert argv + [arg] == [arg];
    } else {
      assert (argv + [arg])[1..] == argv[1..] + [arg];
      BulksSnoc(argv[1..], arg);
    }
  }

  lemma {:induction false} LogConcat(a: seq<Command>, b: seq<Command>)
    ensures Log(a + b) == Log(a) + Log(b)
    decreases |a|
  {
    hide Encode;
    if a == [] {
      assert a + b == b;
    } else {
      assert (a + b)[1..] == a[1..] + b;
      LogConcat(a[1..], b);
    }
  }

  /** The command appended to dst, argument by argument. */
  method CatAppendOnlyGenericCommand(dst: string, argv: Command) returns (r: string)
    ensures r == dst + Encode(argv)
  {
    hide Bulks, Bulk, Digits;
    r := dst + "*" + Digits(|argv|) + "\r\n";
    AppendHeader(dst, argv);
    for j := 0 to |argv|
      invariant r == dst + (Header(argv) + Bulks(argv[..j]))
    {
      AppendBulk(dst, argv, j);
      r := r + "$" + Digits(|argv[j]|) + "\r\n";
      r := r + argv[j];
      r := r + "\r\n";
    }
    assert argv[..|argv|] == argv;
  }

  lemma {:induction false} AppendHeader(dst: string, argv: Command)
    ensures dst + "*" + Digits(|argv|) + "\r\n" == dst + (Header(argv) + Bulks(argv[..0]))
  {
  }

  /** One iteration of the loop over the arguments. */
  lemma {:induction false} AppendBulk(dst: string, argv: Command, j: nat)
    requires j < |argv|
    ensures dst + (Header(argv) + Bulks(argv[..j])) + "$" + Digits(|argv[j]|) + "\r\n" + argv[j] + "\r\n"
            == dst + (Header(argv) + Bulks(argv[..j + 1]))
  {
    var r, h, b := dst + (Header(argv) + Bulks(argv[..j])), Header(argv), Bulks(argv[..j]);
    assert r + "$" + Digits(|argv[j]|) + "\r\n" + argv[j] + "\r\n" == r + Bulk(argv[j]);
    BulksSnoc(argv[..j], argv[j]);
    assert argv[..j + 1] == argv[..j] + [argv[j]];
    hide Header, Bulk, Bulks;
    assert dst + (h + b) + Bulk(argv[j]) == dst + (h + (b + Bulk(argv[j])));
  }

  // ---------------------------------------------------------------- the C library's streams

  /** sizeof(buf) - 1: the most characters one fgets can take. */
  const LINE: nat := 127

  /** How many characters fgets takes from s when it may take room of them. */
  function LineLength(s: string, room: nat): (n: nat)
    ensures n <= |s| && n <= room
    decreases room
  {
    if room == 0 || s == "" then 0
    else if s[0] == '\n' then 1
    else 1 + LineLength(s[1..], room - 1)
  }

  lemma {:induction false} LineAt(a: string, b: string, room: nat)
    requires '\n' !in a && |a| < room
    ensures LineLength(a + "\n" + b, room) == |a| + 1
    decreases |a|
  {
    if a == "" {
      assert a + "\n" + b == "\n" + b;
    } else {
      assert (a + "\n" + b)[1..] == a[1..] + "\n" + b;
      LineAt(a[1..], b, room - 1);
    }
  }

  lemma {:induction false} LineAtEnd(a: string, room: nat)
    requires '\n' !in a && |a| <= room
    ensures LineLength(a, room) == |a|
    decreases |a|
  {
    if a != "" {
      LineAtEnd(a[1..], room - 1);
    }
  }

  /** Whether taking n characters of s ran into the end of the file: no newline, and room left. */
  predicate HitsEnd(s: string, n: nat)
    requires n <= |s|
  {
    n == |s| && n < LINE && (n == 0 || s[n - 1] != '\n')
  }

  lemma {:induction false} LineStep(data: string, end: nat, room: nat)
    requires end < |data| && data[end] != '\n' && room > 0
    ensures LineLength(data[end..], room) == 1 + LineLength(data[end + 1..], room - 1)
  {
    assert data[end..][1..] == data[end + 1..];
  }

  lemma {:induction false} LineEnds(data: string, end: nat, room: nat)
    requires end <= |data| && (end < |data| && room > 0 ==> data[end] == '\n')
    ensures LineLength(data[end..], room) == if end < |data| && room > 0 then 1 else 0
  {
  }

  /** Where the line that starts at start ends, and whether looking for its end ran into the end of the file. */
  method ScanLine(data: string, start: nat) returns (end: nat, atEnd: bool)
    requires start < |data|
    ensures start < end <= |data|
    ensures end - start == LineLength(data[start..], LINE)
    ensures atEnd == HitsEnd(data[start..], end - start)
  {
    hide LineLength;
    var room := LINE;
    end := start;
    while room > 0 && end < |data| && data[end] != '\n'
      invariant start <= end <= |data|
      invariant LineLength(data[start..], LINE) == end - start + LineLength(data[end..], room)
      invariant room == LINE - (end - start)
      invariant end > start ==> data[end - 1] != '\n'
      decreases room
    {
      LineStep(data, end, room);
      end, room := end + 1, room - 1;
    }
    LineEnds(data, end, room);
    atEnd := room > 0 && end == |data|;
    if room > 0 && end < |data| {
      end := end + 1;
    }
  }

  /** A file open for reading. */
  class Stream {
    const data: string
    var pos: nat
    var eof: bool

    constructor (data: string)
      ensures this.data == data && pos == 0 && !eof
    {
      this.data := data;
      pos, eof := 0, false;
    }

    ghost predicate Valid()
      reads this
    {
      pos <= |data| && (eof ==> pos == |data|)
    }

    /** What has not been read. */
    function Rest(): string
      requires Valid()
      reads this
    {
      data[pos..]
    }

    method Fgets() returns (ok: bool, line: string)
      requires Valid()
      modifies this
      ensures Valid()
      ensures ok == (old(Rest()) != "")
      ensures ok ==> var n := LineLength(old(Rest()), LINE);
                     line == old(Rest())[..n] && pos == old(pos) + n && n > 0
                     && (eof <==> old(eof) || HitsEnd(old(Rest()), n))
      ensures !ok ==> eof && pos == old(pos)
    {
      hide LineLength;
      if pos == |data| {
        eof := true;
        return false, "";
      }
      var end, atEnd := ScanLine(data, pos);
      ok, line := true, data[pos..end];
      assert line == data[pos..][..end - pos];
      pos := end;
      if atEnd {
        eof := true;
      }
    }

    /** fread of one item of n bytes: all of them, or the end of the file. */
    method Fread(n: nat) returns (ok: bool, bytes: string)
      requires Valid()
      modifies this
      ensures Valid()
      ensures ok == (n <= |old(Rest())|)
      ensures ok ==> bytes == old(Rest())[..n] && pos == old(pos) + n && eof == old(eof)
      ensures !ok ==> eof
    {
      if n <= |data| - pos {
        bytes := data[pos..pos + n];
        ok := true;
        pos := pos + n;
      } else {
        pos, eof := |data|, true;
        return false, "";
      }
    }
  }
}
