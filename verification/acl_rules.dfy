/**
  What the rules are for: who may log in with which password, which keys a user may touch and which commands it may
  run, after each rule.
 */
module AclRules {
  import opened Strings
  import opened AclModel
  import opened AclDescribe

  // ---------------------------------------------------------------- logging in

  /** ACLCheckUserCredentials, for a user that may not exist and the hash of the password that was sent. */
  method CheckCredentials(exists': bool, u: User, hash: string) returns (ok: bool)
    ensures ok <==> exists' && LogsIn(u, hash)
  {
    if !exists' {
      return false;
    }
    if u.status.disabled {
      return false;
    }
    if u.status.noPass {
      return true;
    }
    for i := 0 to |u.status.passwords|
      invariant hash !in u.status.passwords[..i]
    {
      if u.status.passwords[i] == hash {
        return true;
      }
    }
    assert u.status.passwords[..|u.status.passwords|] == u.status.passwords;
    return false;
  }

  predicate RightPassword(u: User, hash: string) {
    u.status.noPass || hash in u.status.passwords
  }

  predicate LogsIn(u: User, hash: string) {
    !u.status.disabled && RightPassword(u, hash)
  }

  /** Removing takes out the first occurrence and leaves the others in order. */
  lemma {:induction false} RemoveTakesOut(s: seq<string>, x: string) returns (i: nat)
    requires x in s
    ensures i < |s| && s[i] == x && Remove(s, x) == s[..i] + s[i + 1..]
    decreases |s|
  {
    if s[0] == x {
      i := 0;
    } else {
      var j := RemoveTakesOut(s[1..], x);
      i := j + 1;
      assert s[..i] == [s[0]] + s[1..][..j] && s[i + 1..] == s[1..][j + 1..];
    }
  }

  lemma {:induction false} WithoutOne(s: seq<string>, i: nat, y: string)
    requires Distinct(s) && i < |s|
    ensures y in s[..i] + s[i + 1..] <==> y in s && y != s[i]
  {
    if y in s && y != s[i] {
      var j :| 0 <= j < |s| && s[j] == y;
      assert if j < i then s[..i][j] == y else s[i + 1..][j - i - 1] == y;
    }
    if y in s[..i] {
      var j :| 0 <= j < i && s[j] == y;
    }
    if y in s[i + 1..] {
      var j :| i < j < |s| && s[j] == y;
    }
  }

  /** Which passwords are right after a rule, and whether the user may log in at all. */
  lemma {:induction false} RuleAboutLogin(u: User, rule: Rule, t: Table, hash: string)
    requires UserOk(u, t) && Apply(u, rule, t).Ok?
    ensures var v := Apply(u, rule, t).value;
            RightPassword(v, hash) <==>
            match rule
            case NoPass => true
            case ResetPass => false
            case Reset => false
            case AddPassword(x) => hash == x || hash in u.status.passwords
            case DelPassword(x) => RightPassword(u, hash) && hash != x
            case _ => RightPassword(u, hash)
    ensures var v := Apply(u, rule, t).value;
            v.status.disabled <==>
            match rule
            case On => false
            case Off => true
            case Reset => true
            case _ => u.status.disabled
  {
    hide HashOk, HasSpaces, PermsOk, KeysOk, ApplyPerms, ApplyKeys;
    if rule.DelPassword? {
      var i := RemoveTakesOut(u.status.passwords, rule.hash);
      WithoutOne(u.status.passwords, i, hash);
    }
  }

  /** A password that is revoked leaves the others in their order, and everything else as it was. */
  lemma {:induction false} RevokesOnePassword(u: User, hash: string, t: Table) returns (i: nat)
    requires UserOk(u, t) && HashOk(hash) && hash in u.status.passwords
    ensures i < |u.status.passwords| && u.status.passwords[i] == hash
    ensures Apply(u, DelPassword(hash), t) ==
            Ok(u.(status := u.status.(passwords := u.status.passwords[..i] + u.status.passwords[i + 1..])))
  {
    hide HashOk, PermsOk, KeysOk;
    i := RemoveTakesOut(u.status.passwords, hash);
  }

  // ---------------------------------------------------------------- keys

  predicate Touches(u: User, key: string, match': Matcher) {
    u.keys.allKeys || exists i :: 0 <= i < |u.keys.patterns| && match'(u.keys.patterns[i], key)
  }

  /** Which keys a user may touch after a rule. */
  lemma {:induction false} RuleAboutKeys(u: User, rule: Rule, t: Table, key: string, match': Matcher)
    requires UserOk(u, t) && Apply(u, rule, t).Ok?
    ensures var v := Apply(u, rule, t).value;
            Touches(v, key, match') <==>
            match rule
            case AllKeys => true
            case ResetKeys => false
            case Reset => false
            case AddPattern(p) => p == "*" || Touches(u, key, match') || match'(p, key)
            case _ => Touches(u, key, match')
  {
    hide HashOk, HasSpaces, PermsOk, StatusOk, ApplyPerms, ApplyStatus;
    if rule.AddPattern? && rule.pattern != "*" {
      var a, b := u.keys.patterns, AddOnce(u.keys.patterns, rule.pattern);
      if i :| 0 <= i < |a| && match'(a[i], key) {
        assert b[i] == a[i];
      }
      var j :| 0 <= j < |b| && b[j] == rule.pattern;
      if m :| 0 <= m < |b| && match'(b[m], key) {
        assert b[m] == rule.pattern || b[m] == a[m];
      }
    }
  }

  // ---------------------------------------------------------------- commands

  /** The command of the rule is c. */
  predicate Names(name: string, c: CommandInfo) {
    Lower(name) == Lower(c.name)
  }

  predicate Covers(cat: Category, c: CommandInfo) {
    cat in c.categories && !c.isModule
  }

  lemma {:induction false} FoundIffNamed(t: Table, name: string, i: nat)
    requires TableOk(t) && i < |t| && Find(t, name) != -1
    ensures 0 <= Find(t, name) < |t| && (t[Find(t, name)].id == t[i].id <==> Names(name, t[i]))
  {
    hide Lower;
  }

  lemma {:induction false} CoveredIff(t: Table, cat: Category, i: nat)
    requires TableOk(t) && i < |t|
    ensures t[i].id in InCategory(t, cat) <==> Covers(cat, t[i])
  {
    hide Lower;
    if t[i].id in InCategory(t, cat) {
      var c :| c in t && !c.isModule && cat in c.categories && c.id == t[i].id;
      var j :| 0 <= j < |t| && t[j] == c;
    }
  }

  /** Rules about one command. */
  lemma {:induction false} RuleAboutOne(p: Perms, rule: Rule, t: Table, i: nat, argv: seq<string>)
    requires PermsOk(p, t) && TableOk(t) && i < |t| && (rule.AddCommand? || rule.DelCommand?)
    requires ApplyPerms(p, rule, t).Ok?
    ensures var c, v := t[i], ApplyPerms(p, rule, t).value;
            MayRun(v, c, argv) <==>
            if rule.AddCommand? then Names(rule.name, c) || MayRun(p, c, argv)
            else c.isAuth || (MayRun(p, c, argv) && !Names(rule.name, c))
  {
    FoundIffNamed(t, rule.name, i);
    FoundId(t, Find(t, rule.name));
    FoundId(t, i);
    FlagMeansBit(p, t, i);
    hide TableOk, PermsOk, Lower, Find, Names, AllBits;
  }

  lemma {:induction false} FlagMeansBit(p: Perms, t: Table, i: nat)
    requires PermsOk(p, t) && TableOk(t) && i < |t|
    ensures p.allCommands ==> t[i].id in p.bits
    ensures t[i].id in p.bits ==> t[i].id !in p.subs
  {
    assert IsBit(t[i].id);
  }

  lemma {:induction false} RuleAboutSub(p: Perms, rule: Rule, t: Table, i: nat, argv: seq<string>)
    requires PermsOk(p, t) && TableOk(t) && i < |t| && rule.AddSub? && ApplyPerms(p, rule, t).Ok?
    ensures var c, v := t[i], ApplyPerms(p, rule, t).value;
            MayRun(v, c, argv) <==>
            MayRun(p, c, argv) || (Names(rule.name, c) && |argv| >= 2 && Lower(argv[1]) == Lower(rule.sub))
  {
    var f := Find(t, rule.name);
    FoundIffNamed(t, rule.name, i);
    FoundId(t, f);
    FlagMeansBit(p, t, i);
    FlagMeansBit(p, t, f);
    hide TableOk, PermsOk, Lower, Find, Names, AllBits, Among;
    if |argv| >= 2 {
      AmongMore(Subs(p, t[f].id), rule.sub, argv[1]);
    }
  }

  lemma {:induction false} AmongMore(names: seq<string>, sub: string, name: string)
    ensures Among(names + [sub], name) <==> Among(names, name) || Lower(sub) == Lower(name)
    ensures Among(names, sub) && Lower(sub) == Lower(name) ==> Among(names, name)
  {
    hide Lower;
    var more := names + [sub];
    if k :| 0 <= k < |names| && Lower(names[k]) == Lower(name) {
      assert more[k] == names[k];
    }
    assert more[|names|] == sub;
  }

  lemma {:induction false} RuleAboutCategory(p: Perms, rule: Rule, t: Table, i: nat, argv: seq<string>)
    requires PermsOk(p, t) && TableOk(t) && i < |t| && (rule.AddCategory? || rule.DelCategory?)
    requires ApplyPerms(p, rule, t).Ok?
    ensures var c, v := t[i], ApplyPerms(p, rule, t).value;
            MayRun(v, c, argv) <==>
            if rule.AddCategory? then Covers(rule.cat, c) || MayRun(p, c, argv)
            else c.isAuth || (MayRun(p, c, argv) && !Covers(rule.cat, c))
  {
    CoveredIff(t, rule.cat, i);
    FlagMeansBit(p, t, i);
    hide TableOk, PermsOk, Lower, Covers, AllBits, InCategory, Among;
  }

  lemma {:induction false} EveryBit(t: Table, i: nat)
    requires TableOk(t) && i < |t|
    ensures t[i].id in AllBits()
  {
    assert IsBit(t[i].id);
  }

  /** Which commands, with which arguments, a user may run after a rule. */
  lemma {:induction false} RuleAboutCommands(u: User, rule: Rule, t: Table, i: nat, argv: seq<string>)
    requires UserOk(u, t) && TableOk(t) && i < |t| && Apply(u, rule, t).Ok?
    ensures var v, c := Apply(u, rule, t).value, t[i];
            MayRun(v.perms, c, argv) <==>
            match rule
            case AllCommands => true
            case NoCommands => c.isAuth
            case Reset => c.isAuth
            case AddCommand(name) => Names(name, c) || MayRun(u.perms, c, argv)
            case DelCommand(name) => c.isAuth || (MayRun(u.perms, c, argv) && !Names(name, c))
            case AddSub(name, sub) =>
              MayRun(u.perms, c, argv) || (Names(name, c) && |argv| >= 2 && Lower(argv[1]) == Lower(sub))
            case AddCategory(cat) => Covers(cat, c) || MayRun(u.perms, c, argv)
            case DelCategory(cat) => c.isAuth || (MayRun(u.perms, c, argv) && !Covers(cat, c))
            case _ => MayRun(u.perms, c, argv)
  {
    if rule.AddCommand? || rule.DelCommand? {
      hide MayRun, ApplyPerms, TableOk, PermsOk, StatusOk, KeysOk, Names, Covers, Lower;
      RuleAboutOne(u.perms, rule, t, i, argv);
    } else if rule.AddSub? {
      hide MayRun, ApplyPerms, TableOk, PermsOk, StatusOk, KeysOk, Names, Covers, Lower;
      RuleAboutSub(u.perms, rule, t, i, argv);
    } else if rule.AddCategory? || rule.DelCategory? {
      hide MayRun, ApplyPerms, TableOk, PermsOk, StatusOk, KeysOk, Names, Covers, Lower;
      RuleAboutCategory(u.perms, rule, t, i, argv);
    } else {
      hide ApplyStatus, ApplyKeys, TableOk, PermsOk, StatusOk, KeysOk, Names, Covers, Lower;
      EveryBit(t, i);
    }
  }

  // ---------------------------------------------------------------- refusals

  ghost predicate LowerHex(c: char) {
    c in "0123456789abcdef"
  }

  /** Exactly the strings of 64 lower-case hexadecimal digits are hashes, and exactly those are added as passwords. */
  lemma {:induction false} HashesAreHex(u: User, hash: string, t: Table)
    ensures Apply(u, AddPassword(hash), t).Ok? <==> |hash| == 64 && forall i :: 0 <= i < |hash| ==> LowerHex(hash[i])
  {
    forall c: char ensures LowerHex(c) <==> ('a' <= c <= 'f' || '0' <= c <= '9') {
      HexDigit(c);
    }
    hide LowerHex;
  }

  lemma {:induction false} HexDigit(c: char)
    ensures LowerHex(c) <==> ('a' <= c <= 'f' || '0' <= c <= '9')
  {
    var s := "0123456789abcdef";
    assert |s| == 16;
    if '0' <= c <= '9' {
      assert s[c as int - '0' as int] == c;
    } else if 'a' <= c <= 'f' {
      assert s[10 + (c as int - 'a' as int)] == c;
    }
  }

  /** A user that may not touch every key gets a new pattern exactly when the pattern has no space and no NUL in it. */
  lemma {:induction false} PatternsHaveNoSpaces(u: User, pattern: string, t: Table)
    requires !u.keys.allKeys
    ensures Apply(u, AddPattern(pattern), t).Ok? <==>
            forall i :: 0 <= i < |pattern| ==> pattern[i] !in [' ', '\t', '\n', '\U{0B}', '\U{0C}', '\r', '\0']
  {
  }

  /** Why a rule is refused: each error has its cause. */
  lemma {:induction false} RefusalsHaveCauses(u: User, rule: Rule, t: Table, match': Matcher)
    requires UserOk(u, t) && TableOk(t) && Apply(u, rule, t).Err?
    ensures match Apply(u, rule, t).error
            case NoEnt => (rule.AddCategory? || rule.DelCategory? || (forall i :: 0 <= i < |t| ==> !Named(rule, t[i])))
            case Busy => rule.AddSub? && exists i :: 0 <= i < |t| && Names(rule.name, t[i]) && forall argv :: MayRun(u.perms, t[i], argv)
            case Exist => rule.AddPattern? && forall key :: Touches(u, key, match')
            case NoDev => rule.DelPassword? && !(rule.hash in u.status.passwords)
            case BadMsg => (rule.AddPassword? || rule.DelPassword?) && !HashOk(rule.hash)
            case Inval => rule.Unknown? || (rule.AddSub? && rule.sub == "") || (rule.AddPattern? && HasSpaces(rule.pattern))
  {
    hide HashOk, HasSpaces, PermsOk, KeysOk, StatusOk, Lower, TableOk;
    if Apply(u, rule, t).error == Busy {
      var f := Find(t, rule.name);
      assert Names(rule.name, t[f]);
      assert forall argv :: MayRun(u.perms, t[f], argv);
    }
  }

  /** The rule is about the command. */
  ghost predicate Named(rule: Rule, c: CommandInfo) {
    match rule
    case AddCommand(name) => Names(name, c)
    case DelCommand(name) => Names(name, c)
    case AddSub(name, _) => Names(name, c)
    case _ => false
  }
}
