/**
  Users and access rules: what each rule does to a user, and which commands a user
  may run. A rule is one token of the rule language; a password rule carries the
  hash of the password.
 */
module AclModel {
  import opened Strings

  // ---------------------------------------------------------------- the command table

  const BITS: nat := 1024
  /** The bit that no command has: set while the user may run commands loaded later. */
  const RESERVED: nat := 1023

  type Category = nat
  const CATEGORIES: nat := 21

  datatype CommandInfo = CommandInfo(name: string, id: nat, categories: set<Category>, isModule: bool, isAuth: bool)

  /** The commands, in the order in which the dictionary of commands is walked. */
  type Table = seq<CommandInfo>

  ghost predicate TableOk(t: Table) {
    && |t| < 0x7fff_ffff
    && (forall i :: 0 <= i < |t| ==> t[i].id < RESERVED)
    && (forall i, j :: 0 <= i < j < |t| ==> t[i].id != t[j].id && Lower(t[i].name) != Lower(t[j].name))
  }

  function Ids(t: Table): set<nat> {
    set c | c in t :: c.id
  }

  /** The ids that a rule about a category touches: commands of modules are left out. */
  function InCategory(t: Table, cat: Category): set<nat> {
    set c | c in t && !c.isModule && cat in c.categories :: c.id
  }

  predicate IsBit(id: nat) {
    id < BITS
  }

  function AllBits(): set<nat> {
    set id {:trigger IsBit(id)} | 0 <= id < BITS && IsBit(id)
  }

  /** The index of a command in the table, by its name in any case, if it is there. */
  function Find(t: Table, name: string): (r: int)
    ensures r == -1 || (0 <= r < |t| && Lower(t[r].name) == Lower(name))
    ensures r == -1 ==> forall i :: 0 <= i < |t| ==> Lower(t[i].name) != Lower(name)
    decreases |t|
  {
    if t == [] then -1
    else if Lower(t[|t| - 1].name) == Lower(name) then |t| - 1
    else Find(t[..|t| - 1], name)
  }

  // ---------------------------------------------------------------- users

  /** What a user may run: the bitmap, the flag that skips it, and the subcommands of commands not in the bitmap. */
  datatype Perms = Perms(bits: set<nat>, allCommands: bool, subs: map<nat, seq<string>>)

  datatype Status = Status(enabled: bool, disabled: bool, noPass: bool, passwords: seq<string>)

  datatype KeyRules = KeyRules(allKeys: bool, patterns: seq<string>)

  datatype User = User(status: Status, keys: KeyRules, perms: Perms)

  const NEW_USER := User(Status(false, true, false, []), KeyRules(false, []), Perms({}, false, map[]))

  // ---------------------------------------------------------------- rules

  datatype Rule =
    | Nothing
    | On
    | Off
    | NoPass
    | ResetPass
    | AddPassword(hash: string)
    | DelPassword(hash: string)
    | AllKeys
    | ResetKeys
    | AddPattern(pattern: string)
    | AllCommands
    | NoCommands
    | AddCommand(name: string)
    | DelCommand(name: string)
    | AddSub(name: string, sub: string)
    | AddCategory(cat: Category)
    | DelCategory(cat: Category)
    | Reset
    | Unknown

  datatype Error = NoEnt | Inval | Busy | Exist | NoDev | BadMsg

  datatype Result<T> = Ok(value: T) | Err(error: Error)

  predicate HashOk(hash: string) {
    |hash| == 64 && forall i :: 0 <= i < |hash| ==> 'a' <= hash[i] <= 'f' || '0' <= hash[i] <= '9'
  }

  predicate HasSpaces(s: string) {
    exists i :: 0 <= i < |s| && (s[i] == ' ' || '\t' <= s[i] <= '\r' || s[i] == '\0')
  }

  function AddOnce(s: seq<string>, x: string): seq<string> {
    if x in s then s else s + [x]
  }

  function Remove(s: seq<string>, x: string): seq<string> {
    if s == [] then [] else if s[0] == x then s[1..] else [s[0]] + Remove(s[1..], x)
  }

  /** Whether a name is among the names, without regard to case. */
  predicate Among(names: seq<string>, name: string) {
    exists i :: 0 <= i < |names| && Lower(names[i]) == Lower(name)
  }

  function Subs(p: Perms, id: nat): seq<string> {
    if id in p.subs then p.subs[id] else []
  }

  function SetBit(p: Perms, id: nat): Perms {
    if id < BITS then p.(bits := p.bits + {id}) else p
  }

  function ClearBit(p: Perms, id: nat): Perms {
    if id < BITS then p.(bits := p.bits - {id}, allCommands := false) else p
  }

  function ResetSubs(p: Perms, ids: set<nat>): Perms {
    p.(subs := map id | id in p.subs && id !in ids :: p.subs[id])
  }

  function AddSubcommand(p: Perms, id: nat, sub: string): Perms {
    if Among(Subs(p, id), sub) then p else p.(subs := p.subs[id := Subs(p, id) + [sub]])
  }

  /** The commands of a category allowed or forbidden. */
  function SetCategory(p: Perms, ids: set<nat>, value: bool): Perms {
    var q := if value then p.(bits := p.bits + ids)
             else p.(bits := p.bits - ids, allCommands := p.allCommands && ids == {});
    ResetSubs(q, ids)
  }

  predicate AboutCommands(rule: Rule) {
    || rule.AllCommands? || rule.NoCommands? || rule.AddCommand? || rule.DelCommand? || rule.AddSub?
    || rule.AddCategory? || rule.DelCategory?
  }

  /** What the rules about commands do. */
  function ApplyPerms(p: Perms, rule: Rule, t: Table): Result<Perms>
    requires AboutCommands(rule)
  {
    match rule
    case AllCommands => Ok(Perms(AllBits(), true, map[]))
    case NoCommands => Ok(Perms({}, false, map[]))
    case AddCommand(name) =>
      var i := Find(t, name);
      if i == -1 then Err(NoEnt) else Ok(ResetSubs(SetBit(p, t[i].id), {t[i].id}))
    case DelCommand(name) =>
      var i := Find(t, name);
      if i == -1 then Err(NoEnt) else Ok(ResetSubs(ClearBit(p, t[i].id), {t[i].id}))
    case AddSub(name, sub) =>
      var i := Find(t, name);
      if i == -1 then Err(NoEnt)
      else if sub == "" then Err(Inval)
      else if t[i].id in p.bits then Err(Busy)
      else Ok(ClearBit(AddSubcommand(p, t[i].id, sub), t[i].id))
    case AddCategory(cat) => if cat >= CATEGORIES then Err(NoEnt) else Ok(SetCategory(p, InCategory(t, cat), true))
    case DelCategory(cat) => if cat >= CATEGORIES then Err(NoEnt) else Ok(SetCategory(p, InCategory(t, cat), false))
  }

  function ApplyStatus(s: Status, rule: Rule): Result<Status>
    requires rule.On? || rule.Off? || rule.NoPass? || rule.ResetPass? || rule.AddPassword? || rule.DelPassword?
  {
    match rule
    case On => Ok(s.(enabled := true, disabled := false))
    case Off => Ok(s.(enabled := false, disabled := true))
    case NoPass => Ok(s.(noPass := true, passwords := []))
    case ResetPass => Ok(s.(noPass := false, passwords := []))
    case AddPassword(hash) =>
      if !HashOk(hash) then Err(BadMsg) else Ok(s.(noPass := false, passwords := AddOnce(s.passwords, hash)))
    case DelPassword(hash) =>
      if !HashOk(hash) then Err(BadMsg)
      else if hash !in s.passwords then Err(NoDev)
      else Ok(s.(passwords := Remove(s.passwords, hash)))
  }

  /** A pattern rule for every key is the rule AllKeys. */
  function ApplyKeys(k: KeyRules, rule: Rule): Result<KeyRules>
    requires rule.AllKeys? || rule.ResetKeys? || rule.AddPattern?
  {
    match rule
    case AllKeys => Ok(KeyRules(true, []))
    case ResetKeys => Ok(KeyRules(false, []))
    case AddPattern(p) =>
      if p == "*" then Ok(KeyRules(true, []))
      else if k.allKeys then Err(Exist)
      else if HasSpaces(p) then Err(Inval)
      else Ok(k.(patterns := AddOnce(k.patterns, p)))
  }

  /** ACLSetUser. A rule that fails leaves the user as it was. */
  function Apply(u: User, rule: Rule, t: Table): Result<User> {
    match rule
    case Nothing => Ok(u)
    case Unknown => Err(Inval)
    case Reset => Ok(User(Status(false, true, false, []), KeyRules(false, []), Perms({}, false, map[])))
    case On | Off | NoPass | ResetPass | AddPassword(_) | DelPassword(_) =>
      (match ApplyStatus(u.status, rule) case Ok(s) => Ok(u.(status := s)) case Err(e) => Err(e))
    case AllKeys | ResetKeys | AddPattern(_) =>
      (match ApplyKeys(u.keys, rule) case Ok(k) => Ok(u.(keys := k)) case Err(e) => Err(e))
    case _ =>
      (match ApplyPerms(u.perms, rule, t) case Ok(p) => Ok(u.(perms := p)) case Err(e) => Err(e))
  }

  /** The user after a rule, whether or not it was accepted. */
  function After(u: User, rule: Rule, t: Table): User {
    var r := Apply(u, rule, t);
    if r.Ok? then r.value else u
  }

  /** The user after a sequence of rules, if every one is accepted. */
  function ApplyAll(u: User, rules: seq<Rule>, t: Table): Result<User>
    decreases |rules|
  {
    if rules == [] then Ok(u)
    else
      match ApplyAll(u, rules[..|rules| - 1], t)
      case Ok(v) => Apply(v, rules[|rules| - 1], t)
      case Err(e) => Err(e)
  }

  // ---------------------------------------------------------------- what every rule keeps

  ghost predicate SubsOk(names: seq<string>) {
    && names != []
    && "" !in names
    && forall i, j :: 0 <= i < j < |names| ==> Lower(names[i]) != Lower(names[j])
  }

  /** Bits of no command follow the reserved bit; subcommands belong to commands whose bit is clear. */
  ghost predicate PermsOk(p: Perms, t: Table) {
    && (forall id :: id in p.bits ==> id < BITS)
    && (forall id {:trigger IsBit(id)} :: IsBit(id) && id !in Ids(t) ==> (id in p.bits <==> RESERVED in p.bits))
    && (p.allCommands ==> p.bits == AllBits())
    && (forall id :: id in p.subs ==> id in Ids(t) && id !in p.bits && SubsOk(p.subs[id]))
  }

  ghost predicate Distinct(s: seq<string>) {
    forall i, j :: 0 <= i < j < |s| ==> s[i] != s[j]
  }

  ghost predicate StatusOk(s: Status) {
    && s.enabled != s.disabled
    && (s.noPass ==> s.passwords == [])
    && Distinct(s.passwords)
    && forall i :: 0 <= i < |s.passwords| ==> HashOk(s.passwords[i])
  }

  ghost predicate KeysOk(k: KeyRules) {
    && (k.allKeys ==> k.patterns == [])
    && Distinct(k.patterns)
    && forall i :: 0 <= i < |k.patterns| ==> k.patterns[i] != "*" && !HasSpaces(k.patterns[i])
  }

  ghost predicate UserOk(u: User, t: Table) {
    StatusOk(u.status) && KeysOk(u.keys) && PermsOk(u.perms, t)
  }

  lemma {:induction false} RemoveKeeps(s: seq<string>, x: string)
    requires Distinct(s)
    ensures Distinct(Remove(s, x)) && forall y :: y in Remove(s, x) ==> y in s
    decreases |s|
  {
    if s != [] && s[0] != x {
      RemoveKeeps(s[1..], x);
      var r := Remove(s[1..], x);
      assert s[0] !in s[1..];
    }
  }

  lemma {:induction false} StatusKeeps(s: Status, rule: Rule)
    requires StatusOk(s)
    requires rule.On? || rule.Off? || rule.NoPass? || rule.ResetPass? || rule.AddPassword? || rule.DelPassword?
    ensures var r := ApplyStatus(s, rule); r.Ok? ==> StatusOk(r.value)
  {
    hide HashOk;
    if rule.DelPassword? {
      RemoveKeeps(s.passwords, rule.hash);
      var r := Remove(s.passwords, rule.hash);
      forall i | 0 <= i < |r| ensures HashOk(r[i]) {
        assert r[i] in s.passwords;
      }
    }
  }

  lemma {:induction false} KeysKeep(k: KeyRules, rule: Rule)
    requires KeysOk(k) && (rule.AllKeys? || rule.ResetKeys? || rule.AddPattern?)
    ensures var r := ApplyKeys(k, rule); r.Ok? ==> KeysOk(r.value)
  {
    hide HasSpaces;
  }

  lemma {:induction false} AddSubOk(names: seq<string>, sub: string)
    requires (names == [] || SubsOk(names)) && sub != "" && !Among(names, sub)
    ensures SubsOk(names + [sub])
  {
    hide Lower;
  }

  lemma {:induction false} FoundId(t: Table, i: nat)
    requires TableOk(t) && i < |t|
    ensures t[i].id in Ids(t) && t[i].id < RESERVED
  {
    assert t[i] in t;
  }

  lemma {:induction false} CategoryIds(t: Table, cat: Category)
    requires TableOk(t)
    ensures InCategory(t, cat) <= Ids(t)
    ensures forall id :: id in InCategory(t, cat) ==> id < RESERVED
  {
    forall id | id in InCategory(t, cat) ensures id < RESERVED {
      var c :| c in t && !c.isModule && cat in c.categories && c.id == id;
      var i :| 0 <= i < |t| && t[i] == c;
    }
  }

  lemma {:induction false} SetCategoryKeeps(p: Perms, t: Table, ids: set<nat>, value: bool)
    requires PermsOk(p, t) && ids <= Ids(t) && forall id :: id in ids ==> id < RESERVED
    ensures PermsOk(SetCategory(p, ids, value), t)
  {
    hide SubsOk, Ids;
    if !value && ids == {} {
      assert p.bits - ids == p.bits;
    }
    if value && p.allCommands {
      assert p.bits + ids == p.bits;
    }
  }

  lemma {:induction false} PermsKeep(p: Perms, rule: Rule, t: Table)
    requires PermsOk(p, t) && TableOk(t)
    requires AboutCommands(rule)
    ensures var r := ApplyPerms(p, rule, t); r.Ok? ==> PermsOk(r.value, t)
  {
    hide Ids, InCategory, TableOk;
    match rule {
      case AddCommand(name) =>
        var i := Find(t, name);
        if i != -1 {
          FoundId(t, i);
          SetCategoryKeeps(p, t, {t[i].id}, true);
        }
      case DelCommand(name) =>
        var i := Find(t, name);
        if i != -1 {
          FoundId(t, i);
          SetCategoryKeeps(p, t, {t[i].id}, false);
        }
      case AddSub(name, sub) =>
        var i := Find(t, name);
        if i != -1 && sub != "" && t[i].id !in p.bits {
          FoundId(t, i);
          SubKeeps(p, t, t[i].id, sub);
        }
      case AddCategory(cat) =>
        CategoryIds(t, cat);
        SetCategoryKeeps(p, t, InCategory(t, cat), true);
      case DelCategory(cat) =>
        CategoryIds(t, cat);
        SetCategoryKeeps(p, t, InCategory(t, cat), false);
      case _ =>
    }
  }

  lemma {:induction false} SubKeeps(p: Perms, t: Table, id: nat, sub: string)
    requires PermsOk(p, t) && id in Ids(t) && id < RESERVED && id !in p.bits && sub != ""
    ensures PermsOk(ClearBit(AddSubcommand(p, id, sub), id), t)
  {
    hide Ids;
    if !Among(Subs(p, id), sub) {
      AddSubOk(Subs(p, id), sub);
    }
    hide SubsOk, Among;
    assert p.bits - {id} == p.bits;
    assert IsBit(id);
  }

  /** Every rule keeps every user well formed. */
  lemma {:induction false} RulesKeepUsersOk(u: User, rule: Rule, t: Table)
    requires UserOk(u, t) && TableOk(t)
    ensures UserOk(After(u, rule, t), t)
  {
    hide StatusOk, KeysOk, PermsOk, ApplyStatus, ApplyKeys, ApplyPerms, TableOk;
    match rule {
      case Nothing =>
      case Unknown =>
      case Reset => NewUserOk(t);
      case On => StatusKeeps(u.status, rule);
      case Off => StatusKeeps(u.status, rule);
      case NoPass => StatusKeeps(u.status, rule);
      case ResetPass => StatusKeeps(u.status, rule);
      case AddPassword(_) => StatusKeeps(u.status, rule);
      case DelPassword(_) => StatusKeeps(u.status, rule);
      case AllKeys => KeysKeep(u.keys, rule);
      case ResetKeys => KeysKeep(u.keys, rule);
      case AddPattern(_) => KeysKeep(u.keys, rule);
      case _ => PermsKeep(u.perms, rule, t);
    }
  }

  lemma {:induction false} NewUserOk(t: Table)
    ensures UserOk(NEW_USER, t)
  {
  }

  /** The user after a sequence of rules, some of which may have been refused. */
  function AfterAll(u: User, rules: seq<Rule>, t: Table): User
    decreases |rules|
  {
    if rules == [] then u else After(AfterAll(u, rules[..|rules| - 1], t), rules[|rules| - 1], t)
  }

  /** Every user that any sequence of rules can make is well formed. */
  lemma {:induction false} ReachableUsersOk(rules: seq<Rule>, t: Table)
    requires TableOk(t)
    ensures UserOk(AfterAll(NEW_USER, rules, t), t)
    decreases |rules|
  {
    hide UserOk, After, TableOk;
    if rules == [] {
      NewUserOk(t);
    } else {
      ReachableUsersOk(rules[..|rules| - 1], t);
      RulesKeepUsersOk(AfterAll(NEW_USER, rules[..|rules| - 1], t), rules[|rules| - 1], t);
    }
  }
}
