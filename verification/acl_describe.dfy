/**
  The printer of access rules: a greedy choice of categories, then single commands
  and subcommands until a fake user has the bitmap of the described one; and the
  proof that replaying what it prints gives the user back.
 */
module AclDescribe {
  import opened Strings
  import opened AclModel

  const EMPTY := Perms({}, false, map[])

  ghost predicate AllAboutCommands(rules: seq<Rule>) {
    forall i :: 0 <= i < |rules| ==> AboutCommands(rules[i])
  }

  /** The permissions that rules about commands give, if every rule is accepted. */
  ghost function Replay(p: Perms, rules: seq<Rule>, t: Table): Result<Perms>
    requires AllAboutCommands(rules)
    decreases |rules|
  {
    if rules == [] then Ok(p)
    else
      match Replay(p, rules[..|rules| - 1], t)
      case Ok(q) => ApplyPerms(q, rules[|rules| - 1], t)
      case Err(e) => Err(e)
  }

  /** The rules, accepted one by one, lead to the permissions. */
  ghost predicate Gives(rules: seq<Rule>, p: Perms, t: Table) {
    AllAboutCommands(rules) && Replay(EMPTY, rules, t) == Ok(p)
  }

  lemma {:induction false} GivesOneMore(rules: seq<Rule>, p: Perms, rule: Rule, q: Perms, t: Table)
    requires Gives(rules, p, t) && AboutCommands(rule) && ApplyPerms(p, rule, t) == Ok(q)
    ensures Gives(rules + [rule], q, t)
  {
    hide ApplyPerms;
    assert (rules + [rule])[..|rules|] == rules;
  }

  /** Once the first rule forbids or allows everything, it does not matter which permissions one starts from. */
  lemma {:induction false} StartDoesNotMatter(p: Perms, q: Perms, rules: seq<Rule>, t: Table)
    requires AllAboutCommands(rules) && rules != [] && (rules[0].AllCommands? || rules[0].NoCommands?)
    ensures Replay(p, rules, t) == Replay(q, rules, t)
    decreases |rules|
  {
    if |rules| > 1 {
      StartDoesNotMatter(p, q, rules[..|rules| - 1], t);
    } else {
      assert rules[..0] == [];
    }
  }

  // ---------------------------------------------------------------- counting and choosing categories

  /** How many commands of a category have their bit set, or clear. */
  function Count(t: Table, cat: Category, bits: set<nat>, value: bool): (n: nat)
    ensures n <= |t|
    decreases |t|
  {
    if t == [] then 0
    else
      var c := t[|t| - 1];
      Count(t[..|t| - 1], cat, bits, value) + if cat in c.categories && (c.id in bits) == value then 1 else 0
  }

  lemma {:induction false} CountedClear(t: Table, cat: Category, bits: set<nat>)
    requires Count(t, cat, bits, false) > 0
    ensures exists c :: c in t && c.id !in bits
    decreases |t|
  {
    var c := t[|t| - 1];
    assert c in t;
    if c.id in bits {
      CountedClear(t[..|t| - 1], cat, bits);
    }
  }

  method CountCategoryBits(t: Table, cat: Category, bits: set<nat>) returns (on: nat, off: nat)
    ensures on == Count(t, cat, bits, true) && off == Count(t, cat, bits, false)
  {
    on, off := 0, 0;
    for i := 0 to |t|
      invariant on == Count(t[..i], cat, bits, true) && off == Count(t[..i], cat, bits, false)
    {
      assert t[..i + 1][..i] == t[..i];
      if cat in t[i].categories {
        if t[i].id in bits {
          on := on + 1;
        } else {
          off := off + 1;
        }
      }
    }
    assert t[..|t|] == t;
  }

  /** Better than having picked none: more commands agree than differ. */
  predicate Worth(t: Table, cat: Category, bits: set<nat>, additive: bool) {
    Count(t, cat, bits, additive) > Count(t, cat, bits, !additive)
  }

  /** The better of two categories: fewer differences, and among equals more agreements. */
  predicate NoBetter(t: Table, a: Category, b: Category, bits: set<nat>, additive: bool) {
    || Count(t, b, bits, !additive) < Count(t, a, bits, !additive)
    || (Count(t, b, bits, !additive) == Count(t, a, bits, !additive) && Count(t, a, bits, additive) <= Count(t, b, bits, additive))
  }

  /** The best fitting category that has not been applied, or -1 if none is worth it. */
  method BestCategory(t: Table, bits: set<nat>, applied: set<Category>, additive: bool) returns (best: int)
    requires |t| < 0x7fff_ffff
    ensures best == -1 || (0 <= best < CATEGORIES && best !in applied && Worth(t, best, bits, additive))
    ensures forall c :: 0 <= c < CATEGORIES && c !in applied && Worth(t, c, bits, additive) ==>
              best != -1 && NoBetter(t, c, best, bits, additive)
  {
    hide Count;
    best := -1;
    var mindiff, maxsame := 0x7fff_ffff, 0;
    for j := 0 to CATEGORIES
      invariant best == -1 ==> mindiff == 0x7fff_ffff && maxsame == 0
      invariant best != -1 ==> 0 <= best < j && best !in applied && Worth(t, best, bits, additive)
                               && mindiff == Count(t, best, bits, !additive) && maxsame == Count(t, best, bits, additive)
      invariant forall c :: 0 <= c < j && c !in applied && Worth(t, c, bits, additive) ==>
                  best != -1 && NoBetter(t, c, best, bits, additive)
    {
      if j !in applied {
        var on, off := CountCategoryBits(t, j, bits);
        var diff := if additive then off else on;
        var same := if additive then on else off;
        if same > diff && (diff < mindiff || (diff == mindiff && same > maxsame)) {
          best, mindiff, maxsame := j, diff, same;
        }
      }
    }
  }

  // ---------------------------------------------------------------- the coarse rules

  lemma {:induction false} GivesStart(rule: Rule, t: Table)
    requires rule == AllCommands || rule == NoCommands
    ensures Gives([rule], if rule == AllCommands then Perms(AllBits(), true, map[]) else EMPTY, t)
  {
    assert [rule][..0] == [];
    assert Replay(EMPTY, [], t) == Ok(EMPTY);
  }

  lemma {:induction false} StartOk(t: Table)
    requires TableOk(t)
    ensures PermsOk(Perms(AllBits(), true, map[]), t) && PermsOk(EMPTY, t)
  {
  }

  /** A category applied to permissions without subcommands leaves them without. */
  lemma {:induction false} CategoryStep(p: Perms, cat: Category, value: bool, t: Table)
    requires PermsOk(p, t) && TableOk(t) && cat < CATEGORIES && p.subs == map[]
    ensures var q := SetCategory(p, InCategory(t, cat), value);
            && ApplyPerms(p, if value then AddCategory(cat) else DelCategory(cat), t) == Ok(q)
            && PermsOk(q, t) && q.subs == map[] && (RESERVED in q.bits <==> RESERVED in p.bits)
  {
    hide Ids, InCategory, PermsOk, TableOk;
    CategoryIds(t, cat);
    PermsKeep(p, if value then AddCategory(cat) else DelCategory(cat), t);
  }

  lemma {:induction false} FullHasNoneWorth(t: Table, cat: Category)
    requires TableOk(t)
    ensures !Worth(t, cat, AllBits(), false)
  {
    if Worth(t, cat, AllBits(), false) {
      CountedClear(t, cat, AllBits());
      var c :| c in t && c.id !in AllBits();
      var i :| 0 <= i < |t| && t[i] == c;
      assert IsBit(t[i].id);
      assert false;
    }
  }

  /** The first rule, and the categories the greedy choice adds to it. */
  method CoarseRules(u: Perms, t: Table) returns (rules: seq<Rule>, fake: Perms)
    requires PermsOk(u, t) && TableOk(t)
    ensures Gives(rules, fake, t) && PermsOk(fake, t) && fake.subs == map[]
    ensures rules != [] && (rules[0].AllCommands? || rules[0].NoCommands?)
    ensures RESERVED in fake.bits <==> RESERVED in u.bits
    ensures u.bits == AllBits() ==> fake == Perms(AllBits(), true, map[])
  {
    assert |t| < 0x7fff_ffff;
    assert IsBit(RESERVED);
    hide PermsOk, TableOk, Gives, InCategory, Worth, NoBetter, ApplyPerms, Ids;
    StartOk(t);
    var additive := RESERVED !in u.bits;
    var first := if additive then NoCommands else AllCommands;
    rules := [first];
    GivesStart(first, t);
    fake := if additive then EMPTY else Perms(AllBits(), true, map[]);
    var temp := Perms(u.bits, false, map[]);
    var applied: set<Category> := {};
    ghost var full := u.bits == AllBits();
    while true
      invariant Gives(rules, fake, t) && PermsOk(fake, t) && fake.subs == map[]
      invariant rules != [] && rules[0] == first
      invariant RESERVED in fake.bits <==> RESERVED in u.bits
      invariant full ==> fake == Perms(AllBits(), true, map[]) && temp.bits == AllBits()
      invariant forall c :: c in applied ==> c < CATEGORIES
      decreases CATEGORIES - |applied|
    {
      var best := BestCategory(t, temp.bits, applied, additive);
      if best == -1 {
        break;
      }
      if full {
        FullHasNoneWorth(t, best);
      }
      CategoryStep(fake, best, additive, t);
      var op := if additive then AddCategory(best) else DelCategory(best);
      ghost var before := fake;
      fake := SetCategory(fake, InCategory(t, best), additive);
      GivesOneMore(rules, before, op, fake, t);
      temp := SetCategory(temp, InCategory(t, best), !additive);
      rules := rules + [op];
      AppliedGrows(applied, best);
      applied := applied + {best};
    }
  }

  lemma {:induction false} AppliedGrows(applied: set<Category>, best: Category)
    requires best !in applied && best < CATEGORIES && forall c :: c in applied ==> c < CATEGORIES
    ensures |applied + {best}| == |applied| + 1 <= CATEGORIES
  {
    BoundedSet(applied + {best}, CATEGORIES);
  }

  lemma {:induction false} BoundedSet(s: set<nat>, n: nat)
    requires forall c :: c in s ==> c < n
    ensures |s| <= n
    decreases n
  {
    if n == 0 {
      assert s == {};
    } else {
      BoundedSet(s - {n - 1}, n - 1);
      if n - 1 in s {
        assert |s - {n - 1}| == |s| - 1;
      } else {
        assert s - {n - 1} == s;
      }
    }
  }

  // ---------------------------------------------------------------- single commands and subcommands

  function Restrict(subs: map<nat, seq<string>>, ids: set<nat>): map<nat, seq<string>> {
    map id | id in subs && id in ids :: subs[id]
  }

  /** A command of the table is found under its own name. */
  lemma {:induction false} FindSelf(t: Table, i: nat)
    requires TableOk(t) && i < |t|
    ensures Find(t, t[i].name) == i
  {
    var j := Find(t, t[i].name);
    if j < i {
    } else if i < j {
    }
  }

  lemma {:induction false} IdsSnoc(t: Table, i: nat)
    requires TableOk(t) && i < |t|
    ensures Ids(t[..i + 1]) == Ids(t[..i]) + {t[i].id} && t[i].id !in Ids(t[..i])
    ensures Ids(t[..i]) <= Ids(t) && t[i].id in Ids(t) && t[i].id < RESERVED
  {
    hide Lower;
    assert t[..i + 1] == t[..i] + [t[i]];
    assert t[i] in t;
    forall id | id in Ids(t[..i]) ensures id in Ids(t) {
      var c :| c in t[..i] && c.id == id;
      assert c in t;
    }
  }

  /** The rule that gives one command the bit it has in the described user. */
  lemma {:induction false} FixCommand(p: Perms, t: Table, i: nat, value: bool)
    requires PermsOk(p.(subs := map[]), t) && TableOk(t) && i < |t| && t[i].id !in p.subs
    requires (t[i].id in p.bits) != value
    ensures var rule := if value then AddCommand(t[i].name) else DelCommand(t[i].name);
            var q := if value then SetBit(p, t[i].id) else ClearBit(p, t[i].id);
            ApplyPerms(p, rule, t) == Ok(q) && PermsOk(q.(subs := map[]), t)
            && q.bits == (if value then p.bits + {t[i].id} else p.bits - {t[i].id}) && q.subs == p.subs
            && (RESERVED in q.bits <==> RESERVED in p.bits)
  {
    FindSelf(t, i);
    IdsSnoc(t, i);
    hide Ids, TableOk, SubsOk;
    var id := t[i].id;
    var q := if value then SetBit(p, id) else ClearBit(p, id);
    assert ResetSubs(q, {id}).subs == q.subs;
    assert ResetSubs(q, {id}) == q;
    SetCategoryKeeps(p.(subs := map[]), t, {id}, value);
    assert id in {id};
    assert SetCategory(p.(subs := map[]), {id}, value) == q.(subs := map[]);
    hide PermsOk;
  }

  /** The rule for one subcommand appends it to the subcommands of its command. */
  lemma {:induction false} FixSub(p: Perms, t: Table, i: nat, names: seq<string>, k: nat)
    requires TableOk(t) && i < |t| && t[i].id !in p.bits && !p.allCommands
    requires SubsOk(names) && k < |names| && Subs(p, t[i].id) == names[..k]
    ensures ApplyPerms(p, AddSub(t[i].name, names[k]), t) == Ok(p.(subs := p.subs[t[i].id := names[..k + 1]]))
  {
    FindSelf(t, i);
    IdsSnoc(t, i);
    hide Lower, Ids, TableOk;
    var id := t[i].id;
    assert !Among(names[..k], names[k]);
    assert names[..k] + [names[k]] == names[..k + 1];
    assert p.bits - {id} == p.bits;
  }

  /** All the subcommands of one command, one rule each. */
  method SubRules(t: Table, i: nat, names: seq<string>, soFar: seq<Rule>, ghost p: Perms) returns (rules: seq<Rule>)
    requires TableOk(t) && i < |t| && SubsOk(names) && t[i].id !in p.bits && !p.allCommands && t[i].id !in p.subs
    requires Gives(soFar, p, t) && soFar != []
    ensures Gives(rules, p.(subs := p.subs[t[i].id := names]), t)
    ensures rules != [] && rules[0] == soFar[0]
  {
    hide TableOk, SubsOk, Gives, ApplyPerms;
    rules := soFar;
    ghost var q := p;
    for j := 0 to |names|
      invariant Gives(rules, q, t) && rules != [] && rules[0] == soFar[0]
      invariant q == if j == 0 then p else p.(subs := p.subs[t[i].id := names[..j]])
    {
      FixSub(q, t, i, names, j);
      ghost var r := q.(subs := q.subs[t[i].id := names[..j + 1]]);
      assert r == p.(subs := p.subs[t[i].id := names[..j + 1]]);
      GivesOneMore(rules, q, AddSub(t[i].name, names[j]), r, t);
      rules := rules + [AddSub(t[i].name, names[j])];
      q := r;
    }
    assert names[..|names|] == names;
    assert |names| > 0 by {
      NamesNotEmpty(names);
    }
  }

  lemma {:induction false} NamesNotEmpty(names: seq<string>)
    requires SubsOk(names)
    ensures names != []
  {
  }

  /** The bits of the two users agree on the first i commands. */
  ghost predicate AgreeOn(t: Table, i: nat, a: set<nat>, b: set<nat>)
    requires i <= |t|
  {
    forall j :: 0 <= j < i ==> (t[j].id in a <==> t[j].id in b)
  }

  lemma {:induction false} AgreeOneMore(t: Table, i: nat, a: set<nat>, b: set<nat>, c: set<nat>)
    requires TableOk(t) && i < |t| && AgreeOn(t, i, a, c)
    requires forall id :: id != t[i].id ==> (id in a <==> id in b)
    requires t[i].id in b <==> t[i].id in c
    ensures AgreeOn(t, i + 1, b, c)
  {
  }

  /** Agreement on every command and on the reserved bit is agreement on the whole bitmap. */
  lemma {:induction false} AgreeEverywhere(t: Table, p: Perms, u: Perms)
    requires PermsOk(p, t) && PermsOk(u, t) && AgreeOn(t, |t|, p.bits, u.bits)
    requires RESERVED in p.bits <==> RESERVED in u.bits
    ensures p.bits == u.bits
  {
    forall id: nat ensures id in p.bits <==> id in u.bits {
      if IsBit(id) && id in Ids(t) {
        var c :| c in t && c.id == id;
        var j :| 0 <= j < |t| && t[j] == c;
      }
    }
  }

  lemma {:induction false} RestrictOneMore(u: Perms, t: Table, i: nat)
    requires PermsOk(u, t) && TableOk(t) && i < |t|
    ensures var id := t[i].id;
            && id !in Restrict(u.subs, Ids(t[..i]))
            && Restrict(u.subs, Ids(t[..i + 1])) ==
               (if id in u.subs then Restrict(u.subs, Ids(t[..i]))[id := u.subs[id]] else Restrict(u.subs, Ids(t[..i])))
            && (id in u.subs ==> id !in u.bits && SubsOk(u.subs[id]))
  {
    IdsSnoc(t, i);
    hide Ids, SubsOk, TableOk;
  }

  lemma {:induction false} RestrictAll(u: Perms, t: Table)
    requires PermsOk(u, t)
    ensures Restrict(u.subs, Ids(t)) == u.subs
    ensures Restrict(u.subs, Ids([])) == map[]
  {
    hide SubsOk;
  }

  /** What holds once the first i commands have been brought into line. */
  ghost predicate Fixed(u: Perms, t: Table, i: nat, fake: Perms, rules: seq<Rule>)
    requires i <= |t|
  {
    && Gives(rules, fake.(subs := Restrict(u.subs, Ids(t[..i]))), t)
    && rules != [] && (rules[0].AllCommands? || rules[0].NoCommands?)
    && PermsOk(fake, t) && fake.subs == map[]
    && AgreeOn(t, i, fake.bits, u.bits)
    && (RESERVED in fake.bits <==> RESERVED in u.bits)
    && (u.bits == AllBits() ==> fake == Perms(AllBits(), true, map[]))
  }

  /** One command: its bit, then its subcommands. */
  method FixOne(u: Perms, t: Table, i: nat, fake: Perms, rules: seq<Rule>) returns (fake': Perms, rules': seq<Rule>)
    requires PermsOk(u, t) && TableOk(t) && i < |t| && Fixed(u, t, i, fake, rules)
    ensures Fixed(u, t, i + 1, fake', rules')
  {
    var c := t[i];
    IdsSnoc(t, i);
    RestrictOneMore(u, t, i);
    ghost var p := fake.(subs := Restrict(u.subs, Ids(t[..i])));
    hide PermsOk, TableOk, Gives, Restrict, Ids, ApplyPerms, AgreeOn;
    fake', rules' := fake, rules;
    var userbit, fakebit := c.id in u.bits, c.id in fake.bits;
    if userbit != fakebit {
      FullBit(t, i);
      assert p.(subs := map[]) == fake;
      FixCommand(p, t, i, userbit);
      ghost var q := if userbit then SetBit(p, c.id) else ClearBit(p, c.id);
      var rule := if userbit then AddCommand(c.name) else DelCommand(c.name);
      GivesOneMore(rules, p, rule, q, t);
      rules' := rules + [rule];
      fake' := if userbit then SetBit(fake, c.id) else ClearBit(fake, c.id);
      assert fake' == q.(subs := map[]);
      p := q;
    }
    AgreeOneMore(t, i, fake.bits, fake'.bits, u.bits);
    if !userbit && c.id in u.subs {
      NotAllCommands(fake', t, c.id);
      rules' := SubRules(t, i, u.subs[c.id], rules', p);
    }
  }

  lemma {:induction false} FullBit(t: Table, i: nat)
    requires TableOk(t) && i < |t|
    ensures t[i].id in AllBits()
  {
    assert IsBit(t[i].id);
  }

  lemma {:induction false} NotAllCommands(p: Perms, t: Table, id: nat)
    requires PermsOk(p, t) && id !in p.bits && id < BITS
    ensures !p.allCommands
  {
    assert IsBit(id);
  }

  /**
    ACLDescribeUserCommandRules. The final comparison of the fake user's bitmap with the
    described one never fails, and the rules give back the bitmap and the subcommands.
   */
  method DescribeCommandRules(u: Perms, t: Table) returns (rules: seq<Rule>, panics: bool)
    requires PermsOk(u, t) && TableOk(t)
    ensures !panics
    ensures Gives(rules, Perms(u.bits, u.bits == AllBits(), u.subs), t)
    ensures rules != [] && (rules[0].AllCommands? || rules[0].NoCommands?)
  {
    var fake;
    rules, fake := CoarseRules(u, t);
    RestrictAll(u, t);
    assert t[..0] == [];
    assert fake.(subs := map[]) == fake;
    hide PermsOk, TableOk, Gives, Restrict, Ids;
    for i := 0 to |t|
      invariant Fixed(u, t, i, fake, rules)
    {
      fake, rules := FixOne(u, t, i, fake, rules);
    }
    assert t[..|t|] == t;
    AgreeEverywhere(t, fake, u);
    FlagIsFull(fake, t);
    panics := fake.bits != u.bits;
  }

  lemma {:induction false} FlagIsFull(p: Perms, t: Table)
    requires PermsOk(p, t)
    ensures p.allCommands ==> p.bits == AllBits()
  {
  }

  // ---------------------------------------------------------------- the whole user

  /** The rules, accepted one by one, turn a new user into this one. */
  ghost predicate Makes(rules: seq<Rule>, u: User, t: Table) {
    ApplyAll(NEW_USER, rules, t) == Ok(u)
  }

  lemma {:induction false} MakesOneMore(rules: seq<Rule>, u: User, rule: Rule, v: User, t: Table)
    requires Makes(rules, u, t) && Apply(u, rule, t) == Ok(v)
    ensures Makes(rules + [rule], v, t)
  {
    hide Apply;
    assert (rules + [rule])[..|rules|] == rules;
  }

  /** Rules about commands after other rules. */
  lemma {:induction false} MakesPerms(rules: seq<Rule>, u: User, more: seq<Rule>, p: Perms, t: Table)
    requires Makes(rules, u, t) && AllAboutCommands(more) && Replay(u.perms, more, t) == Ok(p)
    ensures Makes(rules + more, u.(perms := p), t)
    decreases |more|
  {
    if more == [] {
      assert rules + more == rules;
    } else {
      var n := |more| - 1;
      MakesPerms(rules, u, more[..n], Replay(u.perms, more[..n], t).value, t);
      assert rules + more == (rules + more[..n]) + [more[n]];
      hide ApplyPerms;
      MakesOneMore(rules + more[..n], u.(perms := Replay(u.perms, more[..n], t).value), more[n], u.(perms := p), t);
    }
  }

  /** Whether a user is on or off, and its passwords. */
  method DescribeStatus(u: User, t: Table) returns (rules: seq<Rule>)
    requires StatusOk(u.status)
    ensures Makes(rules, NEW_USER.(status := u.status), t)
  {
    hide HashOk, Makes;
    rules := [];
    assert Makes([], NEW_USER, t) by {
      MakesNothing(t);
    }
    ghost var v := NEW_USER;
    if u.status.enabled {
      MakesOneMore(rules, v, On, v.(status := v.status.(enabled := true, disabled := false)), t);
      v := v.(status := v.status.(enabled := true, disabled := false));
      rules := rules + [On];
    }
    if u.status.disabled {
      MakesOneMore(rules, v, Off, v, t);
      rules := rules + [Off];
    }
    if u.status.noPass {
      MakesOneMore(rules, v, NoPass, v.(status := v.status.(noPass := true)), t);
      v := v.(status := v.status.(noPass := true));
      rules := rules + [NoPass];
    }
    var passwords := u.status.passwords;
    for i := 0 to |passwords|
      invariant Makes(rules, v, t)
      invariant v == NEW_USER.(status := u.status.(passwords := passwords[..i]))
    {
      assert AddOnce(passwords[..i], passwords[i]) == passwords[..i + 1];
      ghost var w := NEW_USER.(status := u.status.(passwords := passwords[..i + 1]));
      MakesOneMore(rules, v, AddPassword(passwords[i]), w, t);
      rules := rules + [AddPassword(passwords[i])];
      v := w;
    }
    assert passwords[..|passwords|] == passwords;
  }

  lemma {:induction false} MakesNothing(t: Table)
    ensures Makes([], NEW_USER, t)
  {
  }

  /** The keys a user may touch. */
  method DescribeKeys(u: User, t: Table, soFar: seq<Rule>, ghost v0: User) returns (rules: seq<Rule>)
    requires KeysOk(u.keys) && Makes(soFar, v0, t) && v0.keys == NEW_USER.keys
    ensures Makes(rules, v0.(keys := u.keys), t)
  {
    hide HasSpaces, Makes;
    rules := soFar;
    if u.keys.allKeys {
      MakesOneMore(rules, v0, AllKeys, v0.(keys := u.keys), t);
      rules := rules + [AllKeys];
    } else {
      var patterns := u.keys.patterns;
      ghost var v := v0;
      for i := 0 to |patterns|
        invariant Makes(rules, v, t)
        invariant v == v0.(keys := KeyRules(false, patterns[..i]))
      {
        assert AddOnce(patterns[..i], patterns[i]) == patterns[..i + 1];
        ghost var w := v0.(keys := KeyRules(false, patterns[..i + 1]));
        MakesOneMore(rules, v, AddPattern(patterns[i]), w, t);
        rules := rules + [AddPattern(patterns[i])];
        v := w;
      }
      assert patterns[..|patterns|] == patterns;
    }
  }

  /** The same user, with the flag that skips the bitmap set exactly when the bitmap is full. */
  function Normal(u: User): User {
    u.(perms := u.perms.(allCommands := u.perms.bits == AllBits()))
  }

  /**
    ACLDescribeUser. A new user to which the rules are applied has the same status, passwords,
    key patterns, bitmap and subcommands.
   */
  method DescribeUser(u: User, t: Table) returns (rules: seq<Rule>)
    requires UserOk(u, t) && TableOk(t)
    ensures Makes(rules, Normal(u), t)
  {
    hide StatusOk, KeysOk, PermsOk, TableOk, Makes;
    rules := DescribeStatus(u, t);
    ghost var v := NEW_USER.(status := u.status);
    rules := DescribeKeys(u, t, rules, v);
    v := v.(keys := u.keys);
    var commands, panics := DescribeCommandRules(u.perms, t);
    MakesPerms(rules, v, commands, Perms(u.perms.bits, u.perms.bits == AllBits(), u.perms.subs), t);
    rules := rules + commands;
  }

  // ---------------------------------------------------------------- permission

  datatype Decision = Allowed | DeniedCommand | DeniedKey(index: nat)

  /** stringmatchlen: whether a pattern matches a key. */
  type Matcher = (string, string) -> bool

  predicate MayRun(p: Perms, c: CommandInfo, argv: seq<string>) {
    p.allCommands || c.isAuth || c.id in p.bits || (|argv| >= 2 && Among(Subs(p, c.id), argv[1]))
  }

  predicate MatchesSome(patterns: seq<string>, key: string, match': Matcher) {
    exists i :: 0 <= i < |patterns| && match'(patterns[i], key)
  }

  /** ACLCheckCommandPerm: the command or subcommand must be allowed, and every key must match a pattern. */
  method CheckCommandPerm(u: User, c: CommandInfo, argv: seq<string>, keys: seq<string>,
      match': Matcher) returns (d: Decision)
    ensures d == Decide(u, c, argv, keys, match')
    ensures d == DeniedCommand <==>
            && !u.perms.allCommands && !c.isAuth && c.id !in u.perms.bits
            && !(|argv| >= 2 && c.id in u.perms.subs && Among(u.perms.subs[c.id], argv[1]))
    ensures d.DeniedKey? ==>
            && !u.keys.allKeys && d.index < |keys|
            && (forall i :: 0 <= i < |u.keys.patterns| ==> !match'(u.keys.patterns[i], keys[d.index]))
            && (forall k :: 0 <= k < d.index ==> MatchesSome(u.keys.patterns, keys[k], match'))
    ensures d == Allowed ==> u.keys.allKeys || forall k :: 0 <= k < |keys| ==> MatchesSome(u.keys.patterns, keys[k], match')
  {
    hide Lower;
    if !u.perms.allCommands && !c.isAuth {
      if c.id !in u.perms.bits {
        if |argv| < 2 || c.id !in u.perms.subs {
          return DeniedCommand;
        }
        var names := u.perms.subs[c.id];
        var subid := 0;
        while subid < |names| && Lower(argv[1]) != Lower(names[subid])
          invariant subid <= |names|
          invariant forall i :: 0 <= i < subid ==> Lower(argv[1]) != Lower(names[i])
        {
          subid := subid + 1;
        }
        if subid == |names| {
          return DeniedCommand;
        }
      }
    }
    assert MayRun(u.perms, c, argv);
    if !u.keys.allKeys {
      for j := 0 to |keys|
        invariant forall k :: 0 <= k < j ==> MatchesSome(u.keys.patterns, keys[k], match')
      {
        var i := 0;
        while i < |u.keys.patterns| && !match'(u.keys.patterns[i], keys[j])
          invariant i <= |u.keys.patterns|
          invariant forall k :: 0 <= k < i ==> !match'(u.keys.patterns[k], keys[j])
        {
          i := i + 1;
        }
        if i == |u.keys.patterns| {
          FirstIs(u.keys.patterns, keys, j, match');
          return DeniedKey(j);
        }
      }
      NoneDenied(u.keys.patterns, keys, match');
    }
    d := Allowed;
  }

  /** The first key that no pattern matches, or the number of keys. */
  function FirstDenied(patterns: seq<string>, keys: seq<string>, match': Matcher): (n: nat)
    ensures n <= |keys|
    decreases |keys|
  {
    if keys == [] || !MatchesSome(patterns, keys[0], match') then 0 else 1 + FirstDenied(patterns, keys[1..], match')
  }

  function Decide(u: User, c: CommandInfo, argv: seq<string>, keys: seq<string>, match': Matcher): Decision {
    if !MayRun(u.perms, c, argv) then DeniedCommand
    else if u.keys.allKeys || FirstDenied(u.keys.patterns, keys, match') == |keys| then Allowed
    else DeniedKey(FirstDenied(u.keys.patterns, keys, match'))
  }

  lemma {:induction false} FirstIs(patterns: seq<string>, keys: seq<string>, j: nat, match': Matcher)
    requires j < |keys| && !MatchesSome(patterns, keys[j], match')
    requires forall k :: 0 <= k < j ==> MatchesSome(patterns, keys[k], match')
    ensures FirstDenied(patterns, keys, match') == j
    decreases j
  {
    hide MatchesSome;
    if j > 0 {
      FirstIs(patterns, keys[1..], j - 1, match');
    }
  }

  lemma {:induction false} NoneDenied(patterns: seq<string>, keys: seq<string>, match': Matcher)
    requires forall k :: 0 <= k < |keys| ==> MatchesSome(patterns, keys[k], match')
    ensures FirstDenied(patterns, keys, match') == |keys|
    decreases |keys|
  {
    hide MatchesSome;
    if keys != [] {
      NoneDenied(patterns, keys[1..], match');
    }
  }

  /** The user that the printed rules make is allowed and denied exactly what the described user is. */
  lemma {:induction false} SameDecisions(u: User, t: Table, c: CommandInfo, argv: seq<string>, keys: seq<string>,
      match': Matcher)
    requires UserOk(u, t) && TableOk(t) && c in t
    ensures Decide(Normal(u), c, argv, keys, match') == Decide(u, c, argv, keys, match')
  {
    var i :| 0 <= i < |t| && t[i] == c;
    FullBit(t, i);
    FlagIsFull(u.perms, t);
  }

  /** The same user, as far as anyone can tell: everything but the flag that a full bitmap sets. */
  ghost predicate Alike(u: User, v: User) {
    u.status == v.status && u.keys == v.keys && u.perms.bits == v.perms.bits && u.perms.subs == v.perms.subs
  }

  /** The two users are allowed and denied the same. */
  ghost predicate DecideAlike(u: User, v: User, t: Table) {
    forall c, argv, keys, match': Matcher :: c in t ==> Decide(u, c, argv, keys, match') == Decide(v, c, argv, keys, match')
  }

  /**
    The whole round trip: whatever rules made a user, what is printed about it makes, out of a new
    user, one that is alike and is allowed and denied exactly the same.
   */
  method PrintAndRead(rules: seq<Rule>, t: Table) returns (printed: seq<Rule>)
    requires TableOk(t)
    ensures var u, r := AfterAll(NEW_USER, rules, t), ApplyAll(NEW_USER, printed, t);
            r.Ok? && Alike(u, r.value) && DecideAlike(u, r.value, t)
  {
    hide UserOk, TableOk, Decide, AfterAll, ApplyAll;
    var u := AfterAll(NEW_USER, rules, t);
    ReachableUsersOk(rules, t);
    printed := DescribeUser(u, t);
    forall c, argv, keys, match': Matcher | c in t
      ensures Decide(u, c, argv, keys, match') == Decide(Normal(u), c, argv, keys, match')
    {
      SameDecisions(u, t, c, argv, keys, match');
    }
  }
}
