/** A user updated in place by access rules. */
module AclUsers {
  import opened Strings
  import opened AclModel

  lemma {:induction false} SetCategoryOneMore(p: Perms, ids: set<nat>, id: nat, value: bool)
    requires id < BITS
    ensures ResetSubs(if value then SetBit(SetCategory(p, ids, value), id) else ClearBit(SetCategory(p, ids, value), id), {id})
         == SetCategory(p, ids + {id}, value)
  {
    var q := SetCategory(p, ids, value);
    var r := if value then SetBit(q, id) else ClearBit(q, id);
    assert id in ids + {id};
    assert value ==> (p.bits + ids) + {id} == p.bits + (ids + {id});
    assert !value ==> (p.bits - ids) - {id} == p.bits - (ids + {id});
    assert ResetSubs(r, {id}).subs == SetCategory(p, ids + {id}, value).subs;
  }

  lemma {:induction false} SetCategoryNothing(p: Perms, value: bool)
    ensures SetCategory(p, {}, value) == p
  {
    assert SetCategory(p, {}, value).subs == p.subs;
    assert p.bits + {} == p.bits && p.bits - {} == p.bits;
  }

  lemma {:induction false} InCategorySnoc(t: Table, i: nat, cat: Category)
    requires i < |t|
    ensures InCategory(t[..i + 1], cat) ==
            InCategory(t[..i], cat) + if !t[i].isModule && cat in t[i].categories then {t[i].id} else {}
  {
    assert t[..i + 1] == t[..i] + [t[i]];
    var c := t[i];
    assert c in t[..i + 1];
  }

  lemma {:induction false} ApplyToStatus(u: User, rule: Rule, t: Table)
    requires rule.On? || rule.Off? || rule.NoPass? || rule.ResetPass? || rule.AddPassword? || rule.DelPassword?
    ensures var s := ApplyStatus(u.status, rule); Apply(u, rule, t) == if s.Ok? then Ok(u.(status := s.value)) else Err(s.error)
  {
    hide ApplyStatus;
  }

  lemma {:induction false} ApplyToKeys(u: User, rule: Rule, t: Table)
    requires rule.AllKeys? || rule.ResetKeys? || rule.AddPattern?
    ensures var k := ApplyKeys(u.keys, rule); Apply(u, rule, t) == if k.Ok? then Ok(u.(keys := k.value)) else Err(k.error)
  {
    hide ApplyKeys;
  }

  lemma {:induction false} ApplyToPerms(u: User, rule: Rule, t: Table)
    requires AboutCommands(rule)
    ensures var p := ApplyPerms(u.perms, rule, t); Apply(u, rule, t) == if p.Ok? then Ok(u.(perms := p.value)) else Err(p.error)
  {
    hide ApplyPerms;
  }

  lemma {:induction false} ApplyAtOnce(u: User, rule: Rule, t: Table)
    ensures rule.Nothing? ==> Apply(u, rule, t) == Ok(u)
    ensures rule.Unknown? ==> Apply(u, rule, t) == Err(Inval)
    ensures rule.Reset? ==> Apply(u, rule, t) == Ok(User(Status(false, true, false, []), KeyRules(false, []), Perms({}, false, map[])))
  {
    hide ApplyStatus, ApplyKeys, ApplyPerms;
  }

  class AclUser {
    var enabled: bool
    var disabled: bool
    var noPass: bool
    var passwords: seq<string>
    var allKeys: bool
    var patterns: seq<string>
    var bits: set<nat>
    var allCommands: bool
    var subs: map<nat, seq<string>>

    function ViewPerms(): Perms
      reads this
    {
      Perms(bits, allCommands, subs)
    }

    function View(): User
      reads this
    {
      User(Status(enabled, disabled, noPass, passwords), KeyRules(allKeys, patterns), ViewPerms())
    }

    /** ACLCreateUser: a new user is off and may do nothing. */
    constructor ()
      ensures View() == NEW_USER
    {
      enabled, disabled, noPass, passwords := false, true, false, [];
      allKeys, patterns := false, [];
      bits, allCommands, subs := {}, false, map[];
    }

    method SetCommandBit(id: nat, value: bool)
      modifies this`bits, this`allCommands
      ensures ViewPerms() == if value then SetBit(old(ViewPerms()), id) else ClearBit(old(ViewPerms()), id)
    {
      if id < BITS {
        if value {
          bits := bits + {id};
        } else {
          bits := bits - {id};
          allCommands := false;
        }
      }
    }

    method ResetSubcommandsForCommand(id: nat)
      modifies this`subs
      ensures ViewPerms() == ResetSubs(old(ViewPerms()), {id})
    {
      subs := subs - {id};
      assert subs == ResetSubs(old(ViewPerms()), {id}).subs;
    }

    /** ACLAddAllowedSubcommand: appended unless it is already there in any case. */
    method AddAllowedSubcommand(id: nat, sub: string)
      modifies this`subs
      ensures ViewPerms() == AddSubcommand(old(ViewPerms()), id, sub)
    {
      hide Lower;
      var names := if id in subs then subs[id] else [];
      var items := 0;
      while items < |names|
        invariant items <= |names|
        invariant forall i :: 0 <= i < items ==> Lower(names[i]) != Lower(sub)
      {
        if Lower(names[items]) == Lower(sub) {
          return;
        }
        items := items + 1;
      }
      subs := subs[id := names + [sub]];
    }

    /** ACLSetUserCommandBitsForCategory: every command of the category that is not a module's. */
    method SetCommandBitsForCategory(t: Table, cat: Category, value: bool) returns (ok: bool)
      requires TableOk(t)
      modifies this`bits, this`allCommands, this`subs
      ensures ok == (cat < CATEGORIES)
      ensures ViewPerms() == if ok then SetCategory(old(ViewPerms()), InCategory(t, cat), value) else old(ViewPerms())
    {
      if cat >= CATEGORIES {
        return false;
      }
      ok := true;
      hide SetCategory, InCategory, SetBit, ClearBit, ResetSubs, Lower;
      SetCategoryNothing(ViewPerms(), value);
      assert InCategory(t[..0], cat) == {} by {
        NoneInCategory(cat);
      }
      for i := 0 to |t|
        invariant ViewPerms() == SetCategory(old(ViewPerms()), InCategory(t[..i], cat), value)
      {
        InCategorySnoc(t, i, cat);
        if !t[i].isModule && cat in t[i].categories {
          SetCategoryOneMore(old(ViewPerms()), InCategory(t[..i], cat), t[i].id, value);
          SetCommandBit(t[i].id, value);
          ResetSubcommandsForCommand(t[i].id);
        } else {
          assert InCategory(t[..i], cat) + {} == InCategory(t[..i], cat);
        }
      }
      assert t[..|t|] == t;
    }

    /** The rules about commands. */
    method SetPerms(rule: Rule, t: Table) returns (r: Result<bool>)
      requires TableOk(t)
      requires AboutCommands(rule)
      modifies this`bits, this`allCommands, this`subs
      ensures var s := ApplyPerms(old(ViewPerms()), rule, t);
              if s.Ok? then r.Ok? && ViewPerms() == s.value else r == Err(s.error) && ViewPerms() == old(ViewPerms())
    {
      hide SetCategory, InCategory, SetBit, ClearBit, ResetSubs, TableOk, AddSubcommand;
      r := Ok(true);
      match rule {
        case AllCommands =>
          bits, allCommands, subs := AllBits(), true, map[];
        case NoCommands =>
          bits, allCommands, subs := {}, false, map[];
        case AddCommand(name) =>
          var i := Find(t, name);
          if i == -1 {
            return Err(NoEnt);
          }
          SetCommandBit(t[i].id, true);
          ResetSubcommandsForCommand(t[i].id);
        case DelCommand(name) =>
          var i := Find(t, name);
          if i == -1 {
            return Err(NoEnt);
          }
          SetCommandBit(t[i].id, false);
          ResetSubcommandsForCommand(t[i].id);
        case AddSub(name, sub) =>
          var i := Find(t, name);
          if i == -1 {
            return Err(NoEnt);
          }
          if sub == "" {
            return Err(Inval);
          }
          if t[i].id in bits {
            return Err(Busy);
          }
          AddAllowedSubcommand(t[i].id, sub);
          SetCommandBit(t[i].id, false);
        case AddCategory(cat) =>
          var ok := SetCommandBitsForCategory(t, cat, true);
          if !ok {
            return Err(NoEnt);
          }
        case DelCategory(cat) =>
          var ok := SetCommandBitsForCategory(t, cat, false);
          if !ok {
            return Err(NoEnt);
          }
      }
    }

    /** The rules about the state of the user and its passwords. */
    method SetStatus(rule: Rule) returns (r: Result<bool>)
      requires rule.On? || rule.Off? || rule.NoPass? || rule.ResetPass? || rule.AddPassword? || rule.DelPassword?
      modifies this`enabled, this`disabled, this`noPass, this`passwords
      ensures var s := ApplyStatus(old(View()).status, rule);
              if s.Ok? then r.Ok? && View().status == s.value else r == Err(s.error) && View().status == old(View()).status
    {
      hide HashOk;
      match rule {
        case On => enabled, disabled := true, false;
        case Off => enabled, disabled := false, true;
        case NoPass => noPass, passwords := true, [];
        case ResetPass => noPass, passwords := false, [];
        case AddPassword(hash) =>
          if !HashOk(hash) {
            return Err(BadMsg);
          }
          if hash !in passwords {
            passwords := passwords + [hash];
          }
          noPass := false;
        case DelPassword(hash) =>
          if !HashOk(hash) {
            return Err(BadMsg);
          }
          if hash !in passwords {
            return Err(NoDev);
          }
          passwords := Remove(passwords, hash);
      }
      r := Ok(true);
    }

    /** The rules about the keys the user may name. */
    method SetKeys(rule: Rule) returns (r: Result<bool>)
      requires rule.AllKeys? || rule.ResetKeys? || rule.AddPattern?
      modifies this`allKeys, this`patterns
      ensures var s := ApplyKeys(old(View()).keys, rule);
              if s.Ok? then r.Ok? && View().keys == s.value else r == Err(s.error) && View().keys == old(View()).keys
    {
      hide HasSpaces;
      match rule {
        case AllKeys => allKeys, patterns := true, [];
        case ResetKeys => allKeys, patterns := false, [];
        case AddPattern(p) =>
          if p == "*" {
            allKeys, patterns := true, [];
          } else {
            if allKeys {
              return Err(Exist);
            }
            if HasSpaces(p) {
              return Err(Inval);
            }
            if p !in patterns {
              patterns := patterns + [p];
            }
            allKeys := false;
          }
      }
      r := Ok(true);
    }

    /** ACLSetUser: what the rule does, or an error and no change. */
    method SetUser(rule: Rule, t: Table) returns (r: Result<bool>)
      requires TableOk(t)
      modifies this
      ensures var s := Apply(old(View()), rule, t);
              if s.Ok? then r.Ok? && View() == s.value else r == Err(s.error) && View() == old(View())
    {
      hide Apply, ApplyPerms, ApplyStatus, ApplyKeys, TableOk;
      ApplyAtOnce(View(), rule, t);
      r := Ok(true);
      match rule {
        case Nothing =>
        case Unknown => return Err(Inval);
        case Reset =>
          noPass, passwords := false, [];
          allKeys, patterns := false, [];
          enabled, disabled := false, true;
          bits, allCommands, subs := {}, false, map[];
        case On | Off | NoPass | ResetPass | AddPassword(_) | DelPassword(_) =>
          ApplyToStatus(View(), rule, t);
          r := SetStatus(rule);
        case AllKeys | ResetKeys | AddPattern(_) =>
          ApplyToKeys(View(), rule, t);
          r := SetKeys(rule);
        case _ =>
          ApplyToPerms(View(), rule, t);
          r := SetPerms(rule, t);
      }
    }
  }

  lemma {:induction false} NoneInCategory(cat: Category)
    ensures InCategory([], cat) == {}
  {
  }
}
