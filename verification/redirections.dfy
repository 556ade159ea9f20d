/**
  A client that follows its redirections while a slot is moved: where it ends, and after how many visits.
 */
module Redirections {
  import opened SlotTables
  import opened Resharding

  /** A node that is asked, with ASKING before the command or without it. */
  datatype Visit = Visit(at: Side, asking: bool)

  /** The node of a redirection, if it is one of the two. */
  function SideOf(w: World, n: NodeId): Option<Side> {
    if n == w.src.myself then Some(Source) else if n == w.dst.myself then Some(Destination) else None
  }

  /** The visit that a client makes next: MOVED is followed plainly, ASK with ASKING. */
  function Follow(w: World, r: Route): Option<Visit> {
    match r
    case Moved(n) => if SideOf(w, n).Some? then Some(Visit(SideOf(w, n).value, false)) else None
    case Ask(n) => if SideOf(w, n).Some? then Some(Visit(SideOf(w, n).value, true)) else None
    case _ => None
  }

  /** A command on one key is served within a number of visits. */
  ghost predicate ServedWithin(w: World, v: Visit, k: Key, visits: nat)
    decreases visits
  {
    visits > 0 &&
    (var r := RouteAt(w, v.at, [k], v.asking);
     r.Serve? || (Follow(w, r).Some? && ServedWithin(w, Follow(w, r).value, k, visits - 1)))
  }

  /** The source sends clients to the destination. */
  ghost predicate SentAway(w: World, k: Key) {
    Get(w.src.owner, w.slot) == Some(w.dst.myself) || (Migrating(w.src, w.slot) && k !in w.srcData)
  }

  /** The destination takes them in: for good once it owns the slot, and those that say ASKING while it imports it. */
  ghost predicate TakenIn(w: World) {
    || Get(w.dst.owner, w.slot) == Some(w.dst.myself)
    || (Get(w.src.owner, w.slot) == Some(w.src.myself) && w.slot in w.dst.importing)
  }

  lemma {:induction false} OneKey(w: World, v: Visit, k: Key)
    requires Inv(w) && k.slot == w.slot
    ensures RouteAt(w, v.at, [k], v.asking) ==
            match v.at
            case Source =>
              if w.src.owner[w.slot] != w.src.myself then Moved(w.dst.myself)
              else if Migrating(w.src, w.slot) && k !in w.srcData then Ask(w.dst.myself)
              else Serve
            case Destination =>
              if w.dst.owner[w.slot] == w.dst.myself || (v.asking && w.slot in w.dst.importing) then Serve
              else Moved(w.src.myself)
  {
    assert [k][0] == k && !Several([k], k);
    assert SomeMissing(w.srcData.Keys, [k]) <==> k !in w.srcData;
  }

  /** Redirections lead home: the key is served within three visits, wherever the client starts. */
  lemma {:induction false} ServedInThree(w: World, v: Visit, k: Key)
    requires Inv(w) && k.slot == w.slot && (SentAway(w, k) ==> TakenIn(w))
    ensures ServedWithin(w, v, k, 3)
  {
    hide Inv, RouteAt;
    OneKey(w, v, k);
    OneKey(w, Visit(Source, false), k);
    OneKey(w, Visit(Destination, false), k);
    OneKey(w, Visit(Destination, true), k);
    TwoNodes(w);
    var r := RouteAt(w, v.at, [k], v.asking);
    if !r.Serve? {
      var u := Follow(w, r).value;
      var q := RouteAt(w, u.at, [k], u.asking);
      if !q.Serve? {
        assert ServedWithin(w, Follow(w, q).value, k, 1);
      }
      assert ServedWithin(w, u, k, 2);
    }
  }

  lemma {:induction false} TwoNodes(w: World)
    requires Inv(w)
    ensures w.src.myself != w.dst.myself && w.slot in w.src.owner && w.slot in w.dst.owner
    ensures w.src.owner[w.slot] in {w.src.myself, w.dst.myself} && w.dst.owner[w.slot] in {w.src.myself, w.dst.myself}
    ensures w.dst.owner[w.slot] == w.dst.myself ==> w.srcData == map[] && (Migrating(w.src, w.slot) || w.src.owner[w.slot] == w.dst.myself)
  {
  }

  /** Otherwise the two nodes send the client back and forth for ever. */
  lemma {:induction false} NeverServed(w: World, at: Side, k: Key, visits: nat)
    requires Inv(w) && k.slot == w.slot && SentAway(w, k) && !TakenIn(w)
    ensures !ServedWithin(w, Visit(at, false), k, visits)
    ensures Get(w.src.owner, w.slot) == Some(w.src.myself) ==> !ServedWithin(w, Visit(Destination, true), k, visits)
    decreases visits
  {
    hide Inv, RouteAt;
    if visits > 0 {
      NeverServed(w, Source, k, visits - 1);
      NeverServed(w, Destination, k, visits - 1);
      OneKey(w, Visit(Source, false), k);
      OneKey(w, Visit(Destination, false), k);
      OneKey(w, Visit(Destination, true), k);
      TwoNodes(w);
    }
  }

  lemma {:induction false} SlotStays(w: World, run: seq<Step>)
    requires IsRun(w, run)
    ensures Final(w, run).slot == w.slot
    decreases |run|
  {
    hide RouteAt;
    if run != [] {
      SlotStays(Next(w, run[0]), run[1..]);
    }
  }

  /**
    In every state that commands, MIGRATE and SETSLOT can lead to, a command on one key is served within three
    visits, wherever the client starts, exactly when the destination takes in whom the source sends away; if
    it does not, no number of visits is enough.
   */
  lemma {:induction false} RedirectionsLeadHome(w: World, run: seq<Step>, at: Side, k: Key, visits: nat)
    requires Init(w) && IsRun(w, run) && k.slot == w.slot
    ensures var f := Final(w, run);
            && (ServedWithin(f, Visit(at, false), k, 3) <==> (SentAway(f, k) ==> TakenIn(f)))
            && (SentAway(f, k) && !TakenIn(f) ==> !ServedWithin(f, Visit(at, false), k, visits))
  {
    assert Inv(w) by {
      forall k ensures OneCopy(w, k) {
      }
    }
    hide Inv, Next, Enabled, RouteAt, ServedWithin, SentAway, TakenIn;
    RunKeepsInv(w, run);
    SlotStays(w, run);
    var f := Final(w, run);
    if SentAway(f, k) && !TakenIn(f) {
      NeverServed(f, at, k, 3);
      NeverServed(f, at, k, visits);
    } else {
      ServedInThree(f, Visit(at, false), k);
    }
  }

  /** It happens: a slot without keys, given away at the source before the destination has taken it. */
  lemma {:induction false} ClosedTooEarly(w: World, at: Side, k: Key, visits: nat)
    requires Init(w) && w.srcData == map[] && k.slot == w.slot
    ensures IsRun(w, [CloseSource]) && !ServedWithin(Final(w, [CloseSource]), Visit(at, false), k, visits)
  {
    assert [CloseSource][1..] == [];
    assert IsRun(Next(w, CloseSource), []);
    var f := Final(w, [CloseSource]);
    assert f == Next(w, CloseSource);
    RedirectionsLeadHome(w, [CloseSource], at, k, visits);
  }
}
