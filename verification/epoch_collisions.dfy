/**
  The config epoch conflict resolution of Redis Cluster: masters exchange
  headers, late and repeated ones included, and only
  clusterHandleConfigEpochCollision changes a config epoch.
 */
module EpochCollisions {
  import opened SlotTables
  import opened ClusterModel

  /** The epochs of one master: its current epoch and the config epochs it knows, its own included. */
  datatype Master = Master(currentEpoch: nat, epochs: map<NodeId, nat>)

  datatype Announcement = Announcement(sender: NodeId, currentEpoch: nat, configEpoch: nat)

  /**
    `moves[n]` counts how often n changed its config epoch and `past[n]` holds the epochs it gave up;
    no handler reads them.
   */
  datatype Group = Group(masters: map<NodeId, Master>, moves: map<NodeId, nat>, past: map<NodeId, set<nat>>)

  /** The masters and every announcement ever sent. */
  datatype World = World(g: Group, sent: set<Announcement>)

  datatype Step = Send(n: NodeId) | Deliver(n: NodeId, h: Announcement)

  /** What master `me` does with a header: learn its epochs, then resolve a collision. */
  function Hear(me: NodeId, m: Master, h: Announcement): Master
    requires me in m.epochs && h.sender in m.epochs
  {
    var cur := Max(m.currentEpoch, h.currentEpoch);
    var known := m.epochs[h.sender := Max(m.epochs[h.sender], h.configEpoch)];
    if h.configEpoch == known[me] && known[h.sender] == known[me] && me < h.sender
    then Master(cur + 1, known[me := cur + 1])
    else Master(cur, known)
  }

  function EpochsOf(c: Cluster): Master {
    Master(c.currentEpoch, map n | n in c.nodes :: c.nodes[n].configEpoch)
  }

  lemma {:induction false} LearnEpochsOf(c: Cluster, p: Packet)
    requires p.sender in c.nodes
    ensures EpochsOf(LearnEpochs(c, p)) ==
            Master(Max(c.currentEpoch, p.currentEpoch),
                   EpochsOf(c).epochs[p.sender := Max(c.nodes[p.sender].configEpoch, p.configEpoch)])
  {
  }

  lemma {:induction false} ResolveEpochsOf(c: Cluster, p: Packet)
    requires c.myself in c.nodes && p.sender in c.nodes && c.nodes[p.sender].master && c.nodes[c.myself].master
    ensures var m := EpochsOf(c);
            EpochsOf(ResolveCollision(c, p)) ==
            if p.configEpoch == m.epochs[c.myself] && m.epochs[p.sender] == m.epochs[c.myself] && c.myself < p.sender
            then Master(m.currentEpoch + 1, m.epochs[c.myself := m.currentEpoch + 1]) else m
  {
  }

  /** Nothing between the two touches an epoch, and the sender counts as a master. */
  lemma {:induction false} ClaimKeepsEpochs(c: Cluster, p: Packet)
    requires c.myself in c.nodes && p.sender in c.nodes && p.sender in c.t.bits && p.sender != c.myself
    requires p.slaveof == None
    ensures var d := AbsorbClaim(SwitchRole(c, p), p);
            d.myself == c.myself && EpochsOf(d) == EpochsOf(c) && d.nodes.Keys == c.nodes.Keys && d.nodes[p.sender].master
  {
    SwitchKeepsEpochs(c, p);
    hide SwitchRole;
    AbsorbKeepsEpochs(SwitchRole(c, p), p);
  }

  lemma {:induction false} SwitchKeepsEpochs(c: Cluster, p: Packet)
    requires c.myself in c.nodes && p.sender in c.nodes && p.sender in c.t.bits && p.slaveof == None
    ensures var d := SwitchRole(c, p);
            d.myself == c.myself && EpochsOf(d) == EpochsOf(c) && d.nodes.Keys == c.nodes.Keys && d.nodes[p.sender].master
  {
  }

  lemma {:induction false} AbsorbKeepsEpochs(c: Cluster, p: Packet)
    requires c.myself in c.nodes && p.sender in c.nodes && p.sender != c.myself && c.nodes[p.sender].master
    ensures var d := AbsorbClaim(c, p);
            d.myself == c.myself && EpochsOf(d) == EpochsOf(c) && d.nodes.Keys == c.nodes.Keys && d.nodes[p.sender].master
  {
    hide Rebind, Taken, SlotsLost, Dirty, EpochsOf, Follows;
    UpdateSlotsKeepsEpochs(c, p.sender, p.configEpoch, p.slots);
    SameEpochsOf(c, AbsorbClaim(c, p));
  }

  lemma {:induction false} SameEpochsOf(c: Cluster, d: Cluster)
    requires SameEpochs(c, d) || c == d
    ensures EpochsOf(c) == EpochsOf(d)
  {
  }

  /** Hear is the epoch part of clusterProcessPacket for a PING between two nodes that are and stay masters. */
  lemma {:induction false} PingHears(c: Cluster, p: Packet)
    requires WellFormed(c) && p.kind == Ping && p.slaveof == None && p.sender in c.nodes && p.sender != c.myself
    requires AbsorbClaim(SwitchRole(LearnEpochs(c, p), p), p).nodes[c.myself].master
    ensures EpochsOf(Receive(c, p, false)) == Hear(c.myself, EpochsOf(c), Announcement(p.sender, p.currentEpoch, p.configEpoch))
  {
    assert LearnEpochs(c, p).myself == c.myself && LearnEpochs(c, p).nodes.Keys == c.nodes.Keys && LearnEpochs(c, p).t == c.t;
    hide LearnEpochs, SwitchRole, AbsorbClaim, ResolveCollision;
    LearnEpochsOf(c, p);
    ClaimKeepsEpochs(LearnEpochs(c, p), p);
    ResolveEpochsOf(AbsorbClaim(SwitchRole(LearnEpochs(c, p), p), p), p);
  }

  // ---------------------------------------------------------------- runs

  function Known(m: Master, n: NodeId): nat {
    if n in m.epochs then m.epochs[n] else 0
  }

  /** The config epoch of n. */
  function Own(g: Group, n: NodeId): nat {
    if n in g.masters then Known(g.masters[n], n) else 0
  }

  function AnnouncementOf(g: Group, n: NodeId): Announcement
    requires n in g.masters
  {
    Announcement(n, g.masters[n].currentEpoch, Own(g, n))
  }

  predicate CanHear(g: Group, n: NodeId, h: Announcement) {
    && n in g.masters && n in g.moves && n in g.past && h.sender != n
    && n in g.masters[n].epochs && h.sender in g.masters[n].epochs
  }

  /** Master n processes announcement h. */
  function Deliver1(g: Group, n: NodeId, h: Announcement): Group
    requires CanHear(g, n, h)
  {
    var m := Hear(n, g.masters[n], h);
    if m.epochs[n] == Own(g, n) then g.(masters := g.masters[n := m])
    else Group(g.masters[n := m], g.moves[n := g.moves[n] + 1], g.past[n := g.past[n] + {Own(g, n)}])
  }

  ghost predicate Enabled(w: World, step: Step) {
    match step
    case Send(n) => n in w.g.masters
    case Deliver(n, h) => h in w.sent && CanHear(w.g, n, h)
  }

  ghost function Next(w: World, step: Step): World
    requires Enabled(w, step)
  {
    match step
    case Send(n) => w.(sent := w.sent + {AnnouncementOf(w.g, n)})
    case Deliver(n, h) => w.(g := Deliver1(w.g, n, h))
  }

  // ---------------------------------------------------------------- invariant

  /** x is or was the config epoch of n. */
  ghost predicate Held(g: Group, n: NodeId, x: nat) {
    n in g.masters && n in g.past && (x == Own(g, n) || x in g.past[n])
  }

  ghost predicate MasterOk(g: Group, n: NodeId) {
    && n in g.masters && n in g.moves && n in g.past
    && g.masters[n].epochs.Keys == g.masters.Keys
    && Own(g, n) <= g.masters[n].currentEpoch
    && g.moves[n] == |g.past[n]| && (forall x :: x in g.past[n] ==> x < Own(g, n))
  }

  ghost predicate AnnouncementOk(g: Group, h: Announcement) {
    Held(g, h.sender, h.configEpoch) && h.configEpoch <= h.currentEpoch
  }

  /** A value that n gave up is or was the value of a master with a greater name. */
  ghost predicate GivenUpOk(g: Group, n: NodeId, x: nat) {
    exists j :: n < j && Held(g, j, x)
  }

  /** Nobody believes another master to be further than it is. */
  ghost predicate KnownOk(g: Group, n: NodeId, j: NodeId) {
    n in g.masters && j in g.masters ==> Known(g.masters[n], j) <= Own(g, j)
  }

  ghost predicate GroupOk(g: Group) {
    && g.past.Keys == g.masters.Keys
    && (forall n {:trigger MasterOk(g, n)} :: n in g.masters ==> MasterOk(g, n))
    && (forall n, x {:trigger GivenUpOk(g, n, x)} :: n in g.past && x in g.past[n] ==> GivenUpOk(g, n, x))
    && (forall n, j :: KnownOk(g, n, j))
  }

  ghost predicate Inv(w: World) {
    GroupOk(w.g) && (forall h {:trigger AnnouncementOk(w.g, h)} :: h in w.sent ==> AnnouncementOk(w.g, h))
  }

  /** Nothing sent yet; every master knows all others, none further than it is. */
  ghost predicate Init(w: World) {
    && w.sent == {} && w.g.past.Keys == w.g.masters.Keys
    && (forall n :: n in w.g.masters ==> MasterOk(w.g, n) && w.g.past[n] == {})
    && (forall n, j :: KnownOk(w.g, n, j))
  }

  /** What an announcement does to the master that hears it. */
  lemma {:induction false} HearIsLocal(g: Group, n: NodeId, h: Announcement)
    requires GroupOk(g) && CanHear(g, n, h) && AnnouncementOk(g, h)
    ensures var g' := Deliver1(g, n, h);
            && MasterOk(g', n) && Own(g, n) <= Own(g', n)
            && g'.masters == g.masters[n := g'.masters[n]]
            && (if Own(g', n) == Own(g, n) then g'.past == g.past && g'.moves == g.moves
                else && n < h.sender && h.configEpoch == Own(g, n)
                     && g'.past == g.past[n := g.past[n] + {Own(g, n)}]
                     && g'.moves == g.moves[n := g.moves[n] + 1])
  {
    assert MasterOk(g, n);
  }

  lemma {:induction false} HearKeepsHeld(g: Group, n: NodeId, h: Announcement, j: NodeId, x: nat)
    requires GroupOk(g) && CanHear(g, n, h) && AnnouncementOk(g, h) && Held(g, j, x)
    ensures Held(Deliver1(g, n, h), j, x)
  {
    HearIsLocal(g, n, h);
  }

  lemma {:induction false} HearKeepsMasters(g: Group, n: NodeId, h: Announcement, m: NodeId)
    requires GroupOk(g) && CanHear(g, n, h) && AnnouncementOk(g, h) && m in g.masters
    ensures MasterOk(Deliver1(g, n, h), m)
  {
    HearIsLocal(g, n, h);
    hide Deliver1;
    assert MasterOk(g, m);
  }

  lemma {:induction false} HearKeepsKnown(g: Group, n: NodeId, h: Announcement, m: NodeId, j: NodeId)
    requires GroupOk(g) && CanHear(g, n, h) && AnnouncementOk(g, h)
    ensures KnownOk(Deliver1(g, n, h), m, j)
  {
    HearIsLocal(g, n, h);
    assert KnownOk(g, m, j) && MasterOk(g, n) && MasterOk(g, h.sender);
  }

  lemma {:induction false} HearKeepsGivenUp(g: Group, n: NodeId, h: Announcement, m: NodeId, x: nat)
    requires GroupOk(g) && CanHear(g, n, h) && AnnouncementOk(g, h)
    requires m in Deliver1(g, n, h).past && x in Deliver1(g, n, h).past[m]
    ensures GivenUpOk(Deliver1(g, n, h), m, x)
  {
    HearIsLocal(g, n, h);
    hide Deliver1;
    if x in g.past[m] {
      assert GivenUpOk(g, m, x);
      var j :| m < j && Held(g, j, x);
      HearKeepsHeld(g, n, h, j, x);
    } else {
      HearKeepsHeld(g, n, h, h.sender, x);
    }
  }

  lemma {:induction false} HearKeepsKeys(g: Group, n: NodeId, h: Announcement)
    requires g.past.Keys == g.masters.Keys && CanHear(g, n, h)
    ensures Deliver1(g, n, h).past.Keys == Deliver1(g, n, h).masters.Keys == g.masters.Keys
  {
  }

  lemma {:induction false} HearKeepsGroup(g: Group, n: NodeId, h: Announcement)
    requires GroupOk(g) && CanHear(g, n, h) && AnnouncementOk(g, h)
    ensures GroupOk(Deliver1(g, n, h)) && Deliver1(g, n, h).masters.Keys == g.masters.Keys
  {
    hide Deliver1, MasterOk, KnownOk, GivenUpOk, AnnouncementOk, CanHear;
    var g' := Deliver1(g, n, h);
    HearKeepsKeys(g, n, h);
    forall m | m in g'.masters ensures MasterOk(g', m) {
      HearKeepsMasters(g, n, h, m);
    }
    forall m, x | m in g'.past && x in g'.past[m] ensures GivenUpOk(g', m, x) {
      HearKeepsGivenUp(g, n, h, m, x);
    }
    forall m, j ensures KnownOk(g', m, j) {
      HearKeepsKnown(g, n, h, m, j);
    }
  }

  lemma {:induction false} DeliverKeepsInv(w: World, n: NodeId, h: Announcement)
    requires Inv(w) && Enabled(w, Deliver(n, h))
    ensures Inv(Next(w, Deliver(n, h))) && Next(w, Deliver(n, h)).g.masters.Keys == w.g.masters.Keys
  {
    hide Deliver1, GroupOk, Held, CanHear;
    assert AnnouncementOk(w.g, h);
    HearKeepsGroup(w.g, n, h);
    forall x | x in w.sent ensures AnnouncementOk(Deliver1(w.g, n, h), x) {
      assert AnnouncementOk(w.g, x);
      HearKeepsHeld(w.g, n, h, x.sender, x.configEpoch);
    }
  }

  lemma {:induction false} NextKeepsInv(w: World, step: Step)
    requires Inv(w) && Enabled(w, step)
    ensures Inv(Next(w, step)) && Next(w, step).g.masters.Keys == w.g.masters.Keys
  {
    match step {
      case Deliver(n, h) => DeliverKeepsInv(w, n, h);
      case Send(n) =>
        assert MasterOk(w.g, n);
        forall x | x in Next(w, step).sent ensures AnnouncementOk(w.g, x) {
          assert x in w.sent ==> AnnouncementOk(w.g, x);
        }
    }
  }

  // ---------------------------------------------------------------- how often a master moves

  function Above(all: set<NodeId>, n: NodeId): set<NodeId> {
    set j | j in all && n < j
  }

  /** All config epochs the masters of `s` have or had. */
  ghost function ValuesOf(g: Group, s: set<NodeId>): set<nat>
    requires s <= g.past.Keys
    decreases |s|
  {
    if s == {} then {}
    else
      var j :| j in s;
      ValuesOf(g, s - {j}) + g.past[j] + {Own(g, j)}
  }

  lemma {:induction false} ValuesOfHas(g: Group, s: set<NodeId>, x: nat)
    requires s <= g.past.Keys && s <= g.masters.Keys
    ensures x in ValuesOf(g, s) <==> exists j :: j in s && Held(g, j, x)
    decreases |s|
  {
    if s != {} {
      var j :| j in s && ValuesOf(g, s) == ValuesOf(g, s - {j}) + g.past[j] + {Own(g, j)};
      ValuesOfHas(g, s - {j}, x);
      if x in ValuesOf(g, s) && !Held(g, j, x) {
        var i :| i in s - {j} && Held(g, i, x);
        assert i in s && Held(g, i, x);
      }
      if i :| i in s && Held(g, i, x) {
        assert i == j || i in s - {j};
      }
    }
  }

  lemma {:induction false} Smallest(s: set<NodeId>) returns (m: NodeId)
    requires s != {}
    ensures m in s && forall j :: j in s ==> m <= j
    decreases |s|
  {
    m :| m in s;
    if s != {m} {
      var rest := s - {m};
      var r := Smallest(rest);
      assert forall j :: j in s ==> j == m || j in rest;
      if r < m {
        m := r;
      }
    }
  }

  lemma {:induction false} SubsetSize(a: set<nat>, b: set<nat>)
    requires a <= b
    ensures |a| <= |b|
  {
    assert b == a + (b - a);
  }

  /** What n gave up is held above n. */
  lemma {:induction false} PastIsAbove(g: Group, n: NodeId)
    requires GroupOk(g) && n in g.past
    ensures g.past[n] <= ValuesOf(g, Above(g.past.Keys, n))
  {
    forall x | x in g.past[n] ensures x in ValuesOf(g, Above(g.past.Keys, n)) {
      assert GivenUpOk(g, n, x);
      var j :| n < j && Held(g, j, x);
      assert j in Above(g.past.Keys, n);
      ValuesOfHas(g, Above(g.past.Keys, n), x);
    }
  }

  /** The masters above n have had at most as many different config epochs as there are of them. */
  lemma {:induction false} FewValuesAbove(g: Group, n: NodeId)
    requires GroupOk(g)
    ensures |ValuesOf(g, Above(g.past.Keys, n))| <= |Above(g.past.Keys, n)|
    decreases |Above(g.past.Keys, n)|
  {
    var s := Above(g.past.Keys, n);
    if s != {} {
      var m := Smallest(s);
      var rest := Above(g.past.Keys, m);
      assert s == rest + {m} && m !in rest;
      assert |s| == |rest| + 1;
      FewValuesAbove(g, m);
      PastIsAbove(g, m);
      OneMoreValue(g, rest, m);
    }
  }

  /** A master that gave up only values of `rest` adds at most one value of its own. */
  lemma {:induction false} OneMoreValue(g: Group, rest: set<NodeId>, m: NodeId)
    requires rest + {m} <= g.past.Keys && g.past.Keys == g.masters.Keys && g.past[m] <= ValuesOf(g, rest)
    ensures |ValuesOf(g, rest + {m})| <= |ValuesOf(g, rest)| + 1
  {
    var all := ValuesOf(g, rest) + {Own(g, m)};
    forall x | x in ValuesOf(g, rest + {m}) ensures x in all {
      ValuesOfHas(g, rest + {m}, x);
      var j :| j in rest + {m} && Held(g, j, x);
      if j in rest {
        ValuesOfHas(g, rest, x);
      }
    }
    SubsetSize(ValuesOf(g, rest + {m}), all);
  }

  /**
    A master moves its config epoch at most once for every master with a greater name: the one with
    the greatest name never moves.
   */
  lemma {:induction false} MovesAreFew(g: Group, n: NodeId)
    requires GroupOk(g) && n in g.masters
    ensures n in g.moves && g.moves[n] <= |Above(g.masters.Keys, n)|
  {
    assert MasterOk(g, n);
    PastIsAbove(g, n);
    SubsetSize(g.past[n], ValuesOf(g, Above(g.past.Keys, n)));
    FewValuesAbove(g, n);
  }

  // ---------------------------------------------------------------- when it stops

  /** Announcement h, however old, makes n move. */
  ghost predicate MovesOn(g: Group, n: NodeId, h: Announcement) {
    CanHear(g, n, h) && Own(Deliver1(g, n, h), n) != Own(g, n)
  }

  /** The announcement j would send now makes n move. */
  ghost predicate Moves(g: Group, n: NodeId, j: NodeId) {
    j in g.masters && MovesOn(g, n, AnnouncementOf(g, j))
  }

  /** No announcement that could be sent now would make its receiver move. */
  ghost predicate Quiescent(g: Group) {
    forall n, j :: !Moves(g, n, j)
  }

  /** Neither would any that is in flight. */
  ghost predicate AtRest(w: World) {
    Quiescent(w.g) && forall n, h :: h in w.sent ==> !MovesOn(w.g, n, h)
  }

  /** An old announcement of j with the config epoch that n has now, when n knows j no further than that. */
  ghost predicate Collides(g: Group, n: NodeId, h: Announcement) {
    CanHear(g, n, h) && n < h.sender && h.configEpoch == Own(g, n) && Known(g.masters[n], h.sender) <= Own(g, n)
  }

  lemma {:induction false} MovesOnIff(g: Group, n: NodeId, h: Announcement)
    requires GroupOk(g)
    ensures MovesOn(g, n, h) <==> Collides(g, n, h)
  {
    assert n in g.masters ==> MasterOk(g, n);
  }

  ghost predicate Distinct(g: Group) {
    forall n, j :: n in g.masters && j in g.masters && n != j ==> Own(g, n) != Own(g, j)
  }

  /** n moves exactly when a master with a greater name has the same config epoch. */
  lemma {:induction false} MovesIff(g: Group, n: NodeId, j: NodeId)
    requires GroupOk(g) && n in g.masters && j in g.masters && n != j
    ensures Moves(g, n, j) <==> n < j && Own(g, n) == Own(g, j)
  {
    assert MasterOk(g, n) && MasterOk(g, j) && KnownOk(g, n, j);
  }

  /** No new announcement makes anyone move exactly when all masters have different config epochs. */
  lemma {:induction false} RestMeansDistinct(g: Group)
    requires GroupOk(g)
    ensures Quiescent(g) <==> Distinct(g)
  {
    forall n, j | n in g.masters && j in g.masters && n != j
      ensures Moves(g, n, j) <==> n < j && Own(g, n) == Own(g, j)
    {
      MovesIff(g, n, j);
    }
    hide Own, GroupOk;
    if Quiescent(g) {
      forall n, j | n in g.masters && j in g.masters && n != j ensures Own(g, n) != Own(g, j) {
        assert !Moves(g, n, j) && !Moves(g, j, n);
      }
    }
  }

  /** The protocol is at rest exactly when the config epochs differ and no announcement in flight still collides. */
  lemma {:induction false} AtRestIff(w: World)
    requires Inv(w)
    ensures AtRest(w) <==> Distinct(w.g) && forall n, h :: h in w.sent ==> !Collides(w.g, n, h)
  {
    RestMeansDistinct(w.g);
    forall n, h ensures MovesOn(w.g, n, h) <==> Collides(w.g, n, h) {
      MovesOnIff(w.g, n, h);
    }
    hide MovesOn, Collides, Quiescent, Distinct;
  }

  /** What a step that moves nobody does: the config epochs stay, and nobody forgets an epoch. */
  lemma {:induction false} RestingStep(w: World, step: Step)
    requires Inv(w) && AtRest(w) && Enabled(w, step)
    ensures var g' := Next(w, step).g;
            && g'.masters.Keys == w.g.masters.Keys && g'.moves == w.g.moves
            && (forall n :: Own(g', n) == Own(w.g, n))
            && (forall n, h :: CanHear(g', n, h) ==>
                  CanHear(w.g, n, h) && Known(w.g.masters[n], h.sender) <= Known(g'.masters[n], h.sender))
  {
    match step {
      case Deliver(n, h) =>
        assert !MovesOn(w.g, n, h);
        assert AnnouncementOk(w.g, h);
        HearIsLocal(w.g, n, h);
      case _ =>
    }
  }

  /** Rest is for ever: whatever is sent and delivered afterwards, nobody moves. */
  lemma {:induction false} RestIsKept(w: World, step: Step)
    requires Inv(w) && AtRest(w) && Enabled(w, step)
    ensures Inv(Next(w, step)) && AtRest(Next(w, step)) && Next(w, step).g.moves == w.g.moves
  {
    var w' := Next(w, step);
    NextKeepsInv(w, step);
    RestingStep(w, step);
    AtRestIff(w);
    AtRestIff(w');
    hide Next, Inv, AtRest, Own;
    forall n, h | h in w'.sent ensures !Collides(w'.g, n, h) {
      if h in w.sent {
        assert !Collides(w.g, n, h);
      } else {
        SentNow(w, step, h);
      }
    }
  }

  lemma {:induction false} SentNow(w: World, step: Step, h: Announcement)
    requires Enabled(w, step) && h in Next(w, step).sent && h !in w.sent
    ensures h.sender in w.g.masters && h.configEpoch == Own(w.g, h.sender)
  {
  }

  lemma {:induction false} RestIsForEver(w: World, run: seq<Step>)
    requires Inv(w) && AtRest(w) && IsRun(w, run)
    ensures AtRest(Final(w, run)) && Final(w, run).g.moves == w.g.moves
    decreases |run|
  {
    hide Inv, Next, Enabled, AtRest;
    if run != [] {
      RestIsKept(w, run[0]);
      RestIsForEver(Next(w, run[0]), run[1..]);
    }
  }

  ghost predicate IsRun(w: World, run: seq<Step>)
    decreases |run|
  {
    run == [] || (Enabled(w, run[0]) && IsRun(Next(w, run[0]), run[1..]))
  }

  ghost function Final(w: World, run: seq<Step>): World
    requires IsRun(w, run)
    decreases |run|
  {
    if run == [] then w else Final(Next(w, run[0]), run[1..])
  }

  lemma {:induction false} RunKeepsInv(w: World, run: seq<Step>)
    requires Inv(w) && IsRun(w, run)
    ensures Inv(Final(w, run)) && Final(w, run).g.masters.Keys == w.g.masters.Keys
    decreases |run|
  {
    hide Inv, Next, Enabled;
    if run != [] {
      NextKeepsInv(w, run[0]);
      RunKeepsInv(Next(w, run[0]), run[1..]);
    }
  }

  lemma {:induction false} InitGivesInv(w: World)
    requires Init(w)
    ensures Inv(w)
  {
  }

  lemma {:induction false} InvGivesGroupOk(w: World)
    requires Inv(w)
    ensures GroupOk(w.g)
  {
  }

  /**
    Collision resolution terminates: in every run, with announcements delivered late, repeatedly and in
    any order, master n moves at most once per master with a greater name, and no new announcement makes
    anyone move exactly when all config epochs differ.
   */
  lemma {:induction false} CollisionsGetResolved(w: World, run: seq<Step>, n: NodeId)
    requires Init(w) && IsRun(w, run) && n in w.g.masters
    ensures var g := Final(w, run).g;
            && n in g.moves && g.moves[n] <= |Above(w.g.masters.Keys, n)|
            && (Quiescent(g) <==> Distinct(g))
  {
    InitGivesInv(w);
    hide Inv, GroupOk, Quiescent, Distinct, Init, Next, Enabled;
    RunKeepsInv(w, run);
    InvGivesGroupOk(Final(w, run));
    MovesAreFew(Final(w, run).g, n);
    RestMeansDistinct(Final(w, run).g);
  }
}
