/**
  Hash slot configuration propagation: masters keep announcing the slots they
  serve under their config epoch; a node that hears all of them, in any order
  and any number of times, ends with the slot table the epochs dictate.
 */
module SlotConvergence {
  import opened SlotTables
  import opened ClusterModel

  /** What a master announces: its config epoch and the slots it serves. */
  datatype Claim = Claim(epoch: nat, slots: set<nat>)

  type Claims = map<NodeId, Claim>

  /** The PING by which master n announces its claim. */
  function Announcement(claims: Claims, n: NodeId, currentEpoch: nat): Packet
    requires n in claims
  {
    Packet(Ping, n, Max(currentEpoch, claims[n].epoch), claims[n].epoch, None, claims[n].slots)
  }

  /** The bitmap comparison before clusterUpdateSlotsConfigWith never skips a change. */
  lemma {:induction false} ShortcutSkipsNothing(c: Cluster, p: Packet)
    requires WellFormed(c) && p.sender in c.nodes && c.nodes[p.sender].master && p.sender != c.myself && !Dirty(c, p)
    ensures UpdateSlots(c, p.sender, p.configEpoch, p.slots) == c
  {
    forall j | j in p.slots ensures !Takes(c, p.sender, p.configEpoch, j) {
      assert HasBit(c.t, p.sender, j) <==> Owns(c.t, p.sender, j);
    }
    assert Taken(c, p.sender, p.configEpoch, p.slots) == {};
    RebindNothing(c.t, Some(p.sender));
  }

  /** Two masters never announce the same epoch; if we are one of them, ours is the epoch we announce. */
  ghost predicate GoodClaims(c: Cluster, claims: Claims) {
    && claims.Keys <= c.nodes.Keys
    && (c.myself in claims ==> c.nodes[c.myself].configEpoch == claims[c.myself].epoch)
    && (forall m, n :: m in claims && n in claims && claims[m].epoch == claims[n].epoch ==> m == n)
  }

  /** A node that serves slots announces them, and no known epoch is ahead of the claims. */
  ghost predicate Fresh(c: Cluster, claims: Claims) {
    && WellFormed(c) && GoodClaims(c, claims) && c.importing == map[] && CurMaster(c).Some? && NoStraySlots(c)
    && (forall j {:trigger c.t.owner[j]} :: j in c.t.owner && c.t.owner[j] == c.myself ==> c.myself in claims)
    && (forall n :: n in claims ==> c.nodes[n].configEpoch <= claims[n].epoch)
  }

  /** Slot j went to the claims of `heard` as far as their epochs allow. */
  ghost predicate Honours(c: Cluster, claims: Claims, n: NodeId, j: nat)
    requires n in claims
  {
    j in claims[n].slots && j < CLUSTER_SLOTS ==> j in c.t.owner && OwnerEpoch(c, j) >= claims[n].epoch
  }

  ghost predicate Progress(c: Cluster, claims: Claims, heard: set<NodeId>) {
    && Fresh(c, claims) && heard <= claims.Keys
    && (forall n :: n in heard ==> c.nodes[n].configEpoch == claims[n].epoch)
    && (forall n, j :: n in heard ==> Honours(c, claims, n, j))
  }

  /** The slot table after an announcement, whether or not the shortcut was taken, and what else it moves. */
  lemma {:induction false} AnnouncementEffect(c: Cluster, p: Packet)
    requires WellFormed(c) && p.kind == Ping && p.slaveof == None && p.sender in c.nodes && p.sender != c.myself
    requires CurMaster(c).Some? && c.importing == map[]
    ensures var d := LearnEpochs(c, p);
            var e := Receive(c, p, false);
            && WellFormed(e) && e.myself == c.myself && e.nodes.Keys == c.nodes.Keys && e.importing == map[] && CurMaster(e).Some?
            && e.t == Rebind(c.t, Taken(d, p.sender, p.configEpoch, p.slots), Some(p.sender))
            && (forall n :: n in c.nodes && n != c.myself ==> e.nodes[n].configEpoch == d.nodes[n].configEpoch)
            && (p.configEpoch != c.nodes[c.myself].configEpoch ==> e.nodes[c.myself].configEpoch == c.nodes[c.myself].configEpoch)
  {
    OwnEpochStays(c, p);
    hide Agree, PeerKnown, Rebind, LearnEpochs, AbsorbClaim, ResolveCollision;
    var d := LearnEpochs(c, p);
    LearnIsWellFormed(c, p);
    SwitchRoleKeeps(d, p);
    var e := SwitchRole(d, p);
    SameTaken(d, e, p);
    AbsorbEffect(e, p);
    CollisionIsLocal(AbsorbClaim(e, p), p);
  }

  lemma {:induction false} OwnEpochStays(c: Cluster, p: Packet)
    requires c.myself in c.nodes && p.sender in c.nodes && p.sender != c.myself
    ensures LearnEpochs(c, p).myself == c.myself && LearnEpochs(c, p).nodes[c.myself] == c.nodes[c.myself]
  {
  }

  /** The claim part alone. */
  lemma {:induction false} AbsorbEffect(c: Cluster, p: Packet)
    requires WellFormed(c) && p.sender in c.nodes && c.nodes[p.sender].master && p.sender != c.myself
    requires CurMaster(c).Some? && c.importing == map[]
    ensures var e := AbsorbClaim(c, p);
            && WellFormed(e) && SameEpochs(c, e) && e.importing == map[] && CurMaster(e).Some?
            && e.t == Rebind(c.t, Taken(c, p.sender, p.configEpoch, p.slots), Some(p.sender))
  {
    AbsorbClaimKeeps(c, p);
    if !Dirty(c, p) {
      ShortcutSkipsNothing(c, p);
    }
  }

  lemma {:induction false} SameTaken(d: Cluster, e: Cluster, p: Packet)
    requires d.t == e.t && d.importing == e.importing && SameEpochs(d, e)
    ensures Taken(d, p.sender, p.configEpoch, p.slots) == Taken(e, p.sender, p.configEpoch, p.slots)
  {
    forall j ensures Takes(d, p.sender, p.configEpoch, j) == Takes(e, p.sender, p.configEpoch, j) {
    }
  }

  lemma {:induction false} CollisionIsLocal(c: Cluster, p: Packet)
    requires WellFormed(c) && p.sender in c.nodes
    ensures var d := ResolveCollision(c, p);
            && WellFormed(d) && d.t == c.t && d.importing == c.importing && d.nodes.Keys == c.nodes.Keys && d.myself == c.myself
            && CurMaster(d) == CurMaster(c)
            && (forall n :: n in c.nodes && n != c.myself ==> d.nodes[n].configEpoch == c.nodes[n].configEpoch)
            && (p.configEpoch != c.nodes[c.myself].configEpoch ==> d == c)
  {
    BumpIsWellFormed(c);
  }

  /** Slot j after the announcement p of s: taken by s when s claims it with a greater epoch than its owner's. */
  lemma {:induction false} SlotAfter(c: Cluster, p: Packet, j: nat)
    requires WellFormed(c) && p.kind == Ping && p.slaveof == None && p.sender in c.nodes && p.sender != c.myself
    requires CurMaster(c).Some? && c.importing == map[]
    ensures var e := Receive(c, p, false);
            var taken := j in p.slots && Takes(LearnEpochs(c, p), p.sender, p.configEpoch, j);
            Get(e.t.owner, j) == if taken then Some(p.sender) else Get(c.t.owner, j)
  {
    hide Receive, Agree, PeerKnown, Rebind, Takes;
    AnnouncementEffect(c, p);
    RebindAt(c.t, Taken(LearnEpochs(c, p), p.sender, p.configEpoch, p.slots), Some(p.sender));
  }

  lemma {:induction false} HearKeepsFresh(c: Cluster, claims: Claims, s: NodeId, currentEpoch: nat)
    requires Fresh(c, claims) && s in claims && s != c.myself
    ensures Fresh(Receive(c, Announcement(claims, s, currentEpoch), false), claims)
  {
    hide Receive, WellFormed, Rebind, NoStraySlots, NoDangling, LearnEpochs, Taken;
    MyselfIsKnown(c);
    var p := Announcement(claims, s, currentEpoch);
    var e := Receive(c, p, false);
    HeardEpochs(c, claims, s, currentEpoch);
    AnnouncementEffect(c, p);
    ReceiveKeepsRoles(c, p, false);
    forall j | j in e.t.owner && e.t.owner[j] == e.myself ensures e.myself in claims {
      SlotStaysOurs(c, p, j);
    }
  }

  lemma {:induction false} SlotStaysOurs(c: Cluster, p: Packet, j: nat)
    requires WellFormed(c) && p.kind == Ping && p.slaveof == None && p.sender in c.nodes && p.sender != c.myself
    requires CurMaster(c).Some? && c.importing == map[]
    ensures Get(Receive(c, p, false).t.owner, j) == Some(c.myself) ==> Get(c.t.owner, j) == Some(c.myself)
  {
    hide Receive, WellFormed, Takes, LearnEpochs;
    SlotAfter(c, p, j);
  }

  /** Nobody dies of an announcement. */
  lemma {:induction false} HearingIsSafe(c: Cluster, claims: Claims, s: NodeId, currentEpoch: nat)
    requires Fresh(c, claims) && s in claims && s != c.myself
    ensures Survives(c, Announcement(claims, s, currentEpoch))
  {
    hide WellFormed, Survives;
    GoodRolesSurvive(c, Announcement(claims, s, currentEpoch));
  }

  /** One announcement: what was already honoured stays honoured, and the announced claim is honoured too. */
  lemma {:induction false} HearKeepsProgress(c: Cluster, claims: Claims, heard: set<NodeId>, s: NodeId,
      currentEpoch: nat)
    requires Progress(c, claims, heard) && s in claims && s != c.myself
    ensures Progress(Receive(c, Announcement(claims, s, currentEpoch), false), claims, heard + {s})
  {
    var e := Receive(c, Announcement(claims, s, currentEpoch), false);
    hide Receive, Fresh, Honours;
    HearKeepsFresh(c, claims, s, currentEpoch);
    HeardEpochs(c, claims, s, currentEpoch);
    forall n, j | n in heard + {s} ensures Honours(e, claims, n, j) {
      assert n == s || Honours(c, claims, n, j);
      HearHonours(c, claims, s, currentEpoch, n, j);
    }
  }

  /**
    An announcement teaches the epoch of its sender and of nobody else; only our own may move, when we claim
    nothing.
   */
  lemma {:induction false} HeardEpochs(c: Cluster, claims: Claims, s: NodeId, currentEpoch: nat)
    requires Fresh(c, claims) && s in claims && s != c.myself
    ensures var e := Receive(c, Announcement(claims, s, currentEpoch), false);
            && e.myself == c.myself && claims.Keys <= c.nodes.Keys && e.nodes.Keys == c.nodes.Keys
            && forall n :: n in c.nodes && (n != c.myself || n in claims) ==>
                 e.nodes[n].configEpoch == if n == s then claims[s].epoch else c.nodes[n].configEpoch
  {
    hide Receive, WellFormed, Rebind;
    AnnouncementEffect(c, Announcement(claims, s, currentEpoch));
  }

  lemma {:induction false} HearHonours(c: Cluster, claims: Claims, s: NodeId, currentEpoch: nat, n: NodeId, j: nat)
    requires Fresh(c, claims) && s in claims && s != c.myself && n in claims && (n == s || Honours(c, claims, n, j))
    ensures Honours(Receive(c, Announcement(claims, s, currentEpoch), false), claims, n, j)
  {
    HeardEpochs(c, claims, s, currentEpoch);
    SlotAfter(c, Announcement(claims, s, currentEpoch), j);
    OwnersAreKnown(c, j);
    hide Receive, WellFormed;
  }

  lemma {:induction false} OwnersAreKnown(c: Cluster, j: nat)
    requires WellFormed(c)
    ensures j in c.t.owner ==> c.t.owner[j] in c.nodes && j < CLUSTER_SLOTS
  {
  }

  /** `d` is the state after hearing the masters of `order`, one after the other. */
  ghost predicate Hears(c: Cluster, claims: Claims, order: seq<NodeId>, currentEpoch: nat, d: Cluster)
    decreases |order|
  {
    if order == [] then d == c
    else
      && order[0] in claims && order[0] != c.myself && NoDangling(c)
      && Hears(Receive(c, Announcement(claims, order[0], currentEpoch), false), claims, order[1..], currentEpoch, d)
  }

  lemma {:induction false} HearsKeepsProgress(c: Cluster, claims: Claims, heard: set<NodeId>, order: seq<NodeId>,
      currentEpoch: nat, d: Cluster)
    requires Progress(c, claims, heard) && Hears(c, claims, order, currentEpoch, d)
    ensures Progress(d, claims, heard + (set n | n in order))
    decreases |order|
  {
    hide Receive, Progress;
    if order == [] {
      assert heard + (set n | n in order) == heard;
    } else {
      HearKeepsProgress(c, claims, heard, order[0], currentEpoch);
      var e := Receive(c, Announcement(claims, order[0], currentEpoch), false);
      HearsKeepsProgress(e, claims, heard + {order[0]}, order[1..], currentEpoch, d);
      assert heard + {order[0]} + (set n | n in order[1..]) == heard + (set n | n in order) by {
        assert forall n :: n in order <==> n == order[0] || n in order[1..];
      }
    }
  }

  // ---------------------------------------------------------------- where the slots end

  predicate Contends(claims: Claims, n: NodeId, j: nat) {
    n in claims && j in claims[n].slots
  }

  /** n claims slot j and nobody claims it with a greater epoch. */
  ghost predicate Highest(claims: Claims, j: nat, n: NodeId) {
    Contends(claims, n, j) && forall m :: Contends(claims, m, j) ==> claims[m].epoch <= claims[n].epoch
  }

  /** Slot j belongs to the claimant with the highest epoch, and to nobody if nobody claims it. */
  ghost predicate Settled(c: Cluster, claims: Claims, j: nat) {
    && (j in c.t.owner ==> Highest(claims, j, c.t.owner[j]))
    && (forall n :: Contends(claims, n, j) && j < CLUSTER_SLOTS ==> j in c.t.owner)
  }

  /** The epoch of a node once its claim, if it makes one, has been heard. */
  function LastEpoch(c: Cluster, claims: Claims, n: NodeId): nat {
    if n in claims then claims[n].epoch else if n in c.nodes then c.nodes[n].configEpoch else 0
  }

  /** Slot j has no owner, one that claims it, or one that gives way to a claimant with a greater epoch. */
  ghost predicate Settles(c: Cluster, claims: Claims, j: nat) {
    j in c.t.owner ==>
      || Contends(claims, c.t.owner[j], j)
      || exists n :: Contends(claims, n, j) && LastEpoch(c, claims, c.t.owner[j]) < claims[n].epoch
  }

  lemma {:induction false} HearKeepsSettles(c: Cluster, claims: Claims, s: NodeId, currentEpoch: nat, j: nat)
    requires Fresh(c, claims) && s in claims && s != c.myself && Settles(c, claims, j)
    ensures Settles(Receive(c, Announcement(claims, s, currentEpoch), false), claims, j)
  {
    HeardEpochs(c, claims, s, currentEpoch);
    SlotAfter(c, Announcement(claims, s, currentEpoch), j);
    OwnersAreKnown(c, j);
    hide Receive, WellFormed, Takes;
  }

  lemma {:induction false} HearsKeepsSettles(c: Cluster, claims: Claims, order: seq<NodeId>, currentEpoch: nat,
      d: Cluster, j: nat)
    requires Fresh(c, claims) && Hears(c, claims, order, currentEpoch, d) && Settles(c, claims, j)
    ensures Settles(d, claims, j)
    decreases |order|
  {
    hide Receive, Fresh, Settles;
    if order != [] {
      HearKeepsFresh(c, claims, order[0], currentEpoch);
      HearKeepsSettles(c, claims, order[0], currentEpoch, j);
      HearsKeepsSettles(Receive(c, Announcement(claims, order[0], currentEpoch), false), claims, order[1..],
                        currentEpoch, d, j);
    }
  }

  /** Every claimant has been heard before, or announces itself. */
  ghost predicate Covers(claims: Claims, heard: set<NodeId>, order: seq<NodeId>) {
    claims.Keys <= heard + (set n | n in order)
  }

  /**
    Convergence: after any sequence of announcements, with repetitions, by which every claimant has been
    heard, each slot that settles belongs to the claimant with the highest epoch, and to nobody if nobody
    claims it.  The node that hears them may be a claimant itself, and lose some or all of its slots.
   */
  lemma {:induction false} SlotsConverge(c: Cluster, claims: Claims, heard: set<NodeId>, order: seq<NodeId>,
      currentEpoch: nat,
                                         d: Cluster, j: nat)
    requires Progress(c, claims, heard) && Hears(c, claims, order, currentEpoch, d) && Covers(claims, heard, order)
    requires Settles(c, claims, j)
    ensures Settled(d, claims, j)
  {
    hide Receive, Hears, Settles, WellFormed;
    HearsKeepsProgress(c, claims, heard, order, currentEpoch, d);
    HearsKeepsSettles(c, claims, order, currentEpoch, d, j);
    HonouredIsSettled(d, claims, heard + (set n | n in order), j);
  }

  lemma {:induction false} HonouredIsSettled(d: Cluster, claims: Claims, heard: set<NodeId>, j: nat)
    requires Progress(d, claims, heard) && claims.Keys <= heard && Settles(d, claims, j)
    ensures Settled(d, claims, j)
  {
    OwnersAreKnown(d, j);
    hide WellFormed;
    forall n | Contends(claims, n, j) && j < CLUSTER_SLOTS ensures j in d.t.owner && OwnerEpoch(d, j) >= claims[n].epoch {
      assert n in heard && Honours(d, claims, n, j);
    }
  }

  // ---------------------------------------------------------------- owners that stay

  /** The owner of slot j does not claim it, and no claimant has a greater epoch than the one known of the owner. */
  ghost predicate Stuck(c: Cluster, claims: Claims, j: nat) {
    && j in c.t.owner && !Contends(claims, c.t.owner[j], j)
    && forall n :: Contends(claims, n, j) ==> claims[n].epoch <= OwnerEpoch(c, j)
  }

  lemma {:induction false} HearKeepsStuck(c: Cluster, claims: Claims, s: NodeId, currentEpoch: nat, j: nat)
    requires Fresh(c, claims) && s in claims && s != c.myself && Stuck(c, claims, j)
    ensures Stuck(Receive(c, Announcement(claims, s, currentEpoch), false), claims, j)
  {
    HeardEpochs(c, claims, s, currentEpoch);
    SlotAfter(c, Announcement(claims, s, currentEpoch), j);
    OwnersAreKnown(c, j);
    hide Receive, WellFormed;
  }

  lemma {:induction false} HearsKeepsStuck(c: Cluster, claims: Claims, order: seq<NodeId>, currentEpoch: nat,
      d: Cluster, j: nat)
    requires Fresh(c, claims) && Hears(c, claims, order, currentEpoch, d) && Stuck(c, claims, j)
    ensures Stuck(d, claims, j)
    decreases |order|
  {
    hide Receive, Fresh, Stuck;
    if order != [] {
      HearKeepsFresh(c, claims, order[0], currentEpoch);
      HearKeepsStuck(c, claims, order[0], currentEpoch, j);
      HearsKeepsStuck(Receive(c, Announcement(claims, order[0], currentEpoch), false), claims, order[1..],
                      currentEpoch, d, j);
    }
  }

  /** Once the owner of a slot that does not settle has been heard, the slot is stuck. */
  lemma {:induction false} OwnerFirst(c: Cluster, claims: Claims, currentEpoch: nat, j: nat)
    requires Fresh(c, claims) && !Settles(c, claims, j)
    ensures j in c.t.owner
    ensures var o := c.t.owner[j];
            if o in claims && o != c.myself then Stuck(Receive(c, Announcement(claims, o, currentEpoch), false), claims, j)
            else Stuck(c, claims, j)
  {
    OwnersAreKnown(c, j);
    var o := c.t.owner[j];
    if o in claims && o != c.myself {
      HeardEpochs(c, claims, o, currentEpoch);
      SlotAfter(c, Announcement(claims, o, currentEpoch), j);
      hide Receive, WellFormed;
    } else {
      hide WellFormed;
    }
  }

  lemma {:induction false} SomeOrder(s: set<NodeId>) returns (order: seq<NodeId>)
    ensures forall n :: n in order <==> n in s
    decreases |s|
  {
    if s == {} {
      order := [];
    } else {
      var n :| n in s;
      var rest := SomeOrder(s - {n});
      order := [n] + rest;
      assert forall m :: m in order <==> m == n || m in rest;
    }
  }

  lemma {:induction false} SomeRun(c: Cluster, claims: Claims, order: seq<NodeId>,
      currentEpoch: nat) returns (d: Cluster)
    requires Fresh(c, claims) && forall n :: n in order ==> n in claims && n != c.myself
    ensures Hears(c, claims, order, currentEpoch, d)
    decreases |order|
  {
    if order == [] {
      d := c;
    } else {
      assert WellFormed(c);
      HearKeepsFresh(c, claims, order[0], currentEpoch);
      HeardEpochs(c, claims, order[0], currentEpoch);
      hide Receive, WellFormed;
      assert forall n :: n in order[1..] ==> n in order;
      d := SomeRun(Receive(c, Announcement(claims, order[0], currentEpoch), false), claims, order[1..], currentEpoch);
    }
  }

  /** A slot that does not settle: some sequence of announcements, complete as it is, leaves it with its owner. */
  lemma {:induction false} SomeRunSticks(c: Cluster, claims: Claims, heard: set<NodeId>, currentEpoch: nat, j: nat)
      returns (order: seq<NodeId>, d: Cluster)
    requires Progress(c, claims, heard) && (c.myself in claims ==> c.myself in heard) && !Settles(c, claims, j)
    ensures Hears(c, claims, order, currentEpoch, d) && Covers(claims, heard, order) && !Settled(d, claims, j)
  {
    assert WellFormed(c);
    hide Receive, Settles, Fresh;
    var rest := SomeOrder(claims.Keys - {c.myself});
    OwnerFirst(c, claims, currentEpoch, j);
    var o := c.t.owner[j];
    if o in claims && o != c.myself {
      hide Stuck;
      order := [o] + rest;
      d := OwnerThenAll(c, claims, o, rest, currentEpoch, j);
    } else {
      order := rest;
      d := SomeRun(c, claims, rest, currentEpoch);
      HearsKeepsStuck(c, claims, rest, currentEpoch, d, j);
    }
    assert forall n :: n in claims && n != c.myself ==> n in rest && n in order;
    StuckIsNotSettled(d, claims, j);
  }

  lemma {:induction false} OwnerThenAll(c: Cluster, claims: Claims, o: NodeId, rest: seq<NodeId>, currentEpoch: nat,
      j: nat) returns (d: Cluster)
    requires Fresh(c, claims) && o in claims && o != c.myself && forall n :: n in rest ==> n in claims && n != c.myself
    requires Stuck(Receive(c, Announcement(claims, o, currentEpoch), false), claims, j)
    ensures Hears(c, claims, [o] + rest, currentEpoch, d) && Stuck(d, claims, j)
  {
    hide Receive, WellFormed, Stuck, NoDangling;
    MyselfIsKnown(c);
    HearKeepsFresh(c, claims, o, currentEpoch);
    HeardEpochs(c, claims, o, currentEpoch);
    var e := Receive(c, Announcement(claims, o, currentEpoch), false);
    d := SomeRun(e, claims, rest, currentEpoch);
    HearsKeepsStuck(e, claims, rest, currentEpoch, d, j);
    assert ([o] + rest)[1..] == rest;
  }

  lemma {:induction false} StuckIsNotSettled(d: Cluster, claims: Claims, j: nat)
    requires Stuck(d, claims, j)
    ensures !Settled(d, claims, j)
  {
  }

  /** Exactly when a slot ends with the highest claimant, whatever the order of the announcements. */
  lemma {:induction false} ConvergesIff(c: Cluster, claims: Claims, heard: set<NodeId>, currentEpoch: nat, j: nat)
    requires Progress(c, claims, heard) && (c.myself in claims ==> c.myself in heard)
    ensures Settles(c, claims, j) <==>
            forall order, d :: Hears(c, claims, order, currentEpoch, d) && Covers(claims, heard, order) ==> Settled(d, claims, j)
  {
    hide Receive, Hears, Settles, Settled, Covers, Progress;
    if Settles(c, claims, j) {
      forall order, d | Hears(c, claims, order, currentEpoch, d) && Covers(claims, heard, order) ensures Settled(d, claims, j) {
        SlotsConverge(c, claims, heard, order, currentEpoch, d, j);
      }
    } else {
      var order, d := SomeRunSticks(c, claims, heard, currentEpoch, j);
    }
  }

  /** Node 1 knows 3, which is silent, as the owner of slot 0 under epoch 5; 2 claims the slot under epoch 1. */
  function Silent(): Cluster {
    Cluster(1, 5, 0, map[1 := Peer(0, true, None, false, {}), 2 := Peer(0, true, None, false, {}),
                         3 := Peer(5, true, None, false, {})],
            SlotTable(map[1 := {}, 2 := {}, 3 := {0}], map[0 := 3]), map[], map[], 0, 0, false)
  }

  const LATE_CLAIM: Claims := map[2 := Claim(1, {0})]

  lemma {:induction false} SilentIsFresh()
    ensures Progress(Silent(), LATE_CLAIM, {}) && !Settles(Silent(), LATE_CLAIM, 0)
  {
    hide WellFormed;
    SilentIsWellFormed();
    assert LastEpoch(Silent(), LATE_CLAIM, 3) == 5;
  }

  lemma {:induction false} SilentIsWellFormed()
    ensures WellFormed(Silent())
  {
    var c := Silent();
    assert PeerKnown(c, c.nodes[1]) && PeerKnown(c, c.nodes[2]) && PeerKnown(c, c.nodes[3]);
  }

  /** A slot that does not settle: every claimant has been heard, and it is still with its silent owner. */
  lemma {:induction false} SilentOwnerStays() returns (order: seq<NodeId>, d: Cluster)
    ensures Progress(Silent(), LATE_CLAIM, {}) && Hears(Silent(), LATE_CLAIM, order, 5, d)
    ensures Covers(LATE_CLAIM, {}, order)
    ensures !Settled(d, LATE_CLAIM, 0)
  {
    hide Hears, Settled, Settles, Progress, Covers;
    SilentIsFresh();
    order, d := SomeRunSticks(Silent(), LATE_CLAIM, {}, 5, 0);
  }

  // ---------------------------------------------------------------- two nodes

  ghost predicate AllSettle(c: Cluster, claims: Claims) {
    forall j :: Settles(c, claims, j)
  }

  /**
    Order, repetitions and the starting table do not matter: any two nodes, claimants or not, end with the
    same slot table.
   */
  lemma {:induction false} OrderDoesNotMatter(c: Cluster, c': Cluster, claims: Claims, heard: set<NodeId>,
      heard': set<NodeId>,
                                              order: seq<NodeId>, order': seq<NodeId>, currentEpoch: nat, currentEpoch': nat,
                                              d: Cluster, d': Cluster)
    requires Progress(c, claims, heard) && Hears(c, claims, order, currentEpoch, d) && Covers(claims, heard, order)
    requires Progress(c', claims, heard') && Hears(c', claims, order', currentEpoch', d')
    requires Covers(claims, heard', order')
    requires AllSettle(c, claims) && AllSettle(c', claims)
    ensures d.t.owner == d'.t.owner
  {
    hide Receive, Hears, WellFormed, Progress, Covers, Settles;
    OwnersAreSlots(c, claims, heard, order, currentEpoch, d);
    OwnersAreSlots(c', claims, heard', order', currentEpoch', d');
    forall j ensures Get(d.t.owner, j) == Get(d'.t.owner, j) {
      SlotsConverge(c, claims, heard, order, currentEpoch, d, j);
      SlotsConverge(c', claims, heard', order', currentEpoch', d', j);
    }
    assert forall j :: j in d.t.owner <==> Get(d.t.owner, j).Some?;
  }

  lemma {:induction false} OwnersAreSlots(c: Cluster, claims: Claims, heard: set<NodeId>, order: seq<NodeId>,
      currentEpoch: nat, d: Cluster)
    requires Progress(c, claims, heard) && Hears(c, claims, order, currentEpoch, d)
    ensures forall j :: j in d.t.owner ==> j < CLUSTER_SLOTS
    ensures forall m, n :: m in claims && n in claims && claims[m].epoch == claims[n].epoch ==> m == n
  {
    hide Receive, Hears;
    HearsKeepsProgress(c, claims, heard, order, currentEpoch, d);
    forall j: nat ensures j in d.t.owner ==> j < CLUSTER_SLOTS {
      OwnersAreKnown(d, j);
    }
  }
}
