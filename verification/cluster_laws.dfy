/**
  What a node can rely on after it has handled a packet, said of the node table and of the owner of every slot.
 */
module ClusterLaws {
  import opened SlotTables
  import opened ClusterModel

  /** A header speaks for the node whose slots count as ours: it names exactly its slots, and its epoch. */
  lemma {:induction false} HeaderTellsSlots(c: Cluster, kind: Kind)
    requires WellFormed(c) && CurMaster(c).Some?
    ensures var p := Header(c, kind);
            && p.kind == kind && p.sender == c.myself && p.currentEpoch == c.currentEpoch
            && p.slaveof == c.nodes[c.myself].slaveof
            && CurMaster(c).value in c.nodes && p.configEpoch == c.nodes[CurMaster(c).value].configEpoch
            && forall j :: j in p.slots <==> Get(c.t.owner, j) == CurMaster(c)
  {
    assert PeerKnown(c, c.nodes[c.myself]);
    var m := CurMaster(c).value;
    forall j ensures j in c.t.bits[m] <==> Get(c.t.owner, j) == Some(m) {
      assert HasBit(c.t, m, j) <==> Owns(c.t, m, j);
    }
    hide Agree;
  }

  /** Slot j is claimed, is not being imported, and has no owner or one with a smaller epoch. */
  ghost predicate Yields(c: Cluster, epoch: nat, claim: set<nat>, j: nat) {
    && j in claim && j < CLUSTER_SLOTS && j !in c.importing
    && (j in c.t.owner ==> c.t.owner[j] in c.nodes && c.nodes[c.t.owner[j]].configEpoch < epoch)
  }

  lemma {:induction false} TakenIff(c: Cluster, n: NodeId, epoch: nat, claim: set<nat>, j: nat)
    requires j in c.t.owner ==> c.t.owner[j] in c.nodes
    ensures j in Taken(c, n, epoch, claim) <==> Yields(c, epoch, claim, j) && Get(c.t.owner, j) != Some(n)
  {
  }

  /** The effect of a claim on the owner of every slot; nobody's entry changes but ours. */
  lemma {:induction false} ClaimMovesSlots(c: Cluster, n: NodeId, epoch: nat, claim: set<nat>)
    requires WellFormed(c) && n in c.nodes && n != c.myself
    ensures var d := UpdateSlots(c, n, epoch, claim);
            && (forall j: nat :: Get(d.t.owner, j) == if Yields(c, epoch, claim, j) then Some(n) else Get(c.t.owner, j))
            && d.nodes.Keys == c.nodes.Keys && (forall m :: m in c.nodes && m != c.myself ==> d.nodes[m] == c.nodes[m])
            && d.myself == c.myself && d.currentEpoch == c.currentEpoch
  {
    hide WellFormed, Rebind, SlotsLost, Taken, Yields, Follows;
    MyselfIsKnown(c);
    RebindAt(c.t, Taken(c, n, epoch, claim), Some(n));
    forall j: nat
      ensures Get(UpdateSlots(c, n, epoch, claim).t.owner, j) == if Yields(c, epoch, claim, j) then Some(n) else Get(c.t.owner, j)
    {
      OwnerIsKnown(c, j);
      TakenIff(c, n, epoch, claim, j);
    }
  }

  lemma {:induction false} OwnerIsKnown(c: Cluster, j: nat)
    requires WellFormed(c)
    ensures j in c.t.owner ==> c.t.owner[j] in c.nodes
  {
  }

  ghost predicate HasSlots(c: Cluster, n: NodeId) {
    exists j :: Get(c.t.owner, j) == Some(n)
  }

  lemma {:induction false} HasSlotsIff(c: Cluster, n: NodeId)
    requires Agree(c.t)
    ensures HasSlots(c, n) <==> n in c.t.bits && c.t.bits[n] != {}
  {
    if n in c.t.bits && c.t.bits[n] != {} {
      var j :| j in c.t.bits[n];
      assert HasBit(c.t, n, j);
      assert Get(c.t.owner, j) == Some(n);
    }
    if j :| Get(c.t.owner, j) == Some(n) {
      assert Owns(c.t, n, j);
    }
  }

  /** A master whose last slot is claimed away follows the claimant, and so do its replicas; everybody else stays. */
  lemma {:induction false} LosersFollow(c: Cluster, n: NodeId, epoch: nat, claim: set<nat>)
    requires WellFormed(c) && n in c.nodes && n != c.myself && CurMaster(c).Some? && CurMaster(c) != Some(n)
    ensures var d := UpdateSlots(c, n, epoch, claim);
            var m := CurMaster(c).value;
            if HasSlots(c, m) && !HasSlots(d, m) then
              && !d.nodes[c.myself].master && d.nodes[c.myself].slaveof == Some(n)
              && (c.nodes[c.myself].master ==> d.importing == map[] && d.migrating == map[])
            else d.nodes == c.nodes && d.importing == c.importing && d.migrating == c.migrating
  {
    var d := UpdateSlots(c, n, epoch, claim);
    var m := CurMaster(c).value;
    UpdateSlotsKeepsAgreement(c, n, epoch, claim);
    HasSlotsIff(c, m);
    HasSlotsIff(d, m);
    LostIff(c, n, epoch, claim);
    hide Agree, Rebind, Taken, HasSlots, SlotsLost, WellFormed;
  }

  lemma {:induction false} LostIff(c: Cluster, n: NodeId, epoch: nat, claim: set<nat>)
    requires WellFormed(c) && n in c.nodes && n != c.myself && CurMaster(c).Some? && CurMaster(c) != Some(n)
    ensures c.myself in c.nodes && CurMaster(c).value in c.t.bits
    ensures BitsAfter(c, n, epoch, claim, CurMaster(c).value) == Some({}) && c.t.bits[CurMaster(c).value] != {} ==>
              SlotsLost(c, n, epoch, claim)
    ensures SlotsLost(c, n, epoch, claim) ==> c.t.bits[CurMaster(c).value] != {}
  {
    assert PeerKnown(c, c.nodes[c.myself]);
    var m := CurMaster(c).value;
    var taken := Taken(c, n, epoch, claim);
    RebindAt(c.t, taken, Some(n));
    forall j ensures j in c.t.bits[m] <==> Get(c.t.owner, j) == Some(m) {
      assert HasBit(c.t, m, j) <==> Owns(c.t, m, j);
    }
    hide Rebind, Agree;
    if c.t.bits[m] != {} && c.t.bits[m] - taken == {} {
      var j :| j in c.t.bits[m];
      assert j !in c.t.bits[m] - taken;
      assert j in taken;
    }
  }

  /**
    A node that calls itself a replica is one, of the master it names if we know it, and owns no slot if it was a
    master.
   */
  lemma {:induction false} ReplicasOwnNothing(c: Cluster, p: Packet)
    requires WellFormed(c) && p.kind == Ping && p.sender in c.nodes && p.sender != c.myself && p.slaveof.Some?
    ensures var d := Receive(c, p, false);
            && p.sender in d.nodes && !d.nodes[p.sender].master
            && (p.slaveof.value in c.nodes ==> d.nodes[p.sender].slaveof == p.slaveof)
            && (forall j :: Get(d.t.owner, j) ==
                  if c.nodes[p.sender].master && Get(c.t.owner, j) == Some(p.sender) then None else Get(c.t.owner, j))
  {
    forall j ensures j in c.t.bits[p.sender] <==> Get(c.t.owner, j) == Some(p.sender) {
      assert HasBit(c.t, p.sender, j) <==> Owns(c.t, p.sender, j);
    }
    RebindAt(c.t, c.t.bits[p.sender], None);
    hide Rebind, Agree, PeerKnown;
  }

  /** An UPDATE with a newer epoch makes the node it is about a master with that epoch, and moves the slots it lists. */
  lemma {:induction false} UpdateIsAdopted(c: Cluster, p: Packet)
    requires WellFormed(c) && p.kind.Update? && p.sender in c.nodes
    requires p.kind.about in c.nodes && p.kind.about != c.myself && p.kind.about != p.sender
    ensures var d := Receive(c, p, false);
            var n := p.kind.about;
            if p.kind.aboutEpoch > c.nodes[n].configEpoch then
              && n in d.nodes && d.nodes[n].master && d.nodes[n].configEpoch == p.kind.aboutEpoch
              && (forall j: nat :: Get(d.t.owner, j) ==
                    if Yields(Promoted(LearnEpochs(c, p), n, p.kind.aboutEpoch), p.kind.aboutEpoch, p.kind.aboutSlots, j)
                    then Some(n) else Get(c.t.owner, j))
            else d == LearnEpochs(c, p)
  {
    hide WellFormed, Yields, UpdateSlots;
    MyselfIsKnown(c);
    LearnIsWellFormed(c, p);
    var e := LearnEpochs(c, p);
    var n := p.kind.about;
    if p.kind.aboutEpoch > c.nodes[n].configEpoch {
      PromotedIsWellFormed(e, n, p.kind.aboutEpoch);
      ClaimMovesSlots(Promoted(e, n, p.kind.aboutEpoch), n, p.kind.aboutEpoch, p.kind.aboutSlots);
    }
  }

  // ---------------------------------------------------------------- the winner of an election

  ghost predicate ReplicaOf(c: Cluster, m: NodeId) {
    c.myself in c.nodes && !c.nodes[c.myself].master && c.nodes[c.myself].slaveof == Some(m) && m != c.myself
  }

  /** c became d by winning the place of its master m. */
  ghost predicate ReplacedMaster(c: Cluster, m: NodeId, d: Cluster) {
    && d.myself == c.myself && c.myself in c.nodes && d.nodes.Keys == c.nodes.Keys
    && (forall j :: Get(d.t.owner, j) == if Get(c.t.owner, j) == Some(m) then Some(c.myself) else Get(c.t.owner, j))
    && Get(d.t.bits, m) == Some({})
    && d.nodes[c.myself].master && d.nodes[c.myself].slaveof.None?
    && d.nodes[c.myself].configEpoch >= c.authEpoch && d.nodes[c.myself].configEpoch >= c.nodes[c.myself].configEpoch
    && (d.nodes[c.myself].configEpoch == c.authEpoch || d.nodes[c.myself].configEpoch == c.nodes[c.myself].configEpoch)
    && (forall n :: n in c.nodes && n != c.myself ==> d.nodes[n] == c.nodes[n])
    && d.currentEpoch == c.currentEpoch && d.lastVoteEpoch == c.lastVoteEpoch
  }

  /** The winner owns every slot that was its master's, and nothing else changes hands. */
  lemma {:induction false} WinnerReplacesMaster(c: Cluster, m: NodeId)
    requires WellFormed(c) && ReplicaOf(c, m)
    ensures ReplacedMaster(c, m, TakeOver(c))
  {
    assert PeerKnown(c, c.nodes[c.myself]);
    forall j ensures j in c.t.bits[m] <==> Get(c.t.owner, j) == Some(m) {
      assert HasBit(c.t, m, j) <==> Owns(c.t, m, j);
    }
    RebindAt(c.t, c.t.bits[m], Some(c.myself));
    assert c.t.bits[m] - c.t.bits[m] == {};
    hide Rebind, Agree;
  }
}
