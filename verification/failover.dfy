/**
  What an election is for: the vote is given for a claim that is up to date, the winner gets the slots of its
  master under the epoch of the election, and a node that hears of it hands the slots over.
 */
module Failover {
  import opened SlotTables
  import opened ClusterModel
  import opened ClusterLaws
  import opened ClusterBus
  import opened SlotConvergence

  // ---------------------------------------------------------------- the vote

  /** What a vote vouches for: who votes, for whom, and that no claimed slot is known under a greater epoch. */
  lemma {:induction false} VoteVouches(c: Cluster, p: Packet, recent: bool)
    requires NoDangling(c) && EarnsVote(c, p, recent)
    ensures c.nodes[c.myself].master && c.t.bits[c.myself] != {}
    ensures p.sender in c.nodes && !c.nodes[p.sender].master && c.nodes[p.sender].slaveof.Some?
    ensures !p.kind.forceAck ==> c.nodes[c.nodes[p.sender].slaveof.value].failed
    ensures forall j, n :: j in p.slots && j < CLUSTER_SLOTS && Get(c.t.owner, j) == Some(n) && n in c.nodes && n != p.sender ==>
              c.nodes[n].configEpoch <= p.configEpoch
    ensures var d := Receive(c, p, recent);
            c.currentEpoch <= p.currentEpoch == d.currentEpoch == d.lastVoteEpoch != c.lastVoteEpoch
  {
    var d := LearnEpochs(c, p);
    forall j, n | j in p.slots && j < CLUSTER_SLOTS && Get(c.t.owner, j) == Some(n) && n in c.nodes && n != p.sender
      ensures c.nodes[n].configEpoch <= p.configEpoch
    {
      assert !RefusesSlot(d, p.configEpoch, j);
      assert OwnerEpoch(d, j) == c.nodes[n].configEpoch;
    }
  }

  /** One claimed slot that is known under a greater epoch is enough to refuse, whatever else is right. */
  lemma {:induction false} StaleClaimGetsNoVote(c: Cluster, p: Packet, recent: bool, j: nat)
    requires NoDangling(c) && p.kind.AuthRequest? && p.sender in c.nodes
    requires j in p.slots && j < CLUSTER_SLOTS && j in c.t.owner && c.t.owner[j] in c.nodes && c.t.owner[j] != p.sender
    requires c.nodes[c.t.owner[j]].configEpoch > p.configEpoch
    ensures !EarnsVote(c, p, recent) && Receive(c, p, recent).lastVoteEpoch == c.lastVoteEpoch
  {
    assert RefusesSlot(LearnEpochs(c, p), p.configEpoch, j);
  }

  // ---------------------------------------------------------------- the winner

  /** In every reachable state of the cluster: the replica that wins owns all that its master owned. */
  lemma {:induction false} WinnersOwnTheSlots(w: World, run: seq<Step>, n: NodeId, m: NodeId)
    requires Init(w) && IsRun(w, run)
    requires Enabled(Final(w, run), Conclude(n)) && ReplicaOf(Final(w, run).servers[n], m)
    ensures var v := Final(w, run);
            && n in Next(v, Conclude(n)).servers
            && ReplacedMaster(v.servers[n], m, Next(v, Conclude(n)).servers[n])
  {
    hide IsRun, Final, TakeOver, WellFormed, ReplacedMaster, EpochsBounded;
    assert BusInv(w);
    RunKeepsBusInv(w, run);
    var v := Final(w, run);
    assert ServerOk(v, n);
    WinnerReplacesMaster(v.servers[n], m);
  }

  /** A node that hears the winner hands over every slot that it knows under a smaller epoch, or under none. */
  lemma {:induction false} FailoverSpreads(d: Cluster, m: NodeId, c: Cluster, j: nat)
    requires WellFormed(d) && ReplicaOf(d, m) && Get(d.t.owner, j) == Some(m)
    requires WellFormed(c) && d.myself in c.nodes && d.myself != c.myself && CurMaster(c).Some? && c.importing == map[]
    requires j in c.t.owner && c.t.owner[j] != d.myself ==> OwnerEpoch(c, j) < TakeOver(d).nodes[d.myself].configEpoch
    ensures c.myself != d.myself && NoDangling(c)
    ensures Get(Receive(c, Header(TakeOver(d), Ping), false).t.owner, j) == Some(d.myself)
  {
    hide WellFormed, Receive, TakeOver, Header, NoDangling;
    MyselfIsKnown(c);
    MyselfIsKnown(d);
    WinnerReplacesMaster(d, m);
    TakeOverIsWellFormed(d);
    HeaderTellsSlots(TakeOver(d), Ping);
    OwnersAreKnown(d, j);
    SlotAfter(c, Header(TakeOver(d), Ping), j);
  }
}
