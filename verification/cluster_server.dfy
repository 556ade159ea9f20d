/**
  The handlers of cluster.c as they run on one node: they update the node's
  tables in place, slot by slot and node by node.  Each is proved to have the
  effect that cluster_model.dfy states as a function.
 */
module ClusterServers {
  import opened SlotTables
  import opened ClusterModel
  import opened ClusterLaws

  /** The slots of `s` below j: what a loop over all slots has handled when it reaches j. */
  function Below(s: set<nat>, j: nat): set<nat> {
    set i | i in s && i < j
  }

  lemma {:induction false} BelowNext(s: set<nat>, j: nat)
    ensures Below(s, j + 1) == if j in s then Below(s, j) + {j} else Below(s, j)
  {
  }

  lemma {:induction false} BelowAll(s: set<nat>, j: nat)
    requires forall i :: i in s ==> i < j
    ensures Below(s, j) == s
  {
  }

  ghost predicate CountsMatch(bits: map<NodeId, set<nat>>, numslots: map<NodeId, int>) {
    numslots.Keys == bits.Keys && forall n :: n in bits ==> numslots[n] == |bits[n]|
  }

  lemma {:induction false} CountBit(bits: map<NodeId, set<nat>>, numslots: map<NodeId, int>, n: NodeId, j: nat)
    requires CountsMatch(bits, numslots) && n in bits
    ensures n in numslots
    ensures CountsMatch(bits[n := bits[n] + {j}], if j in bits[n] then numslots else numslots[n := numslots[n] + 1])
  {
    assert j in bits[n] ==> bits[n] + {j} == bits[n];
  }

  lemma {:induction false} DiscountBit(bits: map<NodeId, set<nat>>, numslots: map<NodeId, int>, n: NodeId, j: nat)
    requires CountsMatch(bits, numslots) && n in bits && j in bits[n]
    ensures n in numslots && CountsMatch(bits[n := bits[n] - {j}], numslots[n := numslots[n] - 1])
  {
  }

  lemma {:induction false} ForgetCount(bits: map<NodeId, set<nat>>, numslots: map<NodeId, int>, n: NodeId)
    requires CountsMatch(bits, numslots)
    ensures CountsMatch(bits - {n}, numslots - {n})
  {
  }

  class ClusterServer {
    const myself: NodeId
    var currentEpoch: nat
    var lastVoteEpoch: nat
    var nodes: map<NodeId, Peer>
    var bits: map<NodeId, set<nat>>
    var numslots: map<NodeId, int>
    var owner: map<nat, NodeId>
    var importing: map<nat, NodeId>
    var migrating: map<nat, NodeId>
    var authEpoch: nat
    var authCount: nat
    var authSent: bool

    ghost function Table(): SlotTable
      reads this
    {
      SlotTable(bits, owner)
    }

    ghost function View(): Cluster
      reads this
    {
      Cluster(myself, currentEpoch, lastVoteEpoch, nodes, Table(), importing, migrating, authEpoch, authCount, authSent)
    }

    /** numslots is the number of bits set in the bitmap, for every node. */
    ghost predicate CountsAgree()
      reads this
    {
      CountsMatch(bits, numslots)
    }

    ghost predicate Valid()
      reads this
    {
      WellFormed(View()) && CountsAgree()
    }

    /** A node that knows only itself, as a master without slots. */
    constructor (myself: NodeId)
      ensures Valid() && EpochsBounded(View()) && this.myself == myself && nodes.Keys == {myself}
    {
      this.myself := myself;
      currentEpoch, lastVoteEpoch := 0, 0;
      nodes := map[myself := Peer(0, true, None, false, {})];
      bits, numslots := map[myself := {}], map[myself := 0];
      owner, importing, migrating := map[], map[], map[];
      authEpoch, authCount, authSent := 0, 0, false;
      new;
      forall n, j ensures HasBit(Table(), n, j) <==> Owns(Table(), n, j) {
      }
      assert PeerKnown(View(), nodes[myself]);
    }

    /** clusterAddSlot. */
    method AddSlot(n: NodeId, slot: nat) returns (ok: bool)
      requires CountsAgree() && n in bits
      modifies this`bits, this`numslots, this`owner
      ensures CountsAgree() && bits.Keys == old(bits).Keys && Table() == SlotTables.AddSlot(old(Table()), n, slot)
      ensures ok <==> slot !in old(owner)
    {
      hide CountsMatch;
      if slot in owner {
        return false;
      }
      CountBit(bits, numslots, n, slot);
      var was := slot in bits[n];
      if !was {
        numslots := numslots[n := numslots[n] + 1];
      }
      bits := bits[n := bits[n] + {slot}];
      owner := owner[slot := n];
      return true;
    }

    /** clusterDelSlot.  The bit it clears is always set: its assertion never fires. */
    method DelSlot(slot: nat) returns (ok: bool)
      requires Agree(Table()) && CountsAgree()
      modifies this`bits, this`numslots, this`owner
      ensures CountsAgree() && (slot in old(owner) ==> old(owner)[slot] in old(bits))
      ensures bits.Keys == old(bits).Keys && Table() == SlotTables.DelSlot(old(Table()), slot)
      ensures ok <==> slot in old(owner)
    {
      hide CountsMatch, Agree;
      if slot !in owner {
        return false;
      }
      var n := owner[slot];
      OwnerHasBit(Table(), slot);
      var was := slot in bits[n];
      assert was;
      DiscountBit(bits, numslots, n, slot);
      bits := bits[n := bits[n] - {slot}];
      numslots := numslots[n := numslots[n] - 1];
      owner := owner - {slot};
      return true;
    }

    /** clusterDelNodeSlots. */
    method DelNodeSlots(n: NodeId) returns (deleted: nat)
      requires Agree(Table()) && CountsAgree() && n in bits
      modifies this`bits, this`numslots, this`owner
      ensures CountsAgree() && Table() == Rebind(old(Table()), old(bits)[n], None)
      ensures deleted == |old(bits)[n]|
    {
      hide Rebind, SlotTables.AddSlot, SlotTables.DelSlot, CountsMatch, Agree;
      ghost var t0 := Table();
      ghost var gone := bits[n];
      RebindNothing(t0, None);
      assert Below(gone, 0) == {};
      deleted := 0;
      for j := 0 to CLUSTER_SLOTS
        invariant CountsAgree() && Table() == Rebind(t0, Below(gone, j), None)
        invariant n in bits && deleted == |Below(gone, j)|
      {
        RebindKeepsAgreement(t0, Below(gone, j), None);
        RebindAt(t0, Below(gone, j), None);
        BelowNext(gone, j);
        assert bits[n] == gone - Below(gone, j);
        if j in bits[n] {
          UnbindOneMore(t0, Below(gone, j), j);
          var _ := DelSlot(j);
          deleted := deleted + 1;
        }
      }
      BitsAreSlots(t0, n);
      BelowAll(gone, CLUSTER_SLOTS);
    }

    /** The loop of clusterFailoverReplaceYourMaster: all the slots of `from` become slots of `to`. */
    method GrabSlots(from: NodeId, to: NodeId)
      requires Agree(Table()) && CountsAgree() && from in bits && to in bits && from != to
      modifies this`bits, this`numslots, this`owner
      ensures CountsAgree() && Table() == Rebind(old(Table()), old(bits)[from], Some(to))
    {
      hide Rebind, SlotTables.AddSlot, SlotTables.DelSlot, CountsMatch, Agree;
      ghost var t0 := Table();
      ghost var taken := bits[from];
      RebindNothing(t0, Some(to));
      assert Below(taken, 0) == {};
      for j := 0 to CLUSTER_SLOTS
        invariant CountsAgree() && from in bits && to in bits && Table() == Rebind(t0, Below(taken, j), Some(to))
      {
        RebindKeepsAgreement(t0, Below(taken, j), Some(to));
        RebindAt(t0, Below(taken, j), Some(to));
        BelowNext(taken, j);
        assert bits[from] == taken - Below(taken, j);
        if j in bits[from] {
          RebindOneMore(t0, Below(taken, j), j, to);
          var _ := DelSlot(j);
          var _ := AddSlot(to, j);
        }
      }
      BitsAreSlots(t0, from);
      BelowAll(taken, CLUSTER_SLOTS);
    }

    /** The loop of clusterUpdateSlotsConfigWith; `lost` says whether `newmaster` was set. */
    method RebindClaim(sender: NodeId, epoch: nat, claim: set<nat>) returns (lost: bool)
      requires Valid() && sender in nodes
      modifies this`bits, this`numslots, this`owner
      ensures CountsAgree()
      ensures Table() == Rebind(old(Table()), Taken(old(View()), sender, epoch, claim), Some(sender))
      ensures lost <==> SlotsLost(old(View()), sender, epoch, claim)
    {
      hide Rebind, SlotTables.AddSlot, SlotTables.DelSlot, CountsMatch, Agree, NoDangling, Below, Taken, LostBelow;
      ghost var c0 := View();
      ghost var taken := Taken(c0, sender, epoch, claim);
      SenderHasBits(c0, sender);
      var curmaster := if nodes[myself].master then Some(myself) else nodes[myself].slaveof;
      RebindNothing(c0.t, Some(sender));
      BelowNone(taken);
      LostNone(c0, taken);
      lost := false;
      for j := 0 to CLUSTER_SLOTS
        invariant CountsAgree() && sender in bits
        invariant Table() == Rebind(c0.t, Below(taken, j), Some(sender))
        invariant lost <==> LostBelow(c0, taken, j)
      {
        ClaimNext(c0, sender, epoch, claim, j);
        LostNext(c0, taken, j);
        if j in claim && Get(owner, j) != Some(sender) && j !in importing {
          if j !in owner || nodes[owner[j]].configEpoch < epoch {
            if Get(owner, j) == curmaster {
              lost := true;
            }
            var _ := DelSlot(j);
            var _ := AddSlot(sender, j);
          }
        }
      }
      TakenAll(c0, sender, epoch, claim);
    }

    /** clusterSetMaster. */
    method SetMaster(n: NodeId)
      requires Valid() && n in nodes && n != myself && bits[myself] == {}
      modifies this`nodes, this`importing, this`migrating
      ensures Valid() && View() == ClusterModel.SetMaster(old(View()), n)
    {
      hide WellFormed, NoDangling, CountsMatch;
      SenderHasBits(View(), n);
      SetMasterIsWellFormed(View(), n);
      if nodes[myself].master {
        nodes := nodes[myself := nodes[myself].(master := false)];
        importing, migrating := map[], map[];
      }
      nodes := nodes[myself := nodes[myself].(slaveof := Some(n))];
      assert View() == ClusterModel.SetMaster(old(View()), n);
    }

    /**
      clusterUpdateSlotsConfigWith.  The process dies when it reads a NULL `curmaster`, and when the
      assertion of clusterSetMaster fails.
     */
    method UpdateSlotsConfigWith(sender: NodeId, epoch: nat, claim: set<nat>) returns (alive: bool)
      requires Valid() && sender in nodes
      modifies this`nodes, this`bits, this`numslots, this`owner, this`importing, this`migrating
      ensures alive <==> UpdateIsSafe(old(View()), sender, epoch, claim)
      ensures alive ==> Valid() && View() == UpdateSlots(old(View()), sender, epoch, claim)
    {
      hide Rebind, Taken, SlotsLost, CountsMatch, WellFormed;
      ghost var c0 := View();
      MasterIsKnown(c0);
      UpdateSlotsKeepsAgreement(c0, sender, epoch, claim);
      if sender == myself {
        return true;
      }
      var curmaster := if nodes[myself].master then Some(myself) else nodes[myself].slaveof;
      var lost := RebindClaim(sender, epoch, claim);
      RebindAt(c0.t, Taken(c0, sender, epoch, claim), Some(sender));
      if lost {
        if curmaster.None? {
          return false;
        }
        EmptyCount(curmaster.value);
        EmptyCount(myself);
        if numslots[curmaster.value] == 0 {
          if numslots[myself] != 0 {
            return false;
          }
          ClaimedTableOk(c0, sender, epoch, claim);
          SetMaster(sender);
        }
      }
      return true;
    }

    lemma {:induction false} EmptyCount(n: NodeId)
      requires CountsAgree()
      ensures n in bits ==> n in numslots && (numslots[n] == 0 <==> bits[n] == {})
    {
    }

    /** clusterHandleConfigEpochCollision. */
    method HandleConfigEpochCollision(sender: NodeId)
      requires Valid() && sender in nodes
      modifies this`currentEpoch, this`nodes
      ensures Valid() && View() == HandleCollision(old(View()), sender)
    {
      hide WellFormed, CountsMatch;
      SenderHasBits(View(), sender);
      BumpIsWellFormed(View());
      if nodes[sender].configEpoch != nodes[myself].configEpoch || !nodes[sender].master || !nodes[myself].master {
        return;
      }
      if sender <= myself {
        return;
      }
      currentEpoch := currentEpoch + 1;
      nodes := nodes[myself := nodes[myself].(configEpoch := currentEpoch)];
    }

    /** clusterGetMaxEpoch. */
    method GetMaxEpoch() returns (m: nat)
      ensures IsMaxEpoch(View(), m)
    {
      m := 0;
      var todo := nodes.Keys;
      while todo != {}
        invariant todo <= nodes.Keys
        invariant forall n :: n in nodes && n !in todo ==> nodes[n].configEpoch <= m
        invariant m == 0 || exists n :: n in nodes && nodes[n].configEpoch == m
      {
        var n :| n in todo;
        if nodes[n].configEpoch > m {
          m := nodes[n].configEpoch;
        }
        todo := todo - {n};
      }
      if m < currentEpoch {
        m := currentEpoch;
      }
    }

    /** clusterBumpConfigEpochWithoutConsensus. */
    method BumpConfigEpochWithoutConsensus() returns (bumped: bool)
      requires myself in nodes
      modifies this`currentEpoch, this`nodes
      ensures View() == BumpIfBehind(old(View())) && (old(Valid()) ==> Valid())
      ensures bumped <==> !HoldsGreatestEpoch(old(View()))
    {
      hide WellFormed, CountsMatch;
      if Valid() {
        BumpIsWellFormed(View());
      }
      var maxEpoch := GetMaxEpoch();
      bumped := nodes[myself].configEpoch == 0 || nodes[myself].configEpoch != maxEpoch;
      if bumped {
        currentEpoch := currentEpoch + 1;
        nodes := nodes[myself := nodes[myself].(configEpoch := currentEpoch)];
      }
    }

    /** clusterSendFailoverAuthIfNeeded; `recent` is the voted_time test, `vote` whether the ACK is sent. */
    method SendFailoverAuthIfNeeded(p: Packet, recent: bool) returns (vote: bool)
      requires Valid() && p.kind.AuthRequest? && p.sender in nodes
      modifies this`lastVoteEpoch
      ensures Valid() && (vote <==> Grants(old(View()), p, recent))
      ensures View() == if vote then old(View()).(lastVoteEpoch := currentEpoch) else old(View())
    {
      EmptyCount(myself);
      if !nodes[myself].master || numslots[myself] == 0 {
        return false;
      }
      if p.currentEpoch < currentEpoch || lastVoteEpoch == currentEpoch {
        return false;
      }
      var node := nodes[p.sender];
      if node.master || node.slaveof.None? {
        return false;
      }
      assert PeerKnown(View(), node);
      if (!nodes[node.slaveof.value].failed && !p.kind.forceAck) || recent {
        return false;
      }
      for j := 0 to CLUSTER_SLOTS
        invariant forall i :: i in p.slots && i < j ==> !RefusesSlot(View(), p.configEpoch, i)
      {
        if j in p.slots && j in owner && nodes[owner[j]].configEpoch > p.configEpoch {
          assert RefusesSlot(View(), p.configEpoch, j);
          return false;
        }
      }
      OtherFieldsKeep(View(), View().(lastVoteEpoch := currentEpoch));
      lastVoteEpoch := currentEpoch;
      return true;
    }

    /** The winning branch of clusterHandleSlaveFailover with clusterFailoverReplaceYourMaster. */
    method FailoverReplaceYourMaster()
      requires Valid() && !nodes[myself].master && nodes[myself].slaveof.Some? && nodes[myself].slaveof != Some(myself)
      modifies this`nodes, this`bits, this`numslots, this`owner
      ensures Valid() && View() == TakeOver(old(View()))
      ensures ReplacedMaster(old(View()), old(nodes[myself].slaveof.value), View())
    {
      hide Rebind, WellFormed, Agree, CountsMatch, ReplacedMaster;
      MyselfIsKnown(View());
      WinnerReplacesMaster(View(), nodes[myself].slaveof.value);
      TakeOverIsWellFormed(View());
      MasterHasBits(View());
      var oldmaster := nodes[myself].slaveof.value;
      if nodes[myself].configEpoch < authEpoch {
        nodes := nodes[myself := nodes[myself].(configEpoch := authEpoch)];
      }
      nodes := nodes[myself := nodes[myself].(master := true, slaveof := None)];
      GrabSlots(oldmaster, myself);
      assert View() == TakeOver(old(View()));
    }

    /** clusterHandleSlaveFailover once its timing tests have let it through. */
    method HandleSlaveFailover(retry: bool, expired: bool) returns (asked: bool, won: bool)
      requires Valid() && !nodes[myself].master && nodes[myself].slaveof.Some? && nodes[myself].slaveof != Some(myself)
      modifies this
      ensures Valid()
      ensures retry ==> !asked && !won && View() == ScheduleElection(old(View()))
      ensures !retry && expired ==> !asked && !won && View() == old(View())
      ensures !retry && !expired && !old(authSent) ==> asked && !won && View() == StartElection(old(View()))
      ensures !retry && !expired && old(authSent) ==>
                && !asked && (won <==> old(authCount) >= Quorum(old(View())))
                && View() == if won then TakeOver(old(View())) else old(View())
      ensures won ==> ReplacedMaster(old(View()), old(nodes[myself].slaveof.value), View())
    {
      asked, won := false, false;
      OtherFieldsKeep(View(), ScheduleElection(View()));
      OtherFieldsKeep(View(), StartElection(View()));
      hide WellFormed, CountsMatch, ReplacedMaster;
      if retry {
        authCount, authSent := 0, false;
      } else if expired {
      } else if !authSent {
        currentEpoch := currentEpoch + 1;
        authEpoch := currentEpoch;
        authSent := true;
        asked := true;
      } else {
        var size := ClusterSize();
        if authCount >= size / 2 + 1 {
          FailoverReplaceYourMaster();
          won := true;
        }
      }
    }

    /** The cluster size clusterUpdateState computes: masters with at least one slot. */
    method ClusterSize() returns (size: nat)
      requires Valid()
      ensures size == |Voters(View())|
    {
      size := 0;
      var todo := nodes.Keys;
      ghost var seen: set<NodeId> := {};
      while todo != {}
        invariant todo <= nodes.Keys
        invariant seen == set n | n in nodes && n !in todo && IsVoter(View(), n)
        invariant size == |seen|
      {
        var n :| n in todo;
        EmptyCount(n);
        if nodes[n].master && numslots[n] != 0 {
          seen := seen + {n};
          size := size + 1;
        }
        todo := todo - {n};
      }
      assert seen == Voters(View());
    }

    /** The role switch part of clusterProcessPacket. */
    method SwitchRole(p: Packet)
      requires Agree(Table()) && CountsAgree() && p.sender in nodes && p.sender in bits
      modifies this`nodes, this`bits, this`numslots, this`owner
      ensures CountsAgree() && View() == ClusterModel.SwitchRole(old(View()), p) && (old(Valid()) ==> Valid())
    {
      hide Rebind, Agree, CountsMatch, NoDangling;
      if Valid() {
        SwitchRoleKeeps(View(), p);
      }
      if p.slaveof.None? {
        if !nodes[p.sender].master {
          nodes := nodes[p.sender := nodes[p.sender].(master := true, slaveof := None)];
        }
      } else {
        var sender := nodes[p.sender];
        if sender.master {
          var _ := DelNodeSlots(p.sender);
          sender := sender.(master := false);
        }
        if p.slaveof.value in nodes && sender.slaveof != p.slaveof {
          sender := sender.(slaveof := p.slaveof);
        }
        nodes := nodes[p.sender := sender];
      }
      assert View() == ClusterModel.SwitchRole(old(View()), p);
    }

    /** The PING, PONG and MEET branch of clusterProcessPacket, without gossip and replies. */
    method ProcessPing(p: Packet) returns (alive: bool)
      requires Valid() && p.sender in nodes
      modifies this`nodes, this`bits, this`numslots, this`owner, this`importing, this`migrating, this`currentEpoch
      ensures alive <==> CallIsSafe(CallOfPing(old(View()), p))
      ensures alive ==> Valid() && View() == ClusterModel.ProcessPing(old(View()), p)
    {
      hide ClusterModel.SwitchRole, UpdateSlots, UpdateIsSafe, HandleCollision, Agree, CountsMatch;
      SwitchRoleKeeps(View(), p);
      SwitchRole(p);
      ghost var c1 := View();
      var senderMaster := if nodes[p.sender].master then Some(p.sender) else nodes[p.sender].slaveof;
      var dirty := false;
      if senderMaster.Some? {
        assert PeerKnown(c1, c1.nodes[p.sender]);
        dirty := bits[senderMaster.value] != p.slots;
      }
      if nodes[p.sender].master && dirty {
        alive := UpdateSlotsConfigWith(p.sender, p.configEpoch, p.slots);
        if !alive {
          return;
        }
        UpdateSlotsKeepsEpochs(c1, p.sender, p.configEpoch, p.slots);
      }
      if nodes[myself].master && nodes[p.sender].master && p.configEpoch == nodes[myself].configEpoch {
        HandleConfigEpochCollision(p.sender);
      } else {
        NoCollision(View(), p);
      }
      alive := true;
    }

    /** The FAILOVER_AUTH_ACK branch of clusterProcessPacket. */
    method ReceiveAck(p: Packet)
      requires Valid() && p.sender in nodes
      modifies this`authCount
      ensures Valid() && View() == CountAck(old(View()), p)
    {
      EmptyCount(p.sender);
      OtherFieldsKeep(View(), CountAck(View(), p));
      if nodes[p.sender].master && numslots[p.sender] > 0 && p.currentEpoch >= authEpoch {
        authCount := authCount + 1;
      }
    }

    /** The UPDATE branch of clusterProcessPacket. */
    method ProcessUpdate(p: Packet) returns (alive: bool)
      requires Valid() && p.kind.Update?
      modifies this`nodes, this`bits, this`numslots, this`owner, this`importing, this`migrating
      ensures alive <==> CallIsSafe(CallOfUpdate(old(View()), p))
      ensures alive ==> Valid() && View() == ClusterModel.ProcessUpdate(old(View()), p)
    {
      hide UpdateSlots, UpdateIsSafe, Agree, CountsMatch, SlotsLost;
      var n := p.kind.about;
      if n !in nodes || nodes[n].configEpoch >= p.kind.aboutEpoch {
        return true;
      }
      PromotedIsWellFormed(View(), n, p.kind.aboutEpoch);
      if !nodes[n].master {
        nodes := nodes[n := nodes[n].(master := true, slaveof := None)];
      }
      nodes := nodes[n := nodes[n].(configEpoch := p.kind.aboutEpoch)];
      assert View() == Promoted(old(View()), n, p.kind.aboutEpoch);
      alive := UpdateSlotsConfigWith(n, p.kind.aboutEpoch, p.kind.aboutSlots);
    }

    /** The epochs of a packet of a known sender. */
    method Learn(p: Packet)
      requires Valid() && p.sender in nodes
      modifies this`currentEpoch, this`nodes
      ensures Valid() && View() == LearnEpochs(old(View()), p)
    {
      hide WellFormed, CountsMatch;
      LearnIsWellFormed(View(), p);
      if p.currentEpoch > currentEpoch {
        currentEpoch := p.currentEpoch;
      }
      if p.configEpoch > nodes[p.sender].configEpoch {
        nodes := nodes[p.sender := nodes[p.sender].(configEpoch := p.configEpoch)];
      }
      assert View() == LearnEpochs(old(View()), p);
    }

    /** clusterProcessPacket; `vote` says whether an ACK goes back, `alive` whether the process outlives the packet. */
    method ProcessPacket(p: Packet, recent: bool) returns (vote: bool, alive: bool)
      requires Valid()
      modifies this
      ensures alive <==> Survives(old(View()), p)
      ensures alive ==> Valid() && View() == Receive(old(View()), p, recent)
      ensures vote <==> EarnsVote(old(View()), p, recent)
    {
      hide ClusterModel.ProcessPing, ClusterModel.ProcessUpdate, CallOfPing, CallOfUpdate, CallIsSafe, Grants, Agree,
          CountsMatch;
      vote, alive := false, true;
      NoCallIsSafe();
      if p.sender !in nodes {
        return;
      }
      SenderHasBits(View(), p.sender);
      Learn(p);
      match p.kind {
        case Ping => alive := ProcessPing(p);
        case AuthRequest(_) => vote := SendFailoverAuthIfNeeded(p, recent);
        case AuthAck => ReceiveAck(p);
        case Update(_, _, _) => alive := ProcessUpdate(p);
      }
    }

    /** The loop over all other nodes of clusterDelNode, with the unlinking of freeClusterNode. */
    method ForgetNode(n: NodeId)
      modifies this`nodes
      ensures nodes == map m | m in old(nodes) && m != n :: Forget(old(nodes)[m], n)
    {
      ghost var all := nodes;
      var todo := nodes.Keys - {n};
      while todo != {}
        invariant todo <= all.Keys - {n} && nodes.Keys == all.Keys
        invariant forall m :: m in nodes && m != n ==> nodes[m] == if m in todo then all[m] else Forget(all[m], n)
      {
        var m :| m in todo;
        nodes := nodes[m := Forget(nodes[m], n)];
        todo := todo - {m};
      }
      nodes := nodes - {n};
    }

    /** clusterDelNode. */
    method DelNode(n: NodeId)
      requires Agree(Table()) && CountsAgree() && n in nodes && n in bits && n != myself
      requires forall j :: j in Pointing(importing, n) ==> j < CLUSTER_SLOTS
      requires forall j :: j in Pointing(migrating, n) ==> j < CLUSTER_SLOTS
      modifies this`nodes, this`bits, this`numslots, this`owner, this`importing, this`migrating
      ensures CountsAgree() && View() == ClusterModel.DelNode(old(View()), n) && (old(Valid()) ==> Valid())
    {
      hide Rebind, WellFormed, Agree, Forget, Pointing, EpochsBounded, CountsMatch;
      ghost var c0 := View();
      UnassignSlotsOf(n);
      ForgetNode(n);
      ForgetCount(bits, numslots, n);
      bits, numslots := bits - {n}, numslots - {n};
      assert View() == ClusterModel.DelNode(c0, n);
      hide ClusterModel.DelNode;
      if WellFormed(c0) {
        DelNodeLeavesNoReference(c0, n);
      }
    }

    /** The loop over all slots of clusterDelNode. */
    method UnassignSlotsOf(n: NodeId)
      requires Agree(Table()) && CountsAgree() && n in bits
      requires forall j :: j in Pointing(importing, n) ==> j < CLUSTER_SLOTS
      requires forall j :: j in Pointing(migrating, n) ==> j < CLUSTER_SLOTS
      modifies this`bits, this`numslots, this`owner, this`importing, this`migrating
      ensures CountsAgree() && Table() == Rebind(old(Table()), old(bits)[n], None)
      ensures importing == old(importing) - Pointing(old(importing), n)
      ensures migrating == old(migrating) - Pointing(old(migrating), n)
    {
      hide Rebind, SlotTables.DelSlot, CountsMatch, Agree, Below, Pointing, Cleared;
      ghost var t0, gone := Table(), bits[n];
      ghost var imp, mig := importing, migrating;
      RebindNothing(t0, None);
      BelowNone(gone);
      ClearedNone(imp, n);
      ClearedNone(mig, n);
      for j := 0 to CLUSTER_SLOTS
        invariant CountsAgree() && n in bits && Table() == Rebind(t0, Below(gone, j), None)
        invariant importing == Cleared(imp, n, j) && migrating == Cleared(mig, n, j)
      {
        ClearedNext(imp, n, j);
        ClearedNext(mig, n, j);
        if Get(importing, j) == Some(n) {
          importing := importing - {j};
        }
        if Get(migrating, j) == Some(n) {
          migrating := migrating - {j};
        }
        UnbindNext(t0, gone, n, j);
        if Get(owner, j) == Some(n) {
          var _ := DelSlot(j);
        }
      }
      BitsAreSlots(t0, n);
      BelowAll(gone, CLUSTER_SLOTS);
      ClearedAll(imp, n);
      ClearedAll(mig, n);
    }
  }

  /** A slot of our master, or of ours if we are one, is among the slots taken below j. */
  ghost predicate LostBelow(c: Cluster, taken: set<nat>, j: nat)
    requires c.myself in c.nodes
  {
    exists i :: i in Below(taken, j) && Get(c.t.owner, i) == CurMaster(c)
  }

  lemma {:induction false} LostNone(c: Cluster, taken: set<nat>)
    requires c.myself in c.nodes
    ensures !LostBelow(c, taken, 0)
  {
  }

  lemma {:induction false} LostNext(c: Cluster, taken: set<nat>, j: nat)
    requires c.myself in c.nodes
    ensures LostBelow(c, taken, j + 1) <==> LostBelow(c, taken, j) || (j in taken && Get(c.t.owner, j) == CurMaster(c))
  {
    BelowNext(taken, j);
    assert j in Below(taken, j + 1) <==> j in taken;
    assert forall i :: i in Below(taken, j) ==> i in Below(taken, j + 1);
  }

  /** One iteration of the loop of clusterUpdateSlotsConfigWith. */
  lemma {:induction false} ClaimNext(c: Cluster, sender: NodeId, epoch: nat, claim: set<nat>, j: nat)
    requires WellFormed(c) && sender in c.nodes && j < CLUSTER_SLOTS
    ensures var taken := Taken(c, sender, epoch, claim);
            var d := Rebind(c.t, Below(taken, j), Some(sender));
            && Agree(d) && sender in d.bits && Get(d.owner, j) == Get(c.t.owner, j)
            && (j in d.owner ==> d.owner[j] in d.bits && d.owner[j] in c.nodes)
            && (j in taken <==> j in claim && Takes(c, sender, epoch, j))
            && sender in SlotTables.DelSlot(d, j).bits
            && Rebind(c.t, Below(taken, j + 1), Some(sender)) ==
                 if j in taken then SlotTables.AddSlot(SlotTables.DelSlot(d, j), sender, j) else d
  {
    var taken := Taken(c, sender, epoch, claim);
    hide Agree, Rebind, SlotTables.DelSlot, SlotTables.AddSlot, NoDangling;
    SenderHasBits(c, sender);
    var d := Rebind(c.t, Below(taken, j), Some(sender));
    RebindKeepsAgreement(c.t, Below(taken, j), Some(sender));
    RebindAt(c.t, Below(taken, j), Some(sender));
    BelowNext(taken, j);
    MoveKeepsAgreement(d, j, sender);
    RebindOneMore(c.t, Below(taken, j), j, sender);
  }

  lemma {:induction false} SetMasterIsWellFormed(c: Cluster, n: NodeId)
    requires WellFormed(c) && n in c.nodes
    ensures c.myself in c.nodes && WellFormed(ClusterModel.SetMaster(c, n))
  {
    SetMasterKeepsRefs(c, n);
  }

  lemma {:induction false} MasterHasBits(c: Cluster)
    requires WellFormed(c) && c.myself in c.nodes && c.nodes[c.myself].slaveof.Some?
    ensures Agree(c.t) && c.myself in c.t.bits && c.nodes[c.myself].slaveof.value in c.t.bits
  {
    assert PeerKnown(c, c.nodes[c.myself]);
  }

  lemma {:induction false} SenderHasBits(c: Cluster, n: NodeId)
    requires WellFormed(c) && n in c.nodes
    ensures n in c.t.bits && c.myself in c.nodes && c.nodes.Keys == c.t.bits.Keys
  {
  }

  lemma {:induction false} TakenAll(c: Cluster, sender: NodeId, epoch: nat, claim: set<nat>)
    requires WellFormed(c) && sender in c.nodes
    ensures var taken := Taken(c, sender, epoch, claim);
            Below(taken, CLUSTER_SLOTS) == taken && (LostBelow(c, taken, CLUSTER_SLOTS) <==> SlotsLost(c, sender, epoch, claim))
  {
    BelowAll(Taken(c, sender, epoch, claim), CLUSTER_SLOTS);
  }

  /** What is left of a table of importing or migrating slots when the loop of clusterDelNode reaches j. */
  function Cleared(m: map<nat, NodeId>, n: NodeId, j: nat): map<nat, NodeId> {
    m - Below(Pointing(m, n), j)
  }

  lemma {:induction false} ClearedNone(m: map<nat, NodeId>, n: NodeId)
    ensures Cleared(m, n, 0) == m
  {
  }

  lemma {:induction false} ClearedNext(m: map<nat, NodeId>, n: NodeId, j: nat)
    ensures Cleared(m, n, j + 1) == if Get(Cleared(m, n, j), j) == Some(n) then Cleared(m, n, j) - {j} else Cleared(m, n, j)
  {
  }

  lemma {:induction false} ClearedAll(m: map<nat, NodeId>, n: NodeId)
    requires forall j :: j in Pointing(m, n) ==> j < CLUSTER_SLOTS
    ensures Cleared(m, n, CLUSTER_SLOTS) == m - Pointing(m, n)
  {
    BelowAll(Pointing(m, n), CLUSTER_SLOTS);
  }

  lemma {:induction false} BelowNone(s: set<nat>)
    ensures Below(s, 0) == {}
  {
  }

  /** One iteration of the loop of clusterDelNode over the slots of n. */
  lemma {:induction false} UnbindNext(t: SlotTable, gone: set<nat>, n: NodeId, j: nat)
    requires Agree(t) && n in t.bits && gone == t.bits[n]
    ensures var d := Rebind(t, Below(gone, j), None);
            && Agree(d) && n in d.bits && (j in d.owner ==> d.owner[j] in d.bits)
            && Rebind(t, Below(gone, j + 1), None) == if Get(d.owner, j) == Some(n) then SlotTables.DelSlot(d, j) else d
  {
    hide Agree, Rebind, SlotTables.DelSlot;
    RebindKeepsAgreement(t, Below(gone, j), None);
    RebindAt(t, Below(gone, j), None);
    BelowNext(gone, j);
    OwnerIffBit(t, n, j);
    UnbindOneMore(t, Below(gone, j), j);
  }

  lemma {:induction false} OwnerIffBit(t: SlotTable, n: NodeId, j: nat)
    requires Agree(t) && n in t.bits
    ensures j in t.bits[n] <==> Get(t.owner, j) == Some(n)
  {
    assert HasBit(t, n, j) <==> Owns(t, n, j);
  }

  lemma {:induction false} NoCallIsSafe()
    ensures CallIsSafe(None)
  {
  }

  lemma {:induction false} NoCollision(c: Cluster, p: Packet)
    requires c.myself in c.nodes && p.sender in c.nodes
    requires !(c.nodes[c.myself].master && c.nodes[p.sender].master && p.configEpoch == c.nodes[c.myself].configEpoch)
    ensures ResolveCollision(c, p) == c
  {
  }

  /** The table left by the claim of another node is that of a well-formed state. */
  lemma {:induction false} MasterIsKnown(c: Cluster)
    requires WellFormed(c)
    ensures c.myself in c.nodes && c.t.bits.Keys == c.nodes.Keys
    ensures c.nodes[c.myself].slaveof.Some? ==> c.nodes[c.myself].slaveof.value in c.nodes
  {
    assert PeerKnown(c, c.nodes[c.myself]);
  }

  lemma {:induction false} ClaimedTableOk(c: Cluster, sender: NodeId, epoch: nat, claim: set<nat>)
    requires WellFormed(c) && sender in c.nodes
    ensures WellFormed(c.(t := Rebind(c.t, Taken(c, sender, epoch, claim), Some(sender))))
  {
    RebindKeepsAgreement(c.t, Taken(c, sender, epoch, claim), Some(sender));
    NewTableKeepsRefs(c, Rebind(c.t, Taken(c, sender, epoch, claim), Some(sender)));
  }
}
