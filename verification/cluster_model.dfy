/**
  The state one Redis Cluster node keeps about the cluster, and the effect of
  each handler of cluster.c on it, as functions on values.  The class that
  performs the same handlers in place is in cluster_server.dfy; the network of
  several nodes is in cluster_bus.dfy.

  Node names (40 bytes compared with memcmp) are numbers.  A slot bitmap is the
  set of its bits.  Epochs do not wrap.
 */
module ClusterModel {
  import opened SlotTables

  /** What this node knows about one node, itself included (struct clusterNode). */
  datatype Peer = Peer(configEpoch: nat, master: bool, slaveof: Option<NodeId>, failed: bool, failReports: set<NodeId>)

  /** struct clusterState.  An absent key of `importing` or `migrating` is a NULL entry. */
  datatype Cluster = Cluster(
    myself: NodeId,
    currentEpoch: nat,
    lastVoteEpoch: nat,
    nodes: map<NodeId, Peer>,
    t: SlotTable,
    importing: map<nat, NodeId>,
    migrating: map<nat, NodeId>,
    authEpoch: nat,
    authCount: nat,
    authSent: bool)

  datatype Kind =
    | Ping
    | AuthRequest(forceAck: bool)
    | AuthAck
    | Update(about: NodeId, aboutEpoch: nat, aboutSlots: set<nat>)

  /** A packet header plus the part of the body that matters (struct clusterMsg). */
  datatype Packet = Packet(
    kind: Kind,
    sender: NodeId,
    currentEpoch: nat,
    configEpoch: nat,
    slaveof: Option<NodeId>,
    slots: set<nat>)

  function Max(a: nat, b: nat): nat {
    if a < b then b else a
  }

  // ---------------------------------------------------------------- well-formedness

  ghost predicate PeerKnown(c: Cluster, p: Peer) {
    p.failReports <= c.nodes.Keys && (p.slaveof.Some? ==> p.slaveof.value in c.nodes)
  }

  /** Every node reference the state holds points into the node table. */
  ghost predicate NoDangling(c: Cluster) {
    && c.myself in c.nodes
    && c.t.bits.Keys == c.nodes.Keys
    && (forall j :: j in c.importing ==> c.importing[j] in c.nodes && j < CLUSTER_SLOTS)
    && (forall j :: j in c.migrating ==> c.migrating[j] in c.nodes && j < CLUSTER_SLOTS)
    && (forall n {:trigger PeerKnown(c, c.nodes[n])} :: n in c.nodes ==> PeerKnown(c, c.nodes[n]))
  }

  ghost predicate WellFormed(c: Cluster) {
    Agree(c.t) && NoDangling(c)
  }

  /** Every config epoch in the table is at most the current epoch; so are the election epochs. */
  ghost predicate EpochsBounded(c: Cluster) {
    && (forall n :: n in c.nodes ==> c.nodes[n].configEpoch <= c.currentEpoch)
    && c.lastVoteEpoch <= c.currentEpoch
    && c.authEpoch <= c.currentEpoch
  }

  ghost predicate PacketBounded(p: Packet) {
    p.configEpoch <= p.currentEpoch && (p.kind.Update? ==> p.kind.aboutEpoch <= p.currentEpoch)
  }

  /** The config epoch of the owner of slot j. */
  function OwnerEpoch(c: Cluster, j: nat): nat
    requires j in c.t.owner
  {
    if c.t.owner[j] in c.nodes then c.nodes[c.t.owner[j]].configEpoch else 0
  }

  // ---------------------------------------------------------------- slots

  /** The slots of a claim that clusterUpdateSlotsConfigWith hands to `sender`. */
  function Taken(c: Cluster, sender: NodeId, epoch: nat, claim: set<nat>): set<nat> {
    set j | j in claim && Takes(c, sender, epoch, j)
  }

  predicate Takes(c: Cluster, sender: NodeId, epoch: nat, j: nat) {
    && j < CLUSTER_SLOTS
    && Get(c.t.owner, j) != Some(sender)
    && j !in c.importing
    && (j in c.t.owner ==> OwnerEpoch(c, j) < epoch)
  }

  /** The node whose slots count as ours: ourselves, or the master we replicate, if we know it. */
  function CurMaster(c: Cluster): Option<NodeId>
    requires c.myself in c.nodes
  {
    if c.nodes[c.myself].master then Some(c.myself) else c.nodes[c.myself].slaveof
  }

  /** clusterSetMaster: become a replica of `n`; a former master closes all its open slots. */
  function SetMaster(c: Cluster, n: NodeId): Cluster
    requires c.myself in c.nodes
  {
    var me := c.nodes[c.myself];
    c.(nodes := c.nodes[c.myself := me.(master := false, slaveof := Some(n))],
       importing := if me.master then map[] else c.importing,
       migrating := if me.master then map[] else c.migrating)
  }

  /** The loop of clusterUpdateSlotsConfigWith leaves `newmaster` set. */
  predicate SlotsLost(c: Cluster, sender: NodeId, epoch: nat, claim: set<nat>)
    requires c.myself in c.nodes
  {
    exists j :: j in Taken(c, sender, epoch, claim) && Get(c.t.owner, j) == CurMaster(c)
  }

  /** After its loop clusterUpdateSlotsConfigWith reads curmaster->numslots exactly when `newmaster` is set. */
  predicate UpdateIsDefined(c: Cluster, sender: NodeId, epoch: nat, claim: set<nat>)
    requires c.myself in c.nodes
  {
    sender == c.myself || CurMaster(c).Some? || !SlotsLost(c, sender, epoch, claim)
  }

  /** The bitmap of a node once the claim has been granted. */
  function BitsAfter(c: Cluster, sender: NodeId, epoch: nat, claim: set<nat>, n: NodeId): Option<set<nat>> {
    Get(Rebind(c.t, Taken(c, sender, epoch, claim), Some(sender)).bits, n)
  }

  /** The claim took the last slots of our master, or our own: we follow the sender. */
  predicate Follows(c: Cluster, sender: NodeId, epoch: nat, claim: set<nat>)
    requires c.myself in c.nodes
  {
    SlotsLost(c, sender, epoch, claim) && CurMaster(c).Some? && BitsAfter(c, sender, epoch, claim, CurMaster(c).value) == Some({})
  }

  /**
    clusterUpdateSlotsConfigWith does not kill the process: `curmaster` is not NULL when it is read, and
    the assertion of clusterSetMaster, that this node holds no slot, holds when it is called.
   */
  predicate UpdateIsSafe(c: Cluster, sender: NodeId, epoch: nat, claim: set<nat>)
    requires c.myself in c.nodes
  {
    || sender == c.myself
    || (&& UpdateIsDefined(c, sender, epoch, claim)
        && (Follows(c, sender, epoch, claim) ==> BitsAfter(c, sender, epoch, claim, c.myself) == Some({})))
  }

  /** clusterUpdateSlotsConfigWith, closed form of its loop over all slots. */
  function UpdateSlots(c: Cluster, sender: NodeId, epoch: nat, claim: set<nat>): Cluster
    requires c.myself in c.nodes
  {
    if sender == c.myself then c
    else
      var d := c.(t := Rebind(c.t, Taken(c, sender, epoch, claim), Some(sender)));
      if Follows(c, sender, epoch, claim) then SetMaster(d, sender) else d
  }

  lemma {:induction false} SetMasterKeepsRefs(c: Cluster, n: NodeId)
    requires NoDangling(c) && n in c.nodes
    ensures NoDangling(SetMaster(c, n))
  {
    var d := SetMaster(c, n);
    forall m | m in d.nodes ensures PeerKnown(d, d.nodes[m]) {
      assert PeerKnown(c, c.nodes[m]);
    }
  }

  lemma {:induction false} UpdateSlotsKeepsAgreement(c: Cluster, sender: NodeId, epoch: nat, claim: set<nat>)
    requires WellFormed(c) && sender in c.nodes
    ensures WellFormed(UpdateSlots(c, sender, epoch, claim))
    ensures UpdateSlots(c, sender, epoch, claim).nodes.Keys == c.nodes.Keys
  {
    if sender != c.myself {
      RebindKeepsAgreement(c.t, Taken(c, sender, epoch, claim), Some(sender));
      var d := c.(t := Rebind(c.t, Taken(c, sender, epoch, claim), Some(sender)));
      assert NoDangling(d) by {
        forall m | m in d.nodes ensures PeerKnown(d, d.nodes[m]) {
          assert PeerKnown(c, c.nodes[m]);
        }
      }
      SetMasterKeepsRefs(d, sender);
    }
  }

  /** clusterDelNode: every reference to `n` goes with it. */
  function DelNode(c: Cluster, n: NodeId): Cluster
    requires n in c.nodes && n in c.t.bits
  {
    var r := Rebind(c.t, c.t.bits[n], None);
    c.(t := r.(bits := r.bits - {n}),
       importing := c.importing - Pointing(c.importing, n),
       migrating := c.migrating - Pointing(c.migrating, n),
       nodes := map m | m in c.nodes && m != n :: Forget(c.nodes[m], n))
  }

  /** The slots an importing or migrating table maps to `n`. */
  function Pointing(m: map<nat, NodeId>, n: NodeId): set<nat> {
    set j | j in m && m[j] == n
  }

  function Forget(p: Peer, n: NodeId): Peer {
    p.(failReports := p.failReports - {n}, slaveof := if p.slaveof == Some(n) then None else p.slaveof)
  }

  /** Deleting a node leaves no slot, importing, migrating, replica or failure-report reference to it. */
  lemma {:induction false} DelNodeLeavesNoReference(c: Cluster, n: NodeId)
    requires WellFormed(c) && n in c.nodes && n != c.myself
    ensures WellFormed(DelNode(c, n))
    ensures DelNode(c, n).nodes.Keys == c.nodes.Keys - {n}
    ensures forall j :: j in DelNode(c, n).t.owner <==> j in c.t.owner && c.t.owner[j] != n
    ensures EpochsBounded(c) ==> EpochsBounded(DelNode(c, n))
    ensures SameElection(c, DelNode(c, n)) && DelNode(c, n).currentEpoch == c.currentEpoch
  {
    var d := DelNode(c, n);
    var r := Rebind(c.t, c.t.bits[n], None);
    RebindKeepsAgreement(c.t, c.t.bits[n], None);
    forall m, j ensures HasBit(d.t, m, j) <==> Owns(d.t, m, j) {
      assert HasBit(r, m, j) <==> Owns(r, m, j);
      assert HasBit(c.t, n, j) <==> Owns(c.t, n, j);
    }
    forall j | j in c.t.owner ensures j in d.t.owner <==> c.t.owner[j] != n {
      assert HasBit(c.t, n, j) <==> Owns(c.t, n, j);
    }
    forall m | m in d.nodes ensures PeerKnown(d, d.nodes[m]) {
      assert PeerKnown(c, c.nodes[m]);
    }
  }

  // ---------------------------------------------------------------- epochs

  /** The value clusterGetMaxEpoch computes: the least upper bound of all epochs this node knows. */
  ghost predicate IsMaxEpoch(c: Cluster, m: nat) {
    && c.currentEpoch <= m
    && (forall n :: n in c.nodes ==> c.nodes[n].configEpoch <= m)
    && (m == c.currentEpoch || exists n :: n in c.nodes && c.nodes[n].configEpoch == m)
  }

  /** A new config epoch for ourselves, one above the current epoch. */
  function Bump(c: Cluster): Cluster
    requires c.myself in c.nodes
  {
    c.(currentEpoch := c.currentEpoch + 1,
       nodes := c.nodes[c.myself := c.nodes[c.myself].(configEpoch := c.currentEpoch + 1)])
  }

  /** We already hold the greatest epoch around, and it is not zero. */
  predicate HoldsGreatestEpoch(c: Cluster)
    requires c.myself in c.nodes
  {
    var mine := c.nodes[c.myself].configEpoch;
    mine != 0 && c.currentEpoch <= mine && forall n :: n in c.nodes ==> c.nodes[n].configEpoch <= mine
  }

  /** clusterBumpConfigEpochWithoutConsensus. */
  function BumpIfBehind(c: Cluster): Cluster
    requires c.myself in c.nodes
  {
    if HoldsGreatestEpoch(c) then c else Bump(c)
  }

  /** The guard of clusterHandleConfigEpochCollision. */
  predicate Collides(c: Cluster, sender: NodeId)
    requires c.myself in c.nodes && sender in c.nodes
  {
    && c.nodes[sender].configEpoch == c.nodes[c.myself].configEpoch
    && c.nodes[sender].master && c.nodes[c.myself].master
    && c.myself < sender
  }

  /** clusterHandleConfigEpochCollision. */
  function HandleCollision(c: Cluster, sender: NodeId): Cluster
    requires c.myself in c.nodes && sender in c.nodes
  {
    if Collides(c, sender) then Bump(c) else c
  }

  /** The first thing clusterProcessPacket does with a packet of a known sender. */
  function LearnEpochs(c: Cluster, p: Packet): Cluster
    requires p.sender in c.nodes
  {
    var s := c.nodes[p.sender];
    c.(currentEpoch := Max(c.currentEpoch, p.currentEpoch),
       nodes := c.nodes[p.sender := s.(configEpoch := Max(s.configEpoch, p.configEpoch))])
  }

  // ---------------------------------------------------------------- elections

  /** A master with at least one slot, as this node sees it. */
  predicate IsVoter(c: Cluster, n: NodeId) {
    n in c.nodes && n in c.t.bits && c.nodes[n].master && c.t.bits[n] != {}
  }

  function Voters(c: Cluster): set<NodeId> {
    set n | n in c.nodes && IsVoter(c, n)
  }

  /** needed_quorum, with the cluster size clusterUpdateState computes. */
  function Quorum(c: Cluster): (q: nat)
    ensures 2 * (q - 1) <= |Voters(c)| < 2 * q
  {
    |Voters(c)| / 2 + 1
  }

  /** clusterSendFailoverAuthIfNeeded grants its vote.  `recent` is the voted_time test. */
  predicate Grants(c: Cluster, p: Packet, recent: bool)
    requires p.kind.AuthRequest?
  {
    && IsVoter(c, c.myself)
    && c.currentEpoch <= p.currentEpoch
    && c.lastVoteEpoch != c.currentEpoch
    && p.sender in c.nodes
    && !c.nodes[p.sender].master
    && c.nodes[p.sender].slaveof.Some?
    && c.nodes[p.sender].slaveof.value in c.nodes
    && (c.nodes[c.nodes[p.sender].slaveof.value].failed || p.kind.forceAck)
    && !recent
    && (forall j :: j in p.slots ==> !RefusesSlot(c, p.configEpoch, j))
  }

  /** The claim of slot j is older than the configuration we know for it. */
  predicate RefusesSlot(c: Cluster, epoch: nat, j: nat) {
    j < CLUSTER_SLOTS && j in c.t.owner && OwnerEpoch(c, j) > epoch
  }

  /** The FAILOVER_AUTH_ACK branch of clusterProcessPacket. */
  function CountAck(c: Cluster, p: Packet): Cluster {
    if IsVoter(c, p.sender) && p.currentEpoch >= c.authEpoch then c.(authCount := c.authCount + 1) else c
  }

  /** A new attempt is scheduled by clusterHandleSlaveFailover: counter and flag reset, epoch kept. */
  function ScheduleElection(c: Cluster): Cluster {
    c.(authCount := 0, authSent := false)
  }

  /** clusterHandleSlaveFailover asks for votes. */
  function StartElection(c: Cluster): Cluster {
    c.(currentEpoch := c.currentEpoch + 1, authEpoch := c.currentEpoch + 1, authSent := true)
  }

  /** clusterSetNodeAsMaster. */
  function PromoteNode(c: Cluster, n: NodeId): Cluster
    requires n in c.nodes
  {
    if c.nodes[n].master then c
    else c.(nodes := c.nodes[n := c.nodes[n].(master := true, slaveof := None)])
  }

  /** The winner takes the epoch of the election, then clusterFailoverReplaceYourMaster. */
  function TakeOver(c: Cluster): Cluster
    requires c.myself in c.nodes
  {
    var me := c.nodes[c.myself];
    var c1 := c.(nodes := c.nodes[c.myself := me.(configEpoch := Max(me.configEpoch, c.authEpoch))]);
    if me.master || me.slaveof.None? || me.slaveof.value !in c.t.bits then c1
    else PromoteNode(c1, c.myself).(t := Rebind(c.t, c.t.bits[me.slaveof.value], Some(c.myself)))
  }

  // ---------------------------------------------------------------- packets

  /** clusterBuildMessageHdr. */
  function Header(c: Cluster, kind: Kind): (p: Packet)
    requires c.myself in c.nodes
  {
    var me := c.nodes[c.myself];
    var m := if !me.master && me.slaveof.Some? && me.slaveof.value in c.nodes then me.slaveof.value else c.myself;
    Packet(kind, c.myself, c.currentEpoch, c.nodes[m].configEpoch, me.slaveof, if m in c.t.bits then c.t.bits[m] else {})
  }

  /** The role switch part of clusterProcessPacket. */
  function SwitchRole(c: Cluster, p: Packet): Cluster
    requires p.sender in c.nodes && p.sender in c.t.bits
  {
    if p.slaveof.None? then PromoteNode(c, p.sender)
    else
      var s := c.nodes[p.sender];
      c.(t := if s.master then Rebind(c.t, c.t.bits[p.sender], None) else c.t,
         nodes := c.nodes[p.sender :=
           s.(master := false, slaveof := if p.slaveof.value in c.nodes then p.slaveof else s.slaveof)])
  }

  /** The dirty_slots test: the claim differs from the bitmap we hold for the node the sender speaks for. */
  predicate Dirty(c: Cluster, p: Packet)
    requires p.sender in c.nodes
  {
    var m := if c.nodes[p.sender].master then Some(p.sender) else c.nodes[p.sender].slaveof;
    m.Some? && m.value in c.t.bits && c.t.bits[m.value] != p.slots
  }

  /** The claim part of a PING, PONG or MEET. */
  function AbsorbClaim(c: Cluster, p: Packet): Cluster
    requires c.myself in c.nodes && p.sender in c.nodes
  {
    if c.nodes[p.sender].master && Dirty(c, p) then UpdateSlots(c, p.sender, p.configEpoch, p.slots) else c
  }

  /** The collision part of a PING, PONG or MEET. */
  function ResolveCollision(c: Cluster, p: Packet): Cluster
    requires c.myself in c.nodes && p.sender in c.nodes
  {
    if p.configEpoch == c.nodes[c.myself].configEpoch then HandleCollision(c, p.sender) else c
  }

  /** State after the config part of a PING, PONG or MEET, before the gossip section. */
  function ProcessPing(c: Cluster, p: Packet): Cluster
    requires c.myself in c.nodes && p.sender in c.nodes && p.sender in c.t.bits
  {
    ResolveCollision(AbsorbClaim(SwitchRole(c, p), p), p)
  }

  /** The UPDATE branch: adopt a newer configuration of a known node. */
  function ProcessUpdate(c: Cluster, p: Packet): Cluster
    requires c.myself in c.nodes && p.kind.Update?
  {
    var n := p.kind.about;
    if n !in c.nodes || p.kind.aboutEpoch <= c.nodes[n].configEpoch then c
    else UpdateSlots(Promoted(c, n, p.kind.aboutEpoch), n, p.kind.aboutEpoch, p.kind.aboutSlots)
  }

  /** The node an UPDATE is about, a master with the reported epoch. */
  function Promoted(c: Cluster, n: NodeId, epoch: nat): Cluster
    requires n in c.nodes
  {
    var d := PromoteNode(c, n);
    d.(nodes := d.nodes[n := d.nodes[n].(configEpoch := epoch)])
  }

  /** clusterProcessPacket: packets of unknown senders change nothing. */
  function Receive(c: Cluster, p: Packet, recent: bool): Cluster
    requires NoDangling(c)
  {
    if p.sender !in c.nodes then c
    else
      var d := LearnEpochs(c, p);
      match p.kind
      case Ping => ProcessPing(d, p)
      case AuthRequest(_) => if Grants(d, p, recent) then d.(lastVoteEpoch := d.currentEpoch) else d
      case AuthAck => CountAck(d, p)
      case Update(_, _, _) => ProcessUpdate(d, p)
  }

  /** The vote a delivered request earns, if any. */
  predicate EarnsVote(c: Cluster, p: Packet, recent: bool) {
    p.kind.AuthRequest? && p.sender in c.nodes && Grants(LearnEpochs(c, p), p, recent)
  }

  /** A call of clusterUpdateSlotsConfigWith: the state it starts from and its arguments. */
  datatype Call = Call(at: Cluster, sender: NodeId, epoch: nat, claim: set<nat>)

  /** The call that handling a PING, PONG or MEET makes. */
  function CallOfPing(c: Cluster, p: Packet): Option<Call>
    requires p.sender in c.nodes && p.sender in c.t.bits
  {
    var e := SwitchRole(c, p);
    if e.nodes[p.sender].master && Dirty(e, p) then Some(Call(e, p.sender, p.configEpoch, p.slots)) else None
  }

  /** The call that handling an UPDATE makes: none when it says nothing new. */
  function CallOfUpdate(c: Cluster, p: Packet): Option<Call>
    requires p.kind.Update?
  {
    var n := p.kind.about;
    if n in c.nodes && p.kind.aboutEpoch > c.nodes[n].configEpoch
    then Some(Call(Promoted(c, n, p.kind.aboutEpoch), n, p.kind.aboutEpoch, p.kind.aboutSlots))
    else None
  }

  function CallOf(c: Cluster, p: Packet): Option<Call>
    requires NoDangling(c)
  {
    if p.sender !in c.nodes then None
    else
      match p.kind
      case Ping => CallOfPing(LearnEpochs(c, p), p)
      case Update(_, _, _) => CallOfUpdate(LearnEpochs(c, p), p)
      case _ => None
  }

  /** The call, if there is one, leaves the process alive. */
  predicate CallIsSafe(call: Option<Call>) {
    call.Some? && call.value.at.myself in call.value.at.nodes ==>
      UpdateIsSafe(call.value.at, call.value.sender, call.value.epoch, call.value.claim)
  }

  /** The process is alive after it has handled the packet. */
  predicate Survives(c: Cluster, p: Packet)
    requires NoDangling(c)
  {
    CallIsSafe(CallOf(c, p))
  }

  /** Handling the packet reads through a NULL pointer. */
  predicate ReadsNull(c: Cluster, p: Packet)
    requires NoDangling(c)
  {
    var call := CallOf(c, p);
    && call.Some? && call.value.at.myself in call.value.at.nodes
    && !UpdateIsDefined(call.value.at, call.value.sender, call.value.epoch, call.value.claim)
  }

  // ---------------------------------------------------------------- what every handler keeps

  lemma {:induction false} TouchPeerKeepsRefs(c: Cluster, n: NodeId, p: Peer)
    requires NoDangling(c) && n in c.nodes && PeerKnown(c, p)
    ensures NoDangling(c.(nodes := c.nodes[n := p]))
  {
    var d := c.(nodes := c.nodes[n := p]);
    forall m | m in d.nodes ensures PeerKnown(d, d.nodes[m]) {
      assert m == n || PeerKnown(c, c.nodes[m]);
    }
  }

  lemma {:induction false} NewTableKeepsRefs(c: Cluster, t: SlotTable)
    requires NoDangling(c) && t.bits.Keys == c.t.bits.Keys
    ensures NoDangling(c.(t := t))
  {
    var d := c.(t := t);
    forall m | m in d.nodes ensures PeerKnown(d, d.nodes[m]) {
      assert PeerKnown(c, c.nodes[m]);
    }
  }

  /** Closing open slots keeps the references of the others. */
  lemma {:induction false} CloseKeepsRefs(c: Cluster, imp: set<nat>, mig: set<nat>)
    requires NoDangling(c)
    ensures NoDangling(c.(importing := c.importing - imp, migrating := c.migrating - mig))
  {
    var d := c.(importing := c.importing - imp, migrating := c.migrating - mig);
    forall m | m in d.nodes ensures PeerKnown(d, d.nodes[m]) {
      assert PeerKnown(c, c.nodes[m]);
    }
  }

  /** `d` differs from `c` in roles, slots and open slots only: no epoch and no election field moved. */
  ghost predicate SameEpochs(c: Cluster, d: Cluster) {
    && d.myself == c.myself && d.currentEpoch == c.currentEpoch && d.lastVoteEpoch == c.lastVoteEpoch
    && d.authEpoch == c.authEpoch && d.authCount == c.authCount && d.authSent == c.authSent
    && d.nodes.Keys == c.nodes.Keys
    && (forall n :: n in c.nodes ==> d.nodes[n].configEpoch == c.nodes[n].configEpoch)
  }

  lemma {:induction false} SwitchRoleKeeps(c: Cluster, p: Packet)
    requires WellFormed(c) && p.sender in c.nodes
    ensures WellFormed(SwitchRole(c, p)) && SameEpochs(c, SwitchRole(c, p))
  {
    hide Rebind, Agree;
    assert PeerKnown(c, c.nodes[p.sender]);
    var d := SwitchRole(c, p);
    SwitchedPeer(c, p);
    RebindKeepsAgreement(c.t, c.t.bits[p.sender], None);
    TouchPeerKeepsRefs(c, p.sender, d.nodes[p.sender]);
    assert c.nodes[p.sender := d.nodes[p.sender]] == d.nodes;
    NewTableKeepsRefs(c.(nodes := d.nodes), d.t);
    hide NoDangling, PeerKnown;
  }

  lemma {:induction false} SwitchedPeer(c: Cluster, p: Packet)
    requires NoDangling(c) && p.sender in c.nodes && PeerKnown(c, c.nodes[p.sender])
    ensures var d := SwitchRole(c, p);
            && p.sender in d.nodes && PeerKnown(c, d.nodes[p.sender]) && d.nodes == c.nodes[p.sender := d.nodes[p.sender]]
            && d.nodes[p.sender].configEpoch == c.nodes[p.sender].configEpoch
  {
    hide Rebind;
  }

  lemma {:induction false} UpdateSlotsKeepsEpochs(c: Cluster, sender: NodeId, epoch: nat, claim: set<nat>)
    requires c.myself in c.nodes
    ensures SameEpochs(c, UpdateSlots(c, sender, epoch, claim))
  {
  }

  lemma {:induction false} AbsorbClaimKeeps(c: Cluster, p: Packet)
    requires WellFormed(c) && p.sender in c.nodes
    ensures WellFormed(AbsorbClaim(c, p)) && SameEpochs(c, AbsorbClaim(c, p))
  {
    UpdateSlotsKeepsAgreement(c, p.sender, p.configEpoch, p.slots);
    UpdateSlotsKeepsEpochs(c, p.sender, p.configEpoch, p.slots);
  }

  lemma {:induction false} BumpIsWellFormed(c: Cluster)
    requires WellFormed(c)
    ensures WellFormed(Bump(c))
  {
    assert PeerKnown(c, c.nodes[c.myself]);
    TouchPeerKeepsRefs(c, c.myself, Bump(c).nodes[c.myself]);
    OtherFieldsKeep(c.(nodes := Bump(c).nodes), Bump(c));
  }

  /** A bump, however it came about, takes an epoch strictly above every epoch this node knows. */
  lemma {:induction false} BumpIsFresh(c: Cluster)
    requires WellFormed(c) && EpochsBounded(c)
    ensures WellFormed(Bump(c)) && EpochsBounded(Bump(c))
    ensures forall n :: n in c.nodes ==> c.nodes[n].configEpoch < Bump(c).nodes[c.myself].configEpoch
    ensures forall m :: IsMaxEpoch(c, m) ==> m == c.currentEpoch
  {
    BumpIsWellFormed(c);
  }

  lemma {:induction false} BumpIfBehindKeeps(c: Cluster)
    requires WellFormed(c) && EpochsBounded(c)
    ensures var d := BumpIfBehind(c);
            && WellFormed(d) && EpochsBounded(d) && SameElection(c, d) && d.currentEpoch >= c.currentEpoch
            && d.t == c.t && d.importing == c.importing && d.migrating == c.migrating && d.nodes.Keys == c.nodes.Keys
  {
    BumpIsFresh(c);
  }

  lemma {:induction false} LearnKeeps(c: Cluster, p: Packet)
    requires WellFormed(c) && EpochsBounded(c) && PacketBounded(p) && p.sender in c.nodes
    ensures WellFormed(LearnEpochs(c, p)) && EpochsBounded(LearnEpochs(c, p))
    ensures LearnEpochs(c, p).currentEpoch == Max(c.currentEpoch, p.currentEpoch)
  {
    var d := LearnEpochs(c, p);
    assert PeerKnown(c, c.nodes[p.sender]);
    forall m | m in d.nodes ensures PeerKnown(d, d.nodes[m]) {
      assert PeerKnown(c, c.nodes[m]);
    }
  }

  lemma {:induction false} ResolveCollisionKeeps(c: Cluster, p: Packet)
    requires WellFormed(c) && EpochsBounded(c) && p.sender in c.nodes
    ensures WellFormed(ResolveCollision(c, p)) && EpochsBounded(ResolveCollision(c, p))
    ensures ResolveCollision(c, p).currentEpoch >= c.currentEpoch && SameElection(c, ResolveCollision(c, p))
  {
    BumpIsFresh(c);
  }

  lemma {:induction false} SameEpochsKeep(c: Cluster, d: Cluster, e: Cluster)
    requires EpochsBounded(c) && SameEpochs(c, d) && SameEpochs(d, e)
    ensures EpochsBounded(e) && SameElection(c, e) && e.nodes.Keys == c.nodes.Keys
  {
  }

  lemma {:induction false} ProcessPingKeeps(c: Cluster, p: Packet)
    requires WellFormed(c) && EpochsBounded(c) && p.sender in c.nodes
    ensures WellFormed(ProcessPing(c, p)) && EpochsBounded(ProcessPing(c, p))
    ensures ProcessPing(c, p).currentEpoch >= c.currentEpoch
    ensures SameElection(c, ProcessPing(c, p))
  {
    hide SwitchRole, AbsorbClaim, ResolveCollision, Agree;
    SwitchRoleKeeps(c, p);
    var d := SwitchRole(c, p);
    AbsorbClaimKeeps(d, p);
    var e := AbsorbClaim(d, p);
    SameEpochsKeep(c, d, e);
    ResolveCollisionKeeps(e, p);
  }

  /** No vote was given and no election field moved. */
  ghost predicate SameElection(c: Cluster, d: Cluster) {
    && d.myself == c.myself && d.lastVoteEpoch == c.lastVoteEpoch && d.authEpoch == c.authEpoch
    && d.authCount == c.authCount && d.authSent == c.authSent
  }

  lemma {:induction false} MyselfIsKnown(c: Cluster)
    requires WellFormed(c)
    ensures c.myself in c.nodes && c.t.bits.Keys == c.nodes.Keys && NoDangling(c)
  {
  }

  lemma {:induction false} ProcessUpdateKeeps(c: Cluster, p: Packet)
    requires WellFormed(c) && EpochsBounded(c) && p.kind.Update? && p.kind.aboutEpoch <= c.currentEpoch
    ensures WellFormed(ProcessUpdate(c, p)) && EpochsBounded(ProcessUpdate(c, p))
    ensures ProcessUpdate(c, p).currentEpoch == c.currentEpoch
    ensures SameElection(c, ProcessUpdate(c, p))
  {
    hide UpdateSlots, WellFormed, Promoted;
    MyselfIsKnown(c);
    var n := p.kind.about;
    if n in c.nodes && p.kind.aboutEpoch > c.nodes[n].configEpoch {
      PromotedKeeps(c, n, p.kind.aboutEpoch);
      var e := Promoted(c, n, p.kind.aboutEpoch);
      MyselfIsKnown(e);
      UpdateSlotsKeepsAgreement(e, n, p.kind.aboutEpoch, p.kind.aboutSlots);
      UpdateSlotsKeepsEpochs(e, n, p.kind.aboutEpoch, p.kind.aboutSlots);
    }
  }

  lemma {:induction false} PromotedIsWellFormed(c: Cluster, n: NodeId, epoch: nat)
    requires WellFormed(c) && n in c.nodes
    ensures WellFormed(Promoted(c, n, epoch)) && Promoted(c, n, epoch).nodes.Keys == c.nodes.Keys
  {
    hide Agree;
    var q := Promoted(c, n, epoch).nodes[n];
    assert PeerKnown(c, c.nodes[n]);
    TouchPeerKeepsRefs(c, n, q);
    assert Promoted(c, n, epoch) == c.(nodes := c.nodes[n := q]);
  }

  lemma {:induction false} PromotedKeeps(c: Cluster, n: NodeId, epoch: nat)
    requires WellFormed(c) && EpochsBounded(c) && n in c.nodes && epoch <= c.currentEpoch
    ensures var e := Promoted(c, n, epoch);
            WellFormed(e) && EpochsBounded(e) && SameElection(c, e) && e.currentEpoch == c.currentEpoch && n in e.nodes
  {
    PromotedIsWellFormed(c, n, epoch);
  }

  /** Every packet leaves the state well formed, its epochs bounded and its current epoch no smaller. */
  lemma {:induction false} ReceiveKeeps(c: Cluster, p: Packet, recent: bool)
    requires WellFormed(c) && EpochsBounded(c) && PacketBounded(p)
    ensures WellFormed(Receive(c, p, recent)) && EpochsBounded(Receive(c, p, recent))
    ensures c.currentEpoch <= Receive(c, p, recent).currentEpoch
    ensures Receive(c, p, recent).myself == c.myself
  {
    if p.sender in c.nodes {
      assert LearnEpochs(c, p).currentEpoch >= c.currentEpoch && LearnEpochs(c, p).myself == c.myself;
      hide ProcessPing, ProcessUpdate, Grants, CountAck, WellFormed, EpochsBounded, LearnEpochs;
      LearnKeeps(c, p);
      var d := LearnEpochs(c, p);
      VoteKeeps(d, p);
      match p.kind {
        case Ping => ProcessPingKeeps(d, p);
        case Update(_, _, _) => ProcessUpdateKeeps(d, p);
        case _ =>
      }
    }
  }

  lemma {:induction false} VoteKeeps(d: Cluster, p: Packet)
    requires WellFormed(d) && EpochsBounded(d)
    ensures var e := d.(lastVoteEpoch := d.currentEpoch); WellFormed(e) && EpochsBounded(e)
    ensures var e := CountAck(d, p);
            WellFormed(e) && EpochsBounded(e) && e.currentEpoch == d.currentEpoch && e.myself == d.myself
  {
    OtherFieldsKeep(d, d.(lastVoteEpoch := d.currentEpoch));
    OtherFieldsKeep(d, CountAck(d, p));
    hide WellFormed, IsVoter;
  }

  /** Well-formedness reads the node table, the slot table and the open slots only. */
  lemma {:induction false} OtherFieldsKeep(c: Cluster, d: Cluster)
    requires WellFormed(c)
    requires d.myself == c.myself && d.nodes == c.nodes && d.t == c.t && d.importing == c.importing
    requires d.migrating == c.migrating
    ensures WellFormed(d)
  {
    forall m | m in d.nodes ensures PeerKnown(d, d.nodes[m]) {
      assert PeerKnown(c, c.nodes[m]);
    }
  }

  /** A promotion keeps the state well formed and its epochs bounded. */
  lemma {:induction false} TakeOverKeeps(c: Cluster)
    requires WellFormed(c) && EpochsBounded(c)
    ensures WellFormed(TakeOver(c)) && EpochsBounded(TakeOver(c))
    ensures TakeOver(c).currentEpoch == c.currentEpoch && SameElection(c, TakeOver(c))
    ensures TakeOver(c).nodes[c.myself].configEpoch >= c.authEpoch
    ensures KnowsMaster(c) ==> KnowsMaster(TakeOver(c))
    ensures NoStraySlots(c) ==> NoStraySlots(TakeOver(c))
  {
    hide Agree, Rebind;
    TakeOverIsWellFormed(c);
  }

  lemma {:induction false} TakeOverIsWellFormed(c: Cluster)
    requires WellFormed(c)
    ensures WellFormed(TakeOver(c))
  {
    hide Rebind;
    var d := TakeOver(c);
    assert PeerKnown(c, c.nodes[c.myself]);
    TouchPeerKeepsRefs(c, c.myself, d.nodes[c.myself]);
    assert d.nodes == c.nodes[c.myself := d.nodes[c.myself]];
    if d.t != c.t {
      var m := c.nodes[c.myself].slaveof.value;
      forall j | j in c.t.bits[m] ensures j < CLUSTER_SLOTS {
        assert HasBit(c.t, m, j) <==> Owns(c.t, m, j);
      }
      RebindKeepsAgreement(c.t, c.t.bits[m], Some(c.myself));
      NewTableKeepsRefs(c.(nodes := d.nodes), d.t);
    }
  }

  lemma {:induction false} HeaderIsBounded(c: Cluster, kind: Kind)
    requires WellFormed(c) && EpochsBounded(c)
    requires kind.Update? ==> kind.aboutEpoch <= c.currentEpoch
    ensures PacketBounded(Header(c, kind)) && Header(c, kind).kind == kind && Header(c, kind).sender == c.myself
  {
  }

  /**
    clusterUpdateSlotsConfigWith reads through a NULL `curmaster` exactly when this node is a
    replica that does not know its master and the claim holds an unassigned slot it is not importing.
   */
  lemma {:induction false} UpdateIsUndefinedIff(c: Cluster, sender: NodeId, epoch: nat, claim: set<nat>)
    requires c.myself in c.nodes && sender != c.myself
    ensures !UpdateIsDefined(c, sender, epoch, claim) <==>
            && !c.nodes[c.myself].master && c.nodes[c.myself].slaveof.None?
            && exists j :: j in claim && j < CLUSTER_SLOTS && j !in c.t.owner && j !in c.importing
  {
    if j :| j in claim && j < CLUSTER_SLOTS && j !in c.t.owner && j !in c.importing {
      assert j in Taken(c, sender, epoch, claim);
    }
  }

  // ---------------------------------------------------------------- packets that kill the process

  /** A replica knows its master. */
  ghost predicate KnowsMaster(c: Cluster) {
    c.myself in c.nodes && (!c.nodes[c.myself].master ==> c.nodes[c.myself].slaveof.Some?)
  }

  /** A replica has no slots of its own. */
  ghost predicate NoStraySlots(c: Cluster) {
    c.myself in c.nodes && (!c.nodes[c.myself].master ==> Get(c.t.bits, c.myself) == Some({}))
  }

  /**
    Once `curmaster` has been read, the assertion of clusterSetMaster fails exactly when this node is a
    replica that keeps slots of its own while the claim takes all the slots of its master.
   */
  lemma {:induction false} AssertionFailsIff(c: Cluster, sender: NodeId, epoch: nat, claim: set<nat>)
    requires WellFormed(c) && sender in c.nodes && sender != c.myself && UpdateIsDefined(c, sender, epoch, claim)
    ensures var taken := Taken(c, sender, epoch, claim);
            !UpdateIsSafe(c, sender, epoch, claim) <==>
            && !c.nodes[c.myself].master && c.nodes[c.myself].slaveof.Some? && SlotsLost(c, sender, epoch, claim)
            && c.nodes[c.myself].slaveof.value in c.t.bits && c.t.bits[c.nodes[c.myself].slaveof.value] <= taken
            && !(c.t.bits[c.myself] <= taken)
  {
    var taken := Taken(c, sender, epoch, claim);
    hide Taken, Takes, Agree;
    RebindAt(c.t, taken, Some(sender));
    assert PeerKnown(c, c.nodes[c.myself]);
    hide Rebind;
    NotFromItself(c, sender, epoch, claim);
    assert forall n :: n in c.t.bits && n != sender ==>
             (BitsAfter(c, sender, epoch, claim, n) == Some({}) <==> c.t.bits[n] <= taken) by {
      forall n | n in c.t.bits ensures c.t.bits[n] - taken == {} <==> c.t.bits[n] <= taken {
        NothingLeft(c.t.bits[n], taken);
      }
    }
  }

  lemma {:induction false} NothingLeft(a: set<nat>, b: set<nat>)
    ensures a - b == {} <==> a <= b
  {
    if a - b == {} {
      forall j | j in a ensures j in b {
        assert j !in a - b;
      }
    }
  }

  lemma {:induction false} NotFromItself(c: Cluster, sender: NodeId, epoch: nat, claim: set<nat>)
    requires c.myself in c.nodes
    ensures CurMaster(c) == Some(sender) ==> !SlotsLost(c, sender, epoch, claim)
  {
  }

  /** No claim kills a node that, if it is a replica, knows its master and has no slots of its own. */
  lemma {:induction false} GoodRolesAreSafe(c: Cluster, sender: NodeId, epoch: nat, claim: set<nat>)
    requires WellFormed(c) && sender in c.nodes && KnowsMaster(c)
    ensures UpdateIsDefined(c, sender, epoch, claim)
    ensures NoStraySlots(c) ==> UpdateIsSafe(c, sender, epoch, claim)
  {
    if sender != c.myself {
      AssertionFailsIff(c, sender, epoch, claim);
    }
  }

  /** What a call starts from is well formed, and as to our own role what the packet found, or a master. */
  lemma {:induction false} CallOfKeepsRoles(c: Cluster, p: Packet)
    requires WellFormed(c) && p.sender != c.myself && CallOf(c, p).Some?
    ensures var call := CallOf(c, p).value;
            && WellFormed(call.at) && call.at.myself == c.myself && call.sender in call.at.nodes
            && (KnowsMaster(c) ==> KnowsMaster(call.at)) && (NoStraySlots(c) ==> NoStraySlots(call.at))
  {
    hide Agree, NoDangling;
    var d := LearnEpochs(c, p);
    LearnIsWellFormed(c, p);
    match p.kind {
      case Ping =>
        SwitchRoleKeeps(d, p);
        OwnRoleStays(d, p);
      case Update(n, epoch, _) => PromotedIsWellFormed(d, n, epoch);
      case _ =>
    }
  }

  lemma {:induction false} LearnIsWellFormed(c: Cluster, p: Packet)
    requires WellFormed(c) && p.sender in c.nodes
    ensures var d := LearnEpochs(c, p);
            WellFormed(d) && d.t == c.t && d.importing == c.importing && d.myself == c.myself && CurMaster(d) == CurMaster(c)
            && d.nodes.Keys == c.nodes.Keys
  {
    var s := c.nodes[p.sender];
    assert PeerKnown(c, s);
    TouchPeerKeepsRefs(c, p.sender, s.(configEpoch := Max(s.configEpoch, p.configEpoch)));
    OtherFieldsKeep(c.(nodes := LearnEpochs(c, p).nodes), LearnEpochs(c, p));
  }

  /** The role switch of another node does not touch our own role and slots. */
  lemma {:induction false} OwnRoleStays(c: Cluster, p: Packet)
    requires WellFormed(c) && p.sender in c.nodes && p.sender != c.myself
    ensures var d := SwitchRole(c, p);
            d.nodes[c.myself] == c.nodes[c.myself] && (c.t.bits[c.myself] == {} ==> d.t.bits[c.myself] == {})
  {
    RebindAt(c.t, c.t.bits[p.sender], None);
  }

  lemma {:induction false} FollowingHasNoSlots(c: Cluster, sender: NodeId, epoch: nat, claim: set<nat>)
    requires WellFormed(c) && Follows(c, sender, epoch, claim)
    ensures c.nodes[c.myself].master ==>
              Get(Rebind(c.t, Taken(c, sender, epoch, claim), Some(sender)).bits, c.myself) == Some({})
  {
    hide Taken, SlotsLost, Agree;
    RebindAt(c.t, Taken(c, sender, epoch, claim), Some(sender));
  }

  /** A claim keeps good roles. */
  lemma {:induction false} UpdateSlotsKeepsRoles(c: Cluster, sender: NodeId, epoch: nat, claim: set<nat>)
    requires WellFormed(c) && sender in c.nodes && KnowsMaster(c)
    ensures var d := UpdateSlots(c, sender, epoch, claim);
            KnowsMaster(d) && (NoStraySlots(c) ==> NoStraySlots(d))
  {
    hide Taken, SlotsLost, Agree, PeerKnown, Rebind, Follows;
    var taken := Taken(c, sender, epoch, claim);
    RebindAt(c.t, taken, Some(sender));
    assert {} - taken == {};
    if Follows(c, sender, epoch, claim) {
      FollowingHasNoSlots(c, sender, epoch, claim);
    }
  }

  lemma {:induction false} PingKeepsRoles(c: Cluster, p: Packet)
    requires WellFormed(c) && p.sender in c.nodes && p.sender != c.myself && KnowsMaster(c)
    ensures var d := ProcessPing(c, p);
            KnowsMaster(d) && (NoStraySlots(c) ==> NoStraySlots(d))
  {
    hide Agree, UpdateSlots, SwitchRole, Dirty;
    SwitchRoleKeeps(c, p);
    OwnRoleStays(c, p);
    var d := SwitchRole(c, p);
    MyselfIsKnown(d);
    UpdateSlotsKeepsRoles(d, p.sender, p.configEpoch, p.slots);
    UpdateSlotsKeepsAgreement(d, p.sender, p.configEpoch, p.slots);
  }

  lemma {:induction false} UpdatePacketKeepsRoles(c: Cluster, p: Packet)
    requires WellFormed(c) && p.kind.Update? && KnowsMaster(c)
    ensures var d := ProcessUpdate(c, p);
            KnowsMaster(d) && (NoStraySlots(c) ==> NoStraySlots(d))
  {
    hide Agree, UpdateSlots;
    var n := p.kind.about;
    if n in c.nodes {
      PromotedIsWellFormed(c, n, p.kind.aboutEpoch);
      UpdateSlotsKeepsRoles(Promoted(c, n, p.kind.aboutEpoch), n, p.kind.aboutEpoch, p.kind.aboutSlots);
    }
  }

  /** Every packet of another node keeps good roles. */
  lemma {:induction false} ReceiveKeepsRoles(c: Cluster, p: Packet, recent: bool)
    requires WellFormed(c) && p.sender != c.myself && KnowsMaster(c)
    ensures var d := Receive(c, p, recent);
            KnowsMaster(d) && (NoStraySlots(c) ==> NoStraySlots(d))
  {
    if p.sender in c.nodes {
      LearnIsWellFormed(c, p);
      hide ProcessPing, ProcessUpdate, Grants, WellFormed, NoDangling;
      var d := LearnEpochs(c, p);
      match p.kind {
        case Ping => PingKeepsRoles(d, p);
        case Update(_, _, _) => UpdatePacketKeepsRoles(d, p);
        case _ =>
      }
    }
  }

  /** Votes and requests for votes touch no role, and kill nobody. */
  lemma {:induction false} ElectionPacketsKeepRoles(c: Cluster, p: Packet, recent: bool)
    requires NoDangling(c) && (p.kind.AuthAck? || p.kind.AuthRequest?)
    ensures Survives(c, p)
    ensures KnowsMaster(c) ==> KnowsMaster(Receive(c, p, recent))
    ensures NoStraySlots(c) ==> NoStraySlots(Receive(c, p, recent))
  {
    hide Grants;
  }

  /** No packet of another node makes a node with good roles read through NULL, or die. */
  lemma {:induction false} GoodRolesSurvive(c: Cluster, p: Packet)
    requires WellFormed(c) && p.sender != c.myself && KnowsMaster(c)
    ensures !ReadsNull(c, p) && (NoStraySlots(c) ==> Survives(c, p))
  {
    hide UpdateIsSafe, UpdateIsDefined, CallOf, NoDangling, Agree;
    if CallOf(c, p).Some? {
      var call := CallOf(c, p).value;
      CallOfKeepsRoles(c, p);
      GoodRolesAreSafe(call.at, call.sender, call.epoch, call.claim);
    }
  }

  /** A replica, 1, that was loaded without a master. */
  function Orphan(): Cluster {
    Cluster(1, 0, 0, map[1 := Peer(0, false, None, false, {}), 2 := Peer(0, true, None, false, {})],
            SlotTable(map[1 := {}, 2 := {}], map[]), map[], map[], 0, 0, false)
  }

  /** It dies when 2 claims an unassigned slot. */
  lemma {:induction false} OrphanDies()
    ensures WellFormed(Orphan()) && EpochsBounded(Orphan())
    ensures var p := Packet(Ping, 2, 0, 0, None, {0});
            PacketBounded(p) && ReadsNull(Orphan(), p) && !Survives(Orphan(), p)
  {
    var c, p := Orphan(), Packet(Ping, 2, 0, 0, None, {0});
    assert PeerKnown(c, c.nodes[1]) && PeerKnown(c, c.nodes[2]);
    assert LearnEpochs(c, p) == c;
    assert SwitchRole(c, p) == c;
    assert 0 in Taken(c, 2, 0, {0});
  }

  /** A replica, 1, of 2, to which an administrator has given slot 5. */
  function Stray(): Cluster {
    Cluster(1, 1, 0, map[1 := Peer(0, false, Some(2), false, {}), 2 := Peer(0, true, None, false, {}), 3 := Peer(1, true, None, false, {})],
            SlotTable(map[1 := {5}, 2 := {0}, 3 := {}], map[5 := 1, 0 := 2]), map[], map[], 0, 0, false)
  }

  lemma {:induction false} StrayIsWellFormed()
    ensures WellFormed(Stray()) && EpochsBounded(Stray()) && KnowsMaster(Stray())
  {
    var c := Stray();
    assert PeerKnown(c, c.nodes[1]) && PeerKnown(c, c.nodes[2]) && PeerKnown(c, c.nodes[3]);
  }

  /** It dies when 3 takes the last slot of 2. */
  lemma {:induction false} StrayDies()
    ensures WellFormed(Stray()) && EpochsBounded(Stray()) && KnowsMaster(Stray())
    ensures var p := Packet(Ping, 3, 1, 1, None, {0});
            PacketBounded(p) && !Survives(Stray(), p) && !ReadsNull(Stray(), p)
  {
    StrayIsWellFormed();
    hide Agree, EpochsBounded;
    var c, p := Stray(), Packet(Ping, 3, 1, 1, None, {0});
    assert LearnEpochs(c, p) == c;
    assert SwitchRole(c, p) == c;
    assert Taken(c, 3, 1, {0}) == {0};
    AssertionFailsIff(c, 3, 1, {0});
  }
}
