/**
  Several Redis Cluster nodes and the packets between them.  Every step is one
  handler of cluster.c running on one node; packets are delayed, reordered,
  lost and, votes excepted, delivered any number of times.  A process that dies
  takes no further step; its last state stays on record.
 */
module ClusterBus {
  import opened SlotTables
  import opened ClusterModel
  import E = Elections

  datatype Envelope = Envelope(dst: NodeId, packet: Packet)

  /**
    `acks` holds the votes in flight.  `asked`, `granted`, `counted` and `won` record
    what happened; no handler reads them.
   */
  datatype World = World(
    servers: map<NodeId, Cluster>,
    net: set<Envelope>,
    acks: map<E.Vote, Packet>,
    asked: set<E.Request>,
    granted: set<E.Vote>,
    counted: map<NodeId, set<NodeId>>,
    won: set<E.Win>)

  /** What a node does on its own: timers and administrator commands. */
  datatype Action =
    | BumpEpoch
    | SetConfigEpoch(epoch: nat)
    | Meet(peer: NodeId, master: bool)
    | Drop(peer: NodeId)
    | MarkFailed(peer: NodeId, failed: bool)
    | AddOwnSlot(slot: nat)
    | DelAnySlot(slot: nat)
    | SetSlotNode(slot: nat, to: NodeId, keys: nat)
    | SetImporting(slot: nat, from: NodeId)
    | SetMigrating(slot: nat, to: NodeId)
    | SetStable(slot: nat)
    | Replicate(of: NodeId)

  datatype Step =
    | Deliver(e: Envelope, recent: bool)
    | DeliverAck(v: E.Vote)
    | SendPing(n: NodeId, dst: NodeId)
    | SendUpdate(n: NodeId, dst: NodeId, about: NodeId)
    | Administer(n: NodeId, action: Action)
    | Schedule(n: NodeId)
    | Start(n: NodeId, force: bool)
    | Conclude(n: NodeId)

  /** The tests the source makes before the action takes place; a failed test is an error reply. */
  predicate Allowed(c: Cluster, a: Action) {
    c.myself in c.nodes && c.myself in c.t.bits &&
    match a
    case BumpEpoch => true
    case SetConfigEpoch(_) => c.nodes.Keys == {c.myself} && c.nodes[c.myself].configEpoch == 0
    case Meet(peer, _) => peer !in c.nodes
    case Drop(peer) =>
      peer in c.nodes && peer in c.t.bits && peer != c.myself
      && !(!c.nodes[c.myself].master && c.nodes[c.myself].slaveof == Some(peer))
    case MarkFailed(peer, _) => peer in c.nodes && peer != c.myself
    case AddOwnSlot(slot) => slot < CLUSTER_SLOTS && slot !in c.t.owner
    case DelAnySlot(slot) => slot in c.t.owner && c.t.owner[slot] in c.t.bits
    case SetSlotNode(slot, to, keys) =>
      && slot < CLUSTER_SLOTS && c.nodes[c.myself].master && to in c.nodes && to in c.t.bits
      && (slot in c.t.owner ==> c.t.owner[slot] in c.t.bits)
      && (Get(c.t.owner, slot) == Some(c.myself) && to != c.myself ==> keys == 0)
    case SetImporting(slot, from) =>
      slot < CLUSTER_SLOTS && c.nodes[c.myself].master && Get(c.t.owner, slot) != Some(c.myself) && from in c.nodes
    case SetMigrating(slot, to) =>
      slot < CLUSTER_SLOTS && c.nodes[c.myself].master && Get(c.t.owner, slot) == Some(c.myself) && to in c.nodes
    case SetStable(slot) => slot < CLUSTER_SLOTS && c.nodes[c.myself].master
    case Replicate(of) =>
      of in c.nodes && of != c.myself && c.nodes[of].master && (c.nodes[c.myself].master ==> c.t.bits[c.myself] == {})
  }

  /** CLUSTER SETSLOT NODE: closing an imported slot on its new owner bumps the owner's epoch. */
  function AssignSlot(c: Cluster, slot: nat, to: NodeId, keys: nat): Cluster
    requires c.myself in c.nodes && to in c.t.bits && (slot in c.t.owner ==> c.t.owner[slot] in c.t.bits)
  {
    var d := if to == c.myself && slot in c.importing then BumpIfBehind(c).(importing := c.importing - {slot}) else c;
    d.(t := AddSlot(DelSlot(c.t, slot), to, slot), migrating := if keys == 0 then c.migrating - {slot} else c.migrating)
  }

  function Act(c: Cluster, a: Action): Cluster
    requires Allowed(c, a)
  {
    match a
    case BumpEpoch => BumpIfBehind(c)
    case SetConfigEpoch(epoch) =>
      c.(nodes := c.nodes[c.myself := c.nodes[c.myself].(configEpoch := epoch)], currentEpoch := Max(c.currentEpoch, epoch))
    case Meet(peer, master) =>
      c.(nodes := c.nodes[peer := Peer(0, master, None, false, {})], t := c.t.(bits := c.t.bits[peer := {}]))
    case Drop(peer) => DelNode(c, peer)
    case MarkFailed(peer, failed) => c.(nodes := c.nodes[peer := c.nodes[peer].(failed := failed)])
    case AddOwnSlot(slot) => c.(t := AddSlot(c.t, c.myself, slot), importing := c.importing - {slot})
    case DelAnySlot(slot) => c.(t := DelSlot(c.t, slot), importing := c.importing - {slot})
    case SetSlotNode(slot, to, keys) => AssignSlot(c, slot, to, keys)
    case SetImporting(slot, from) => c.(importing := c.importing[slot := from])
    case SetMigrating(slot, to) => c.(migrating := c.migrating[slot := to])
    case SetStable(slot) => c.(importing := c.importing - {slot}, migrating := c.migrating - {slot})
    case Replicate(of) => if c.t.bits[c.myself] == {} then SetMaster(c, of) else c // the assertion of clusterSetMaster fails
  }

  // ---------------------------------------------------------------- steps

  ghost predicate Enabled(w: World, step: Step) {
    match step
    case Deliver(e, _) => e in w.net && e.dst in w.servers && NoDangling(w.servers[e.dst])
    case DeliverAck(v) => v in w.acks && v.candidate in w.servers && NoDangling(w.servers[v.candidate])
    case SendPing(n, dst) => n in w.servers && NoDangling(w.servers[n]) && dst != n
    case SendUpdate(n, dst, about) => n in w.servers && NoDangling(w.servers[n]) && dst != n && about in w.servers[n].nodes
    case Administer(n, a) => n in w.servers && Allowed(w.servers[n], a)
    case Schedule(n) => n in w.servers
    case Start(n, _) =>
      n in w.servers && NoDangling(w.servers[n]) && !w.servers[n].authSent && CurMaster(w.servers[n]).Some?
      && CurMaster(w.servers[n]) != Some(n)
    case Conclude(n) =>
      n in w.servers && NoDangling(w.servers[n]) && w.servers[n].authSent && w.servers[n].authCount >= Quorum(w.servers[n])
  }

  function DeliverTo(w: World, e: Envelope, recent: bool): World
    requires e.dst in w.servers && NoDangling(w.servers[e.dst])
  {
    var c := w.servers[e.dst];
    var d := if Survives(c, e.packet) then Receive(c, e.packet, recent) else c;
    var w' := w.(servers := w.servers[e.dst := d]);
    if EarnsVote(c, e.packet, recent) then
      var vote := E.Vote(e.dst, d.currentEpoch, e.packet.sender);
      w'.(acks := w.acks[vote := VoteHeader(d)], granted := w.granted + {vote})
    else w'
  }

  function VoteHeader(c: Cluster): Packet {
    if c.myself in c.nodes then Header(c, AuthAck) else Packet(AuthAck, c.myself, c.currentEpoch, 0, None, {})
  }

  function DeliverVote(w: World, v: E.Vote): World
    requires v in w.acks && v.candidate in w.servers && NoDangling(w.servers[v.candidate])
  {
    var c := w.servers[v.candidate];
    var d := Receive(c, w.acks[v], false);
    w.(servers := w.servers[v.candidate := d], acks := w.acks - {v},
       counted := if d.authCount == c.authCount then w.counted
                  else w.counted[v.candidate := (if v.candidate in w.counted then w.counted[v.candidate] else {}) + {v.voter}])
  }

  ghost function Next(w: World, step: Step): World
    requires Enabled(w, step)
  {
    match step
    case Deliver(e, recent) => DeliverTo(w, e, recent)
    case DeliverAck(v) => DeliverVote(w, v)
    case SendPing(n, dst) => w.(net := w.net + {Envelope(dst, Header(w.servers[n], Ping))})
    case SendUpdate(n, dst, about) =>
      var c := w.servers[n];
      var slots := if about in c.t.bits then c.t.bits[about] else {};
      w.(net := w.net + {Envelope(dst, Header(c, Update(about, c.nodes[about].configEpoch, slots)))})
    case Administer(n, a) => w.(servers := w.servers[n := Act(w.servers[n], a)])
    case Schedule(n) => w.(servers := w.servers[n := ScheduleElection(w.servers[n])], counted := w.counted[n := {}])
    case Start(n, force) =>
      var c := StartElection(w.servers[n]);
      w.(servers := w.servers[n := c],
         net := w.net + (set m | m in c.nodes && m != n :: Envelope(m, Header(c, AuthRequest(force)))),
         asked := w.asked + {E.Request(n, c.authEpoch)})
    case Conclude(n) =>
      var c := w.servers[n];
      w.(servers := w.servers[n := TakeOver(c)],
         won := w.won + {E.Win(n, c.authEpoch, if n in w.counted then w.counted[n] else {})})
  }

  // ---------------------------------------------------------------- invariant: well-formed states, bounded epochs

  ghost predicate ServerOk(w: World, n: NodeId)
    requires n in w.servers
  {
    w.servers[n].myself == n && WellFormed(w.servers[n]) && EpochsBounded(w.servers[n]) && KnowsMaster(w.servers[n])
  }

  ghost predicate EnvelopeOk(w: World, e: Envelope) {
    && PacketBounded(e.packet) && !e.packet.kind.AuthAck? && e.packet.sender != e.dst
    && (e.packet.kind.AuthRequest? ==> E.Request(e.packet.sender, e.packet.currentEpoch) in w.asked)
  }

  ghost predicate AckOk(v: E.Vote, p: Packet) {
    PacketBounded(p) && p.kind.AuthAck? && p.sender == v.voter && p.currentEpoch == v.epoch
  }

  ghost predicate BusInv(w: World) {
    && (forall n :: n in w.servers ==> ServerOk(w, n))
    && (forall e :: e in w.net ==> EnvelopeOk(w, e))
    && (forall v :: v in w.acks ==> AckOk(v, w.acks[v]))
  }

  lemma {:induction false} OwnTableOk(c: Cluster)
    requires WellFormed(c)
    ensures Agree(c.t) && c.nodes.Keys == c.t.bits.Keys && c.myself in c.nodes
  {
  }

  /** A slot moved, and no longer migrating if it has no keys here. */
  function MoveSlot(c: Cluster, slot: nat, to: NodeId, keys: nat): Cluster
    requires to in c.t.bits && (slot in c.t.owner ==> c.t.owner[slot] in c.t.bits)
  {
    c.(t := AddSlot(DelSlot(c.t, slot), to, slot), migrating := if keys == 0 then c.migrating - {slot} else c.migrating)
  }

  lemma {:induction false} MoveSlotKeeps(c: Cluster, slot: nat, to: NodeId, keys: nat)
    requires WellFormed(c) && to in c.nodes && slot < CLUSTER_SLOTS
    ensures to in c.t.bits && (slot in c.t.owner ==> c.t.owner[slot] in c.t.bits)
    ensures WellFormed(MoveSlot(c, slot, to, keys))
  {
    hide DelSlot, AddSlot, Agree, NoDangling;
    OwnTableOk(c);
    MoveKeepsAgreement(c.t, slot, to);
    var t := AddSlot(DelSlot(c.t, slot), to, slot);
    NewTableKeepsRefs(c, t);
    CloseKeepsRefs(c.(t := t), {}, {slot});
    NothingClosed(c.importing);
  }

  lemma {:induction false} CloseImporting(c: Cluster, slot: nat)
    requires WellFormed(c)
    ensures WellFormed(c.(importing := c.importing - {slot}))
  {
    hide Agree, NoDangling;
    CloseKeepsRefs(c, {slot}, {});
    NothingClosed(c.migrating);
  }

  lemma {:induction false} AssignSlotKeeps(c: Cluster, slot: nat, to: NodeId, keys: nat)
    requires WellFormed(c) && EpochsBounded(c) && to in c.nodes && slot < CLUSTER_SLOTS
    ensures to in c.t.bits && c.myself in c.nodes && (slot in c.t.owner ==> c.t.owner[slot] in c.t.bits)
    ensures var d := AssignSlot(c, slot, to, keys);
            WellFormed(d) && EpochsBounded(d) && SameElection(c, d) && d.currentEpoch >= c.currentEpoch
  {
    hide DelSlot, AddSlot, WellFormed, BumpIfBehind;
    MyselfIsKnown(c);
    MoveSlotKeeps(c, slot, to, keys);
    if to == c.myself && slot in c.importing {
      BumpIfBehindKeeps(c);
      CloseImporting(BumpIfBehind(c), slot);
      MoveSlotKeeps(BumpIfBehind(c).(importing := c.importing - {slot}), slot, to, keys);
    }
  }

  lemma {:induction false} NothingClosed(m: map<nat, NodeId>)
    ensures m - {} == m
  {
  }

  lemma {:induction false} MeetKeeps(c: Cluster, peer: NodeId, master: bool)
    requires WellFormed(c) && EpochsBounded(c) && Allowed(c, Meet(peer, master))
    ensures WellFormed(Act(c, Meet(peer, master))) && EpochsBounded(Act(c, Meet(peer, master)))
  {
    var d := Act(c, Meet(peer, master));
    forall n, j ensures HasBit(d.t, n, j) <==> Owns(d.t, n, j) {
      assert HasBit(c.t, n, j) <==> Owns(c.t, n, j);
    }
    forall m | m in d.nodes ensures PeerKnown(d, d.nodes[m]) {
      assert m == peer || PeerKnown(c, c.nodes[m]);
    }
  }

  /** What every administrator command keeps. */
  ghost predicate Keeps(c: Cluster, d: Cluster) {
    WellFormed(d) && EpochsBounded(d) && d.currentEpoch >= c.currentEpoch && SameElection(c, d)
  }

  lemma {:induction false} OwnSlotKeeps(c: Cluster, a: Action)
    requires WellFormed(c) && EpochsBounded(c) && Allowed(c, a) && (a.AddOwnSlot? || a.DelAnySlot?)
    ensures Keeps(c, Act(c, a))
  {
    match a {
      case AddOwnSlot(slot) => AddKeepsAgreement(c.t, c.myself, slot);
      case DelAnySlot(slot) => DelKeepsAgreement(c.t, slot);
    }
    var d := Act(c, a);
    assert d.t.bits.Keys == c.t.bits.Keys;
    hide Agree, AddSlot, DelSlot;
    NewTableKeepsRefs(c, d.t);
    hide NoDangling;
    CloseImporting(c.(t := d.t), a.slot);
    assert d == c.(t := d.t).(importing := c.importing - {a.slot});
  }

  lemma {:induction false} OpenSlotKeeps(c: Cluster, a: Action)
    requires WellFormed(c) && EpochsBounded(c) && Allowed(c, a) && (a.SetImporting? || a.SetMigrating? || a.SetStable?)
    ensures Keeps(c, Act(c, a))
  {
    hide Agree, NoDangling;
    OpenSlotsKeepRefs(c, Act(c, a));
  }

  ghost predicate Opens(c: Cluster, was: map<nat, NodeId>, now: map<nat, NodeId>) {
    forall j :: j in now ==> (j in was && now[j] == was[j]) || (j < CLUSTER_SLOTS && now[j] in c.nodes)
  }

  lemma {:induction false} OpenSlotsKeepRefs(c: Cluster, d: Cluster)
    requires NoDangling(c) && d == c.(importing := d.importing, migrating := d.migrating)
    requires Opens(c, c.importing, d.importing) && Opens(c, c.migrating, d.migrating)
    ensures NoDangling(d)
  {
    forall m | m in d.nodes ensures PeerKnown(d, d.nodes[m]) {
      assert PeerKnown(c, c.nodes[m]);
    }
  }

  lemma {:induction false} NodeActionKeeps(c: Cluster, a: Action)
    requires WellFormed(c) && EpochsBounded(c) && Allowed(c, a) && (a.SetConfigEpoch? || a.MarkFailed?)
    ensures Keeps(c, Act(c, a))
  {
    hide Agree;
    var d := Act(c, a);
    var n := if a.MarkFailed? then a.peer else c.myself;
    assert PeerKnown(c, c.nodes[n]);
    TouchPeerKeepsRefs(c, n, d.nodes[n]);
    assert d.nodes == c.nodes[n := d.nodes[n]];
    hide NoDangling;
    OtherFieldsKeep(c.(nodes := d.nodes), d);
  }

  lemma {:induction false} TopologyKeeps(c: Cluster, a: Action)
    requires WellFormed(c) && EpochsBounded(c) && Allowed(c, a) && (a.Meet? || a.Drop? || a.Replicate?)
    ensures Keeps(c, Act(c, a))
  {
    hide Agree, Rebind;
    match a {
      case Meet(peer, master) => MeetKeeps(c, peer, master);
      case Drop(peer) => DelNodeLeavesNoReference(c, peer);
      case Replicate(of) => SetMasterKeepsRefs(c, of);
    }
    hide NoDangling;
  }

  /** Every administrator command keeps the state well formed and its epochs bounded. */
  lemma {:induction false} ActKeeps(c: Cluster, a: Action)
    requires WellFormed(c) && EpochsBounded(c) && Allowed(c, a)
    ensures WellFormed(Act(c, a)) && EpochsBounded(Act(c, a))
    ensures Act(c, a).currentEpoch >= c.currentEpoch && SameElection(c, Act(c, a))
  {
    if a.BumpEpoch? {
      hide WellFormed, EpochsBounded, BumpIfBehind;
      BumpIfBehindKeeps(c);
    } else if a.SetSlotNode? {
      hide WellFormed, EpochsBounded, AssignSlot;
      MyselfIsKnown(c);
      AssignSlotKeeps(c, a.slot, a.to, a.keys);
    } else {
      hide Act, Allowed, WellFormed, EpochsBounded, SameElection;
      match a {
        case SetConfigEpoch(_) => NodeActionKeeps(c, a);
        case MarkFailed(_, _) => NodeActionKeeps(c, a);
        case AddOwnSlot(_) => OwnSlotKeeps(c, a);
        case DelAnySlot(_) => OwnSlotKeeps(c, a);
        case SetImporting(_, _) => OpenSlotKeeps(c, a);
        case SetMigrating(_, _) => OpenSlotKeeps(c, a);
        case SetStable(_) => OpenSlotKeeps(c, a);
        case _ => TopologyKeeps(c, a);
      }
    }
  }

  /** A command that gives a slot to a replica: nothing in the source refuses it. */
  predicate GivesSlotToReplica(c: Cluster, a: Action) {
    a.AddOwnSlot? && c.myself in c.nodes && !c.nodes[c.myself].master
  }

  lemma {:induction false} BumpKeepsRole(c: Cluster)
    requires c.myself in c.nodes
    ensures var d := BumpIfBehind(c);
            && d.myself == c.myself && d.t == c.t && c.myself in d.nodes
            && d.nodes[c.myself].master == c.nodes[c.myself].master && d.nodes[c.myself].slaveof == c.nodes[c.myself].slaveof
  {
  }

  /** Every command but that one keeps good roles. */
  lemma {:induction false} ActKeepsRoles(c: Cluster, a: Action)
    requires WellFormed(c) && Allowed(c, a) && KnowsMaster(c)
    ensures KnowsMaster(Act(c, a))
    ensures NoStraySlots(c) && !GivesSlotToReplica(c, a) ==> NoStraySlots(Act(c, a))
  {
    hide WellFormed, Rebind, BumpIfBehind;
    MyselfIsKnown(c);
    BumpKeepsRole(c);
    match a {
      case Drop(peer) => DropKeepsRoles(c, peer);
      case DelAnySlot(slot) =>
        assert {} - {slot} == {};
      case _ =>
    }
  }

  lemma {:induction false} DropKeepsRoles(c: Cluster, peer: NodeId)
    requires Allowed(c, Drop(peer)) && c.t.bits.Keys == c.nodes.Keys && KnowsMaster(c)
    ensures KnowsMaster(DelNode(c, peer))
    ensures NoStraySlots(c) ==> NoStraySlots(DelNode(c, peer))
  {
    hide Rebind;
    RebindAt(c.t, c.t.bits[peer], None);
    assert {} - c.t.bits[peer] == {};
  }

  lemma {:induction false} StartKeeps(c: Cluster)
    requires WellFormed(c) && EpochsBounded(c)
    ensures WellFormed(StartElection(c)) && EpochsBounded(StartElection(c))
    ensures WellFormed(ScheduleElection(c)) && EpochsBounded(ScheduleElection(c))
    ensures KnowsMaster(c) ==> KnowsMaster(StartElection(c)) && KnowsMaster(ScheduleElection(c))
  {
    OtherFieldsKeep(c, StartElection(c));
    OtherFieldsKeep(c, ScheduleElection(c));
  }

  lemma {:induction false} DeliverKeepsBusInv(w: World, e: Envelope, recent: bool)
    requires BusInv(w) && Enabled(w, Deliver(e, recent))
    ensures BusInv(Next(w, Deliver(e, recent)))
  {
    hide Receive, EarnsVote, WellFormed, NoDangling, Survives, EpochsBounded, EnvelopeOk, KnowsMaster;
    var w' := Next(w, Deliver(e, recent));
    var c := w.servers[e.dst];
    assert ServerOk(w, e.dst) && EnvelopeOk(w, e);
    EnvelopeIsBounded(w, e);
    ReceiveKeeps(c, e.packet, recent);
    ReceiveKeepsRoles(c, e.packet, recent);
    VoteHeaderIsBounded(w'.servers[e.dst]);
    ServersStayOk(w, w', e.dst);
    NetStaysOk(w, w');
  }

  lemma {:induction false} EnvelopeIsBounded(w: World, e: Envelope)
    requires EnvelopeOk(w, e)
    ensures PacketBounded(e.packet) && e.packet.sender != e.dst
  {
  }

  lemma {:induction false} VoteHeaderIsBounded(c: Cluster)
    requires WellFormed(c) && EpochsBounded(c)
    ensures VoteHeader(c) == Header(c, AuthAck)
    ensures var p := VoteHeader(c); PacketBounded(p) && p.kind == AuthAck && p.sender == c.myself && p.currentEpoch == c.currentEpoch
  {
    HeaderIsBounded(c, AuthAck);
  }

  /** A step that changes one server and leaves it well formed keeps the per-server part of the invariant. */
  lemma {:induction false} ServersStayOk(w: World, w': World, n: NodeId)
    requires forall m :: m in w.servers ==> ServerOk(w, m)
    requires n in w.servers && n in w'.servers && ServerOk(w', n) && w'.servers == w.servers[n := w'.servers[n]]
    ensures forall m :: m in w'.servers ==> ServerOk(w', m)
  {
    forall m | m in w'.servers ensures ServerOk(w', m) {
      assert m == n || ServerOk(w, m);
    }
  }

  /** The network part of the invariant survives new envelopes that are fine and a growing `asked`. */
  lemma {:induction false} NetStaysOk(w: World, w': World)
    requires (forall e :: e in w.net ==> EnvelopeOk(w, e)) && w.asked <= w'.asked
    requires forall e :: e in w'.net && e !in w.net ==> EnvelopeOk(w', e)
    ensures forall e :: e in w'.net ==> EnvelopeOk(w', e)
  {
    forall e | e in w'.net ensures EnvelopeOk(w', e) {
      assert e in w.net ==> EnvelopeOk(w, e);
    }
  }

  lemma {:induction false} DeliverAckKeepsBusInv(w: World, v: E.Vote)
    requires BusInv(w) && Enabled(w, DeliverAck(v))
    ensures BusInv(Next(w, DeliverAck(v)))
  {
    hide Receive, WellFormed, NoDangling, EpochsBounded, KnowsMaster, EnvelopeOk;
    var w' := Next(w, DeliverAck(v));
    assert ServerOk(w, v.candidate) && AckOk(v, w.acks[v]);
    ReceiveKeeps(w.servers[v.candidate], w.acks[v], false);
    ElectionPacketsKeepRoles(w.servers[v.candidate], w.acks[v], false);
    ServersStayOk(w, w', v.candidate);
    NetStaysOk(w, w');
  }

  lemma {:induction false} SendKeepsBusInv(w: World, step: Step)
    requires BusInv(w) && Enabled(w, step) && (step.SendPing? || step.SendUpdate? || step.Start?)
    ensures BusInv(Next(w, step))
  {
    hide WellFormed, NoDangling, AckOk, Survives, Header, StartElection, KnowsMaster;
    var n := step.n;
    var w' := Next(w, step);
    var c := w.servers[n];
    assert ServerOk(w, n);
    match step {
      case SendPing(_, dst) =>
        HeaderIsBounded(c, Ping);
      case SendUpdate(_, dst, about) =>
        HeaderIsBounded(c, Update(about, c.nodes[about].configEpoch,
                        if about in c.t.bits then c.t.bits[about] else {}));
      case Start(_, force) =>
        StartKeeps(c);
        StartAsks(c, force);
        ServersStayOk(w, w', n);
    }
    NetStaysOk(w, w');
  }

  /** The request a candidate broadcasts carries the epoch of the election it starts. */
  lemma {:induction false} StartAsks(c: Cluster, force: bool)
    requires WellFormed(c) && EpochsBounded(c)
    ensures StartElection(c).myself == c.myself && WellFormed(StartElection(c))
    ensures var p := Header(StartElection(c), AuthRequest(force));
            PacketBounded(p) && p.kind == AuthRequest(force) && p.sender == c.myself && p.currentEpoch == StartElection(c).authEpoch
  {
    StartKeeps(c);
  }

  lemma {:induction false} LocalKeepsBusInv(w: World, step: Step)
    requires BusInv(w) && Enabled(w, step) && (step.Administer? || step.Schedule? || step.Conclude?)
    ensures BusInv(Next(w, step))
  {
    hide Act, TakeOver, AckOk, Allowed, Survives, WellFormed, NoDangling, KnowsMaster;
    var n := step.n;
    var w' := Next(w, step);
    var c := w.servers[n];
    assert ServerOk(w, n);
    match step {
      case Administer(_, a) =>
        ActKeeps(c, a);
        ActKeepsRoles(c, a);
      case Schedule(_) => StartKeeps(c);
      case Conclude(_) => TakeOverKeeps(c);
    }
    ServersStayOk(w, w', n);
    NetStaysOk(w, w');
  }

  /**
    Every step of the protocol keeps every node's tables well formed and, in every table and every
    packet, each config epoch at most the current epoch that goes with it.
   */
  lemma {:induction false} NextKeepsBusInv(w: World, step: Step)
    requires BusInv(w) && Enabled(w, step)
    ensures BusInv(Next(w, step))
  {
    hide Next;
    match step {
      case Deliver(e, recent) => DeliverKeepsBusInv(w, e, recent);
      case DeliverAck(v) => DeliverAckKeepsBusInv(w, v);
      case Administer(_, _) => LocalKeepsBusInv(w, step);
      case Schedule(_) => LocalKeepsBusInv(w, step);
      case Conclude(_) => LocalKeepsBusInv(w, step);
      case _ => SendKeepsBusInv(w, step);
    }
  }

  // ---------------------------------------------------------------- elections: the bus refines the abstract protocol

  function BallotOf(c: Cluster): E.Ballot {
    E.Ballot(c.currentEpoch, c.lastVoteEpoch, c.authEpoch, c.authCount, c.authSent)
  }

  function Abs(w: World): E.State {
    E.State(map n | n in w.servers :: BallotOf(w.servers[n]), w.asked, w.acks.Keys, w.granted, w.counted, w.won)
  }

  /** The abstract step a step of the bus stands for. */
  ghost function AbsStep(w: World, step: Step): E.Step
    requires Enabled(w, step)
  {
    match step
    case Deliver(e, recent) =>
      if EarnsVote(w.servers[e.dst], e.packet, recent)
      then E.Grant(e.dst, E.Request(e.packet.sender, e.packet.currentEpoch))
      else E.Raise(e.dst, Next(w, step).servers[e.dst].currentEpoch)
    case DeliverAck(v) => E.Count(v, v.voter in w.servers[v.candidate].nodes, IsVoter(w.servers[v.candidate], v.voter))
    case Schedule(n) => E.Schedule(n)
    case Start(n, _) => E.Start(n)
    case Conclude(n) => E.Conclude(n)
    case _ => E.Raise(step.n, Next(w, step).servers[step.n].currentEpoch)
  }

  /** All candidates agree on the set of voters: masters with slots. */
  ghost predicate AgreesOnVoters(w: World, V: set<NodeId>, step: Step)
    requires Enabled(w, step)
  {
    && (step.DeliverAck? ==> Voters(w.servers[step.v.candidate]) == V)
    && (step.Conclude? ==> Voters(w.servers[step.n]) == V)
  }

  /** What a packet other than a vote does to the ballot of the node that receives it. */
  lemma {:induction false} ReceiveMovesBallot(c: Cluster, p: Packet, recent: bool)
    requires WellFormed(c) && EpochsBounded(c) && PacketBounded(p) && !p.kind.AuthAck?
    ensures var d := Receive(c, p, recent);
            if EarnsVote(c, p, recent)
            then && c.currentEpoch <= p.currentEpoch && c.lastVoteEpoch != p.currentEpoch
                 && BallotOf(d) == BallotOf(c).(currentEpoch := p.currentEpoch, lastVoteEpoch := p.currentEpoch)
            else BallotOf(d) == BallotOf(c).(currentEpoch := d.currentEpoch) && d.currentEpoch >= c.currentEpoch
  {
    hide ProcessPing, ProcessUpdate;
    if p.sender in c.nodes {
      LearnKeeps(c, p);
      match p.kind {
        case Ping => ProcessPingKeeps(LearnEpochs(c, p), p);
        case Update(_, _, _) => ProcessUpdateKeeps(LearnEpochs(c, p), p);
        case _ =>
      }
    }
  }

  /** What a vote does to the ballot of the candidate that receives it. */
  lemma {:induction false} AckMovesBallot(c: Cluster, p: Packet)
    requires NoDangling(c) && p.kind.AuthAck?
    ensures var d := Receive(c, p, false);
            var b := BallotOf(c);
            var raised := if p.sender in c.nodes then b.(currentEpoch := Max(b.currentEpoch, p.currentEpoch)) else b;
            BallotOf(d) == if IsVoter(c, p.sender) && p.currentEpoch >= c.authEpoch
                           then raised.(authCount := b.authCount + 1) else raised
  {
  }

  lemma {:induction false} AbsOfUpdate(w: World, w': World, n: NodeId)
    requires n in w.servers && n in w'.servers && w'.servers == w.servers[n := w'.servers[n]]
    ensures Abs(w').ballots == Abs(w).ballots[n := BallotOf(w'.servers[n])]
  {
  }

  /** A vote is granted. */
  lemma {:induction false} GrantRefines(w: World, V: set<NodeId>, e: Envelope, recent: bool)
    requires BusInv(w) && Enabled(w, Deliver(e, recent)) && EarnsVote(w.servers[e.dst], e.packet, recent)
    ensures E.Enabled(Abs(w), V, AbsStep(w, Deliver(e, recent)))
    ensures Abs(Next(w, Deliver(e, recent))) == E.Next(Abs(w), V, AbsStep(w, Deliver(e, recent)))
  {
    hide Receive, Grants, LearnEpochs, Survives, NoDangling, WellFormed, EpochsBounded, PacketBounded, AckOk,
        KnowsMaster, IsVoter, VoteHeader;
    var c := w.servers[e.dst];
    assert ServerOk(w, e.dst) && EnvelopeOk(w, e);
    ReceiveMovesBallot(c, e.packet, recent);
    ElectionPacketsKeepRoles(c, e.packet, recent);
    var w' := Next(w, Deliver(e, recent));
    AbsOfUpdate(w, w', e.dst);
    assert Abs(w').acks == Abs(w).acks + {E.Vote(e.dst, w'.servers[e.dst].currentEpoch, e.packet.sender)};
  }

  /** No vote is granted; the packet may still teach a current epoch. */
  lemma {:induction false} RaiseRefines(w: World, V: set<NodeId>, e: Envelope, recent: bool)
    requires BusInv(w) && Enabled(w, Deliver(e, recent)) && !EarnsVote(w.servers[e.dst], e.packet, recent)
    ensures E.Enabled(Abs(w), V, AbsStep(w, Deliver(e, recent)))
    ensures Abs(Next(w, Deliver(e, recent))) == E.Next(Abs(w), V, AbsStep(w, Deliver(e, recent)))
  {
    hide Receive, EarnsVote, Survives, NoDangling, WellFormed, EpochsBounded, PacketBounded, AckOk, KnowsMaster;
    assert ServerOk(w, e.dst) && EnvelopeOk(w, e);
    ReceiveMovesBallot(w.servers[e.dst], e.packet, recent);
    AbsOfUpdate(w, Next(w, Deliver(e, recent)), e.dst);
  }

  lemma {:induction false} CountIsEnabled(w: World, V: set<NodeId>, v: E.Vote)
    requires Enabled(w, DeliverAck(v)) && AgreesOnVoters(w, V, DeliverAck(v))
    ensures E.Enabled(Abs(w), V, AbsStep(w, DeliverAck(v)))
  {
    hide NoDangling;
  }

  lemma {:induction false} DeliverAckRefines(w: World, V: set<NodeId>, v: E.Vote)
    requires BusInv(w) && Enabled(w, DeliverAck(v)) && AgreesOnVoters(w, V, DeliverAck(v))
    ensures E.Enabled(Abs(w), V, AbsStep(w, DeliverAck(v)))
    ensures Abs(Next(w, DeliverAck(v))) == E.Next(Abs(w), V, AbsStep(w, DeliverAck(v)))
  {
    hide Receive, NoDangling, PacketBounded, EnvelopeOk, ServerOk, IsVoter, AgreesOnVoters, E.Enabled;
    CountIsEnabled(w, V, v);
    assert AckOk(v, w.acks[v]);
    var w' := Next(w, DeliverAck(v));
    AckMovesBallot(w.servers[v.candidate], w.acks[v]);
    AbsOfUpdate(w, w', v.candidate);
    assert Abs(w').acks == Abs(w).acks - {v};
  }

  lemma {:induction false} AdministerRefines(w: World, V: set<NodeId>, n: NodeId, a: Action)
    requires BusInv(w) && Enabled(w, Administer(n, a))
    ensures E.Enabled(Abs(w), V, AbsStep(w, Administer(n, a)))
    ensures Abs(Next(w, Administer(n, a))) == E.Next(Abs(w), V, AbsStep(w, Administer(n, a)))
  {
    hide Act, WellFormed, EpochsBounded, EnvelopeOk, AckOk, Allowed, KnowsMaster;
    assert ServerOk(w, n);
    ActKeeps(w.servers[n], a);
    AbsOfUpdate(w, Next(w, Administer(n, a)), n);
  }

  lemma {:induction false} ConcludeRefines(w: World, V: set<NodeId>, n: NodeId)
    requires BusInv(w) && Enabled(w, Conclude(n)) && AgreesOnVoters(w, V, Conclude(n))
    ensures E.Enabled(Abs(w), V, AbsStep(w, Conclude(n)))
    ensures Abs(Next(w, Conclude(n))) == E.Next(Abs(w), V, AbsStep(w, Conclude(n)))
  {
    hide TakeOver, WellFormed, NoDangling, EpochsBounded, EnvelopeOk, AckOk, KnowsMaster, IsVoter;
    assert ServerOk(w, n);
    TakeOverKeeps(w.servers[n]);
    AbsOfUpdate(w, Next(w, Conclude(n)), n);
  }

  lemma {:induction false} SendRefines(w: World, V: set<NodeId>, step: Step)
    requires Enabled(w, step) && (step.SendPing? || step.SendUpdate? || step.Schedule? || step.Start?)
    ensures E.Enabled(Abs(w), V, AbsStep(w, step))
    ensures Abs(Next(w, step)) == E.Next(Abs(w), V, AbsStep(w, step))
  {
    hide Header, NoDangling;
    AbsOfUpdate(w, Next(w, step), step.n);
  }

  /** Every step of the bus is the step of the abstract election protocol that AbsStep names. */
  lemma {:induction false} BusRefinesElections(w: World, V: set<NodeId>, step: Step)
    requires BusInv(w) && Enabled(w, step) && AgreesOnVoters(w, V, step)
    ensures E.Enabled(Abs(w), V, AbsStep(w, step))
    ensures Abs(Next(w, step)) == E.Next(Abs(w), V, AbsStep(w, step))
  {
    hide Next, AbsStep, Abs;
    match step {
      case Deliver(e, recent) =>
        if EarnsVote(w.servers[e.dst], e.packet, recent) {
          GrantRefines(w, V, e, recent);
        } else {
          RaiseRefines(w, V, e, recent);
        }
      case DeliverAck(v) => DeliverAckRefines(w, V, v);
      case Administer(n, a) => AdministerRefines(w, V, n, a);
      case Conclude(n) => ConcludeRefines(w, V, n);
      case _ => SendRefines(w, V, step);
    }
  }

  // ---------------------------------------------------------------- whole runs

  ghost predicate IsRun(w: World, run: seq<Step>)
    decreases |run|
  {
    run == [] || (Enabled(w, run[0]) && IsRun(Next(w, run[0]), run[1..]))
  }

  ghost function Final(w: World, run: seq<Step>): World
    requires IsRun(w, run)
    decreases |run|
  {
    if run == [] then w else Final(Next(w, run[0]), run[1..])
  }

  /** A run in which the candidates agree on the voters. */
  ghost predicate Agreeing(w: World, V: set<NodeId>, run: seq<Step>)
    requires IsRun(w, run)
    decreases |run|
  {
    run == [] || (AgreesOnVoters(w, V, run[0]) && Agreeing(Next(w, run[0]), V, run[1..]))
  }

  /** A run all of whose elections start with an empty counter. */
  ghost predicate StartingAtZero(w: World, run: seq<Step>)
    requires IsRun(w, run)
    decreases |run|
  {
    run == [] ||
    ((run[0].Start? ==> w.servers[run[0].n].authCount == 0) && StartingAtZero(Next(w, run[0]), run[1..]))
  }

  /** No packet in flight, no election open, every table consistent. */
  ghost predicate Init(w: World) {
    && w.net == {} && w.acks == map[] && w.asked == {} && w.granted == {} && w.counted == map[] && w.won == {}
    && (forall n :: n in w.servers ==> ServerOk(w, n) && w.servers[n].authCount == 0 && !w.servers[n].authSent)
  }

  /** In every reachable state of the cluster all tables are well formed and all epochs are bounded. */
  lemma {:induction false} RunKeepsBusInv(w: World, run: seq<Step>)
    requires BusInv(w) && IsRun(w, run)
    ensures BusInv(Final(w, run))
    decreases |run|
  {
    hide Next, Enabled;
    if run != [] {
      NextKeepsBusInv(w, run[0]);
      RunKeepsBusInv(Next(w, run[0]), run[1..]);
    }
  }

  lemma {:induction false} RunKeepsElectionInv(w: World, V: set<NodeId>, run: seq<Step>)
    requires BusInv(w) && E.Inv(Abs(w), V) && IsRun(w, run) && Agreeing(w, V, run) && StartingAtZero(w, run)
    ensures E.Inv(Abs(Final(w, run)), V)
    decreases |run|
  {
    if run != [] {
      var w' := Next(w, run[0]);
      assert IsRun(w', run[1..]) && Agreeing(w', V, run[1..]) && StartingAtZero(w', run[1..]) && Final(w, run) == Final(w', run[1..]);
      StepKeepsElectionInv(w, V, run[0]);
      RunKeepsElectionInv(w', V, run[1..]);
    }
  }

  lemma {:induction false} StepKeepsElectionInv(w: World, V: set<NodeId>, step: Step)
    requires BusInv(w) && E.Inv(Abs(w), V) && Enabled(w, step) && AgreesOnVoters(w, V, step)
    requires step.Start? ==> w.servers[step.n].authCount == 0
    ensures BusInv(Next(w, step)) && E.Inv(Abs(Next(w, step)), V)
  {
    hide Next, E.Next, E.Inv;
    NextKeepsBusInv(w, step);
    BusRefinesElections(w, V, step);
    E.NextKeepsInv(Abs(w), V, AbsStep(w, step));
  }

  /**
    Election safety of the whole protocol: in every run in which candidates agree on the voters and start
    their elections with an empty counter, at most one candidate wins a given epoch.
   */
  lemma {:induction false} ClusterElectionSafety(w: World, V: set<NodeId>, run: seq<Step>, a: E.Win, b: E.Win)
    requires Init(w) && IsRun(w, run) && Agreeing(w, V, run) && StartingAtZero(w, run)
    requires a in Final(w, run).won && b in Final(w, run).won && a.epoch == b.epoch
    ensures a.candidate == b.candidate
  {
    hide Next, Enabled;
    assert E.Inv(Abs(w), V) by {
      forall n | n in w.servers ensures E.BallotOk(Abs(w), V, n) {
        assert ServerOk(w, n);
      }
    }
    RunKeepsElectionInv(w, V, run);
    E.InvGivesSafety(Abs(Final(w, run)), V, a, b);
  }

  /** A node that takes a new epoch takes one above every config epoch in its table, in every reachable state. */
  lemma {:induction false} NewEpochsAreFresh(w: World, run: seq<Step>, n: NodeId, m: NodeId)
    requires Init(w) && IsRun(w, run)
    requires n in Final(w, run).servers && m in Final(w, run).servers[n].nodes
    ensures var c := Final(w, run).servers[n];
            && c.nodes[m].configEpoch < StartElection(c).authEpoch
            && (c.myself in c.nodes ==> c.nodes[m].configEpoch < Bump(c).nodes[c.myself].configEpoch)
  {
    hide Next, Enabled;
    RunKeepsBusInv(w, run);
    assert ServerOk(Final(w, run), n);
  }

  // ---------------------------------------------------------------- packets that kill

  /** No replica has slots of its own. */
  ghost predicate Roles(w: World) {
    forall n :: n in w.servers ==> NoStraySlots(w.servers[n])
  }

  /** The one command that gives a replica slots of its own. */
  ghost predicate Strays(w: World, step: Step) {
    step.Administer? && step.n in w.servers && GivesSlotToReplica(w.servers[step.n], step.action)
  }

  lemma {:induction false} NextKeepsRoles(w: World, step: Step)
    requires BusInv(w) && Roles(w) && Enabled(w, step) && !Strays(w, step)
    ensures Roles(Next(w, step))
  {
    hide Receive, Act, TakeOver, Allowed, Survives, WellFormed, NoDangling, EpochsBounded, KnowsMaster, EarnsVote,
        Header, GivesSlotToReplica;
    match step {
      case Deliver(e, recent) =>
        assert ServerOk(w, e.dst) && EnvelopeOk(w, e);
        ReceiveKeepsRoles(w.servers[e.dst], e.packet, recent);
      case DeliverAck(v) =>
        assert ServerOk(w, v.candidate) && AckOk(v, w.acks[v]);
        ElectionPacketsKeepRoles(w.servers[v.candidate], w.acks[v], false);
      case Administer(n, a) =>
        assert ServerOk(w, n);
        ActKeepsRoles(w.servers[n], a);
      case Conclude(n) =>
        assert ServerOk(w, n);
        TakeOverKeeps(w.servers[n]);
      case _ =>
    }
  }

  /** A run in which nobody gives slots to a replica. */
  ghost predicate SlotsForMasters(w: World, run: seq<Step>)
    requires IsRun(w, run)
    decreases |run|
  {
    run == [] || (!Strays(w, run[0]) && SlotsForMasters(Next(w, run[0]), run[1..]))
  }

  lemma {:induction false} RunKeepsRoles(w: World, run: seq<Step>)
    requires BusInv(w) && Roles(w) && IsRun(w, run) && SlotsForMasters(w, run)
    ensures BusInv(Final(w, run)) && Roles(Final(w, run))
    decreases |run|
  {
    hide Next, Enabled, Roles, BusInv, Strays;
    if run != [] {
      NextKeepsBusInv(w, run[0]);
      NextKeepsRoles(w, run[0]);
      RunKeepsRoles(Next(w, run[0]), run[1..]);
    }
  }

  /** In no reachable state does a packet in flight make its receiver read through a NULL pointer. */
  lemma {:induction false} NullIsNeverRead(w: World, run: seq<Step>, e: Envelope)
    requires Init(w) && IsRun(w, run)
    requires e in Final(w, run).net && e.dst in Final(w, run).servers
    ensures NoDangling(Final(w, run).servers[e.dst]) && !ReadsNull(Final(w, run).servers[e.dst], e.packet)
  {
    hide Next, Enabled, ReadsNull;
    RunKeepsBusInv(w, run);
    var v := Final(w, run);
    assert ServerOk(v, e.dst) && EnvelopeOk(v, e);
    GoodRolesSurvive(v.servers[e.dst], e.packet);
  }

  /** And if no replica is ever given slots, no packet in flight kills its receiver. */
  lemma {:induction false} NobodyDies(w: World, run: seq<Step>, e: Envelope)
    requires Init(w) && Roles(w) && IsRun(w, run) && SlotsForMasters(w, run)
    requires e in Final(w, run).net && e.dst in Final(w, run).servers
    ensures NoDangling(Final(w, run).servers[e.dst]) && Survives(Final(w, run).servers[e.dst], e.packet)
  {
    hide Next, Enabled, Survives, ReadsNull;
    RunKeepsRoles(w, run);
    var v := Final(w, run);
    assert ServerOk(v, e.dst) && EnvelopeOk(v, e);
    GoodRolesSurvive(v.servers[e.dst], e.packet);
  }
}
