/** What the administrator commands do to the owner of every slot, to the open slots and to the nodes. */
module ClusterCommands {
  import opened SlotTables
  import opened ClusterModel
  import opened ClusterBus

  /** One slot has a new owner or none, and no other slot changes hands. */
  ghost predicate SlotGoes(c: Cluster, d: Cluster, slot: nat, to: Option<NodeId>) {
    forall j :: Get(d.t.owner, j) == if j == slot then to else Get(c.t.owner, j)
  }

  ghost predicate SameSlots(c: Cluster, d: Cluster) {
    d.t.owner == c.t.owner
  }

  /** An entry of the table of open slots. */
  ghost predicate OpenSlot(was: map<nat, NodeId>, now: map<nat, NodeId>, slot: nat, node: Option<NodeId>) {
    forall j :: Get(now, j) == if j == slot then node else Get(was, j)
  }

  /** One node has a new entry, and no other one changes. */
  ghost predicate NodeBecomes(c: Cluster, d: Cluster, n: NodeId, p: Peer) {
    forall m :: Get(d.nodes, m) == if m == n then Some(p) else Get(c.nodes, m)
  }

  ghost predicate OwnsGreatestEpoch(d: Cluster) {
    && d.myself in d.nodes && d.nodes[d.myself].configEpoch > 0
    && forall n :: n in d.nodes ==> d.nodes[n].configEpoch <= d.nodes[d.myself].configEpoch
  }

  ghost predicate SlotCommandMeans(c: Cluster, a: Action, d: Cluster)
    requires c.myself in c.nodes
  {
    match a
    case AddOwnSlot(slot) =>
      SlotGoes(c, d, slot, Some(c.myself)) && OpenSlot(c.importing, d.importing, slot, None) && d.migrating == c.migrating && d.nodes == c.nodes
    case DelAnySlot(slot) =>
      SlotGoes(c, d, slot, None) && OpenSlot(c.importing, d.importing, slot, None) && d.migrating == c.migrating && d.nodes == c.nodes
    case SetSlotNode(slot, to, keys) =>
      && SlotGoes(c, d, slot, Some(to))
      && (if keys == 0 then OpenSlot(c.migrating, d.migrating, slot, None) else d.migrating == c.migrating)
      && (if to == c.myself && slot in c.importing then OpenSlot(c.importing, d.importing, slot, None) && OwnsGreatestEpoch(d)
          else d.importing == c.importing && d.nodes == c.nodes)
    case SetImporting(slot, from) =>
      SameSlots(c, d) && OpenSlot(c.importing, d.importing, slot, Some(from)) && d.migrating == c.migrating && d.nodes == c.nodes
    case SetMigrating(slot, to) =>
      SameSlots(c, d) && OpenSlot(c.migrating, d.migrating, slot, Some(to)) && d.importing == c.importing && d.nodes == c.nodes
    case SetStable(slot) =>
      && SameSlots(c, d) && OpenSlot(c.importing, d.importing, slot, None) && OpenSlot(c.migrating, d.migrating, slot, None)
      && d.nodes == c.nodes
    case _ => true
  }

  ghost predicate NodeCommandMeans(c: Cluster, a: Action, d: Cluster)
    requires c.myself in c.nodes
  {
    match a
    case BumpEpoch => SameSlots(c, d) && OwnsGreatestEpoch(d)
    case SetConfigEpoch(epoch) =>
      SameSlots(c, d) && NodeBecomes(c, d, c.myself, c.nodes[c.myself].(configEpoch := epoch)) && d.currentEpoch >= epoch
    case Meet(peer, master) => SameSlots(c, d) && NodeBecomes(c, d, peer, Peer(0, master, None, false, {}))
    case Drop(peer) =>
      && peer !in d.nodes && d.nodes.Keys == c.nodes.Keys - {peer}
      && (forall j :: Get(d.t.owner, j) == if Get(c.t.owner, j) == Some(peer) then None else Get(c.t.owner, j))
    case MarkFailed(peer, failed) =>
      SameSlots(c, d) && peer in c.nodes && NodeBecomes(c, d, peer, c.nodes[peer].(failed := failed))
    case Replicate(of) =>
      && SameSlots(c, d) && (forall n :: n in c.nodes && n != c.myself ==> Get(d.nodes, n) == Some(c.nodes[n]))
      && (Get(c.t.bits, c.myself) == Some({}) ==>
            c.myself in d.nodes && !d.nodes[c.myself].master && d.nodes[c.myself].slaveof == Some(of))
    case _ => true
  }

  /** CLUSTER ADDSLOTS, DELSLOTS and SETSLOT. */
  lemma {:induction false} SlotCommandsDo(c: Cluster, a: Action)
    requires WellFormed(c) && EpochsBounded(c) && Allowed(c, a)
    ensures c.myself in c.nodes && SlotCommandMeans(c, a, Act(c, a))
  {
    hide WellFormed, BumpIfBehind, EpochsBounded;
    MyselfIsKnown(c);
    if a.SetSlotNode? {
      hide SlotGoes, OpenSlot, OwnsGreatestEpoch;
      BumpGivesGreatest(c);
      MovedSlot(c, a.slot, a.to);
      ClosedSlot(c.importing, a.slot);
      ClosedSlot(c.migrating, a.slot);
      SameOwners(c, Act(c, a), c.(t := AddSlot(DelSlot(c.t, a.slot), a.to, a.slot)), a.slot, Some(a.to));
      GreatestStays(BumpIfBehind(c), Act(c, a));
    }
  }

  lemma {:induction false} MovedSlot(c: Cluster, slot: nat, to: NodeId)
    requires to in c.t.bits && (slot in c.t.owner ==> c.t.owner[slot] in c.t.bits)
    ensures SlotGoes(c, c.(t := AddSlot(DelSlot(c.t, slot), to, slot)), slot, Some(to))
  {
  }

  lemma {:induction false} ClosedSlot(m: map<nat, NodeId>, slot: nat)
    ensures OpenSlot(m, m - {slot}, slot, None)
  {
  }

  lemma {:induction false} SameOwners(c: Cluster, d: Cluster, e: Cluster, slot: nat, to: Option<NodeId>)
    requires SlotGoes(c, e, slot, to) && d.t == e.t
    ensures SlotGoes(c, d, slot, to)
  {
  }

  lemma {:induction false} GreatestStays(c: Cluster, d: Cluster)
    requires OwnsGreatestEpoch(c)
    ensures d.myself == c.myself && d.nodes == c.nodes ==> OwnsGreatestEpoch(d)
  {
  }

  lemma {:induction false} BumpGivesGreatest(c: Cluster)
    requires c.myself in c.nodes && EpochsBounded(c)
    ensures OwnsGreatestEpoch(BumpIfBehind(c)) && BumpIfBehind(c).t == c.t && BumpIfBehind(c).importing == c.importing
    ensures BumpIfBehind(c).migrating == c.migrating
    ensures var mine := c.nodes[c.myself].configEpoch;
            if mine > 0 && mine >= c.currentEpoch then BumpIfBehind(c) == c
            else BumpIfBehind(c).nodes[c.myself].configEpoch == BumpIfBehind(c).currentEpoch == c.currentEpoch + 1
  {
  }

  /** CLUSTER BUMPEPOCH, SET-CONFIG-EPOCH, MEET, FORGET and REPLICATE, and the failure flag. */
  lemma {:induction false} NodeCommandsDo(c: Cluster, a: Action)
    requires WellFormed(c) && EpochsBounded(c) && Allowed(c, a) && c.myself in c.nodes && c.t.bits.Keys == c.nodes.Keys
    ensures NodeCommandMeans(c, a, Act(c, a))
  {
    hide WellFormed, BumpIfBehind, Rebind, EpochsBounded;
    BumpGivesGreatest(c);
    if a.Drop? {
      hide DelNode;
      DelNodeLeavesNoReference(c, a.peer);
      DroppedSlots(c, a.peer);
    }
  }

  /** An UPDATE that a node sends carries the epoch and exactly the slots that it knows of the node it is about. */
  lemma {:induction false} UpdateTellsSlots(w: World, n: NodeId, dst: NodeId, about: NodeId, e: Envelope)
    requires BusInv(w) && Enabled(w, SendUpdate(n, dst, about)) && e in Next(w, SendUpdate(n, dst, about)).net
    requires e !in w.net
    ensures var c, k := w.servers[n], e.packet.kind;
            && e.dst == dst && e.packet.sender == n && k.Update? && k.about == about
            && k.aboutEpoch == c.nodes[about].configEpoch
            && forall j :: j in k.aboutSlots <==> Get(c.t.owner, j) == Some(about)
  {
    assert ServerOk(w, n);
    var c := w.servers[n];
    forall j ensures about in c.t.bits && (j in c.t.bits[about] <==> Get(c.t.owner, j) == Some(about)) {
      assert HasBit(c.t, about, j) <==> Owns(c.t, about, j);
    }
    hide BusInv, WellFormed;
  }

  lemma {:induction false} DroppedSlots(c: Cluster, n: NodeId)
    requires WellFormed(c) && n in c.nodes && n in c.t.bits
    ensures forall j :: Get(DelNode(c, n).t.owner, j) == if Get(c.t.owner, j) == Some(n) then None else Get(c.t.owner, j)
  {
    RebindAt(c.t, c.t.bits[n], None);
    forall j ensures j in c.t.bits[n] <==> Get(c.t.owner, j) == Some(n) {
      assert HasBit(c.t, n, j) <==> Owns(c.t, n, j);
    }
    hide Rebind, Agree;
  }
}
