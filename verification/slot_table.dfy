/**
  The hash slot table of one node: `slots[16384]` of struct clusterState and the
  `slots` bitmap of every struct clusterNode, kept by clusterAddSlot,
  clusterDelSlot and the loops built from them (cluster.c).
 */
module SlotTables {

  type NodeId = nat

  const CLUSTER_SLOTS: nat := 16384

  datatype Option<+T> = None | Some(value: T)

  function Get<K, V>(m: map<K, V>, k: K): Option<V> {
    if k in m then Some(m[k]) else None
  }

  /** An absent key of `owner` is a NULL entry; `bits[n]` is the bitmap of node n. */
  datatype SlotTable = SlotTable(bits: map<NodeId, set<nat>>, owner: map<nat, NodeId>)

  predicate HasBit(t: SlotTable, n: NodeId, j: nat) {
    n in t.bits && j in t.bits[n]
  }

  predicate Owns(t: SlotTable, n: NodeId, j: nat) {
    j in t.owner && t.owner[j] == n
  }

  /** The two views tell the same story: slots[j] is n exactly when bit j of n is set. */
  ghost predicate Agree(t: SlotTable) {
    && (forall n, j :: HasBit(t, n, j) <==> Owns(t, n, j))
    && (forall j {:trigger t.owner[j]} :: j in t.owner ==> t.owner[j] in t.bits && j < CLUSTER_SLOTS)
  }

  /** clusterAddSlot: refused when the slot already has an owner. */
  function AddSlot(t: SlotTable, n: NodeId, j: nat): SlotTable
    requires n in t.bits
  {
    if j in t.owner then t else SlotTable(t.bits[n := t.bits[n] + {j}], t.owner[j := n])
  }

  /** clusterDelSlot: refused when the slot has no owner. */
  function DelSlot(t: SlotTable, j: nat): SlotTable
    requires j in t.owner ==> t.owner[j] in t.bits
  {
    if j !in t.owner then t
    else SlotTable(t.bits[t.owner[j] := t.bits[t.owner[j]] - {j}], t.owner - {j})
  }

  function RebindBits(t: SlotTable, moved: set<nat>, to: Option<NodeId>): map<NodeId, set<nat>> {
    map n | n in t.bits :: if to == Some(n) then t.bits[n] + moved else t.bits[n] - moved
  }

  function RebindOwner(t: SlotTable, moved: set<nat>, to: Option<NodeId>): map<nat, NodeId> {
    match to
    case None => t.owner - moved
    case Some(n) => map j | j in t.owner.Keys + moved :: if j in moved then n else t.owner[j]
  }

  /** All the slots in `moved` given to `to` at once, or unassigned when `to` is None. */
  function Rebind(t: SlotTable, moved: set<nat>, to: Option<NodeId>): SlotTable {
    SlotTable(RebindBits(t, moved, to), RebindOwner(t, moved, to))
  }

  lemma {:induction false} RebindAt(t: SlotTable, moved: set<nat>, to: Option<NodeId>)
    ensures Rebind(t, moved, to).bits.Keys == t.bits.Keys
    ensures forall n :: n in t.bits ==> Rebind(t, moved, to).bits[n] == if to == Some(n) then t.bits[n] + moved else t.bits[n] - moved
    ensures forall j :: Get(Rebind(t, moved, to).owner, j) == if j in moved then to else Get(t.owner, j)
  {
  }

  lemma {:induction false} RebindKeepsAgreement(t: SlotTable, moved: set<nat>, to: Option<NodeId>)
    requires Agree(t)
    requires to.Some? ==> to.value in t.bits && forall j :: j in moved ==> j < CLUSTER_SLOTS
    ensures Agree(Rebind(t, moved, to))
    ensures Rebind(t, moved, to).bits.Keys == t.bits.Keys
  {
    var d := Rebind(t, moved, to);
    forall n, j ensures HasBit(d, n, j) <==> Owns(d, n, j) {
      assert HasBit(t, n, j) <==> Owns(t, n, j);
    }
  }

  /** Agreement is what the assertion in clusterDelSlot relies on: the bit it clears is set. */
  lemma {:induction false} OwnerHasBit(t: SlotTable, j: nat)
    requires Agree(t) && j in t.owner
    ensures t.owner[j] in t.bits && j in t.bits[t.owner[j]]
  {
    assert Owns(t, t.owner[j], j);
  }

  lemma {:induction false} BitsAreSlots(t: SlotTable, n: NodeId)
    requires Agree(t) && n in t.bits
    ensures forall j :: j in t.bits[n] ==> j < CLUSTER_SLOTS
  {
    forall j | j in t.bits[n] ensures j < CLUSTER_SLOTS {
      assert HasBit(t, n, j) <==> Owns(t, n, j);
    }
  }

  lemma {:induction false} AddKeepsAgreement(t: SlotTable, n: NodeId, j: nat)
    requires Agree(t) && n in t.bits && j < CLUSTER_SLOTS
    ensures Agree(AddSlot(t, n, j))
  {
    var d := AddSlot(t, n, j);
    forall m, i ensures HasBit(d, m, i) <==> Owns(d, m, i) {
      assert HasBit(t, m, i) <==> Owns(t, m, i);
    }
  }

  lemma {:induction false} DelKeepsAgreement(t: SlotTable, j: nat)
    requires Agree(t)
    ensures Agree(DelSlot(t, j))
  {
    var d := DelSlot(t, j);
    forall m, i ensures HasBit(d, m, i) <==> Owns(d, m, i) {
      assert HasBit(t, m, i) <==> Owns(t, m, i);
    }
  }

  /** clusterDelSlot followed by clusterAddSlot moves one slot. */
  lemma {:induction false} MoveOneSlot(t: SlotTable, j: nat, to: NodeId)
    requires Agree(t) && to in t.bits
    ensures AddSlot(DelSlot(t, j), to, j) == Rebind(t, {j}, Some(to))
  {
    var f := AddSlot(DelSlot(t, j), to, j);
    assert f.owner == RebindOwner(t, {j}, Some(to));
    assert f.bits.Keys == t.bits.Keys;
    forall n | n in t.bits ensures f.bits[n] == if n == to then t.bits[n] + {j} else t.bits[n] - {j} {
      MovedBits(t, j, to, n);
    }
    hide AddSlot, DelSlot, Agree;
    assert f.bits == RebindBits(t, {j}, Some(to));
  }

  lemma {:induction false} MovedBits(t: SlotTable, j: nat, to: NodeId, n: NodeId)
    requires Agree(t) && to in t.bits && n in t.bits
    ensures AddSlot(DelSlot(t, j), to, j).bits.Keys == t.bits.Keys
    ensures AddSlot(DelSlot(t, j), to, j).bits[n] == if n == to then t.bits[n] + {j} else t.bits[n] - {j}
  {
    assert HasBit(t, n, j) <==> Owns(t, n, j);
    hide Agree;
    assert DelSlot(t, j).bits[n] == t.bits[n] - {j};
    assert t.bits[n] - {j} + {j} == t.bits[n] + {j};
  }

  lemma {:induction false} MoveKeepsAgreement(t: SlotTable, j: nat, to: NodeId)
    requires Agree(t) && to in t.bits && j < CLUSTER_SLOTS
    ensures (j in t.owner ==> t.owner[j] in t.bits) && DelSlot(t, j).bits.Keys == t.bits.Keys
    ensures var d := AddSlot(DelSlot(t, j), to, j); Agree(d) && d.bits.Keys == t.bits.Keys
  {
    DelKeepsAgreement(t, j);
    AddKeepsAgreement(DelSlot(t, j), to, j);
  }

  lemma {:induction false} RebindTwice(t: SlotTable, a: set<nat>, b: set<nat>, to: Option<NodeId>)
    ensures Rebind(Rebind(t, a, to), b, to) == Rebind(t, a + b, to)
  {
    var f, g := Rebind(Rebind(t, a, to), b, to), Rebind(t, a + b, to);
    forall n | n in t.bits ensures f.bits[n] == g.bits[n] {
      assert (t.bits[n] + a) + b == t.bits[n] + (a + b);
      assert (t.bits[n] - a) - b == t.bits[n] - (a + b);
    }
    assert f.owner == g.owner;
  }

  /** One iteration: unbinding slot j and giving it to `to` adds j to the slots moved so far. */
  lemma {:induction false} RebindOneMore(t: SlotTable, moved: set<nat>, j: nat, to: NodeId)
    requires Agree(t) && to in t.bits
    requires forall i :: i in moved ==> i < CLUSTER_SLOTS
    ensures var d := Rebind(t, moved, Some(to));
            && Agree(d) && (j in d.owner ==> d.owner[j] in d.bits)
            && AddSlot(DelSlot(d, j), to, j) == Rebind(t, moved + {j}, Some(to))
  {
    RebindKeepsAgreement(t, moved, Some(to));
    MoveOneSlot(Rebind(t, moved, Some(to)), j, to);
    RebindTwice(t, moved, {j}, Some(to));
  }

  lemma {:induction false} UnbindOneMore(t: SlotTable, moved: set<nat>, j: nat)
    requires Agree(t)
    ensures var d := Rebind(t, moved, None);
            && (j in d.owner ==> d.owner[j] in d.bits)
            && DelSlot(d, j) == Rebind(t, moved + {j}, None)
  {
    var d := Rebind(t, moved, None);
    RebindKeepsAgreement(t, moved, None);
    var f, g := DelSlot(d, j), Rebind(t, moved + {j}, None);
    forall n | n in d.bits ensures f.bits[n] == g.bits[n] {
      assert HasBit(d, n, j) <==> Owns(d, n, j);
      assert f.bits[n] == d.bits[n] - {j};
    }
    assert f.owner == g.owner;
  }

  lemma {:induction false} RebindNothing(t: SlotTable, to: Option<NodeId>)
    ensures Rebind(t, {}, to) == t
  {
    forall n | n in t.bits ensures RebindBits(t, {}, to)[n] == t.bits[n] {
      assert t.bits[n] + {} == t.bits[n] == t.bits[n] - {};
    }
    assert RebindOwner(t, {}, to) == t.owner;
  }
}
