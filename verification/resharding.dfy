/**
  Live resharding of one hash slot between two nodes: MIGRATE moves keys one by
  one while clients keep reading and writing them, redirected by ASK and MOVED
  (getNodeByQuery, migrateCommand and CLUSTER SETSLOT of cluster.c).
 */
module Resharding {
  import opened SlotTables

  type Value = string

  /** A key and the slot it hashes to. */
  datatype Key = Key(slot: nat, name: nat)

  /** The answers of getNodeByQuery. */
  datatype Route =
    | Serve
    | Ask(to: NodeId)
    | Moved(to: NodeId)
    | CrossSlot
    | TryAgain
    | SlotUnbound

  /** What one node knows about the slots. */
  datatype Tables = Tables(myself: NodeId, owner: map<nat, NodeId>, migrating: map<nat, NodeId>, importing: map<nat, NodeId>)

  // ---------------------------------------------------------------- routing

  predicate Migrating(t: Tables, slot: nat) {
    Get(t.owner, slot) == Some(t.myself) && slot in t.migrating
  }

  predicate Importing(t: Tables, slot: nat) {
    !Migrating(t, slot) && slot in t.importing
  }

  predicate SomeMissing(store: set<Key>, keys: seq<Key>) {
    exists k :: k in keys && k !in store
  }

  predicate Several(keys: seq<Key>, first: Key) {
    exists k :: k in keys && k != first
  }

  /** What getNodeByQuery promises, for a command whose keys are `keys`, in a cluster that is up. */
  function RouteOf(t: Tables, store: set<Key>, keys: seq<Key>, asking: bool, isMigrate: bool): Route {
    if keys == [] then Serve
    else
      var slot := keys[0].slot;
      if slot !in t.owner then SlotUnbound
      else if exists k :: k in keys && k.slot != slot then CrossSlot
      else if (Migrating(t, slot) || Importing(t, slot)) && isMigrate then Serve
      else if Migrating(t, slot) && SomeMissing(store, keys) then Ask(t.migrating[slot])
      else if Importing(t, slot) && asking then
        if Several(keys, keys[0]) && SomeMissing(store, keys) then TryAgain else Serve
      else if t.owner[slot] == t.myself then Serve
      else Moved(t.owner[slot])
  }

  /**
    What a client can rely on. MOVED names the owner of the slot, which is somebody else; ASK names the node the
    slot migrates to, and a key is missing here; a command is served by the owner of the slot, or by a node that
    imports it when the client says ASKING or the command is MIGRATE; and each error has exactly one cause.
   */
  ghost predicate Reliable(t: Tables, store: set<Key>, keys: seq<Key>, asking: bool, isMigrate: bool, r: Route) {
    var owner := if keys == [] then None else Get(t.owner, keys[0].slot);
    && (r.Moved? ==> owner == Some(r.to) && r.to != t.myself)
    && (r.Ask? ==> owner == Some(t.myself) && Get(t.migrating, keys[0].slot) == Some(r.to)
                   && exists k :: k in keys && k !in store)
    && (r.Serve? && keys != [] ==>
          owner == Some(t.myself) || (owner.Some? && keys[0].slot in t.importing && (asking || isMigrate)))
    && (r.SlotUnbound? <==> keys != [] && owner.None?)
    && (r.CrossSlot? <==> owner.Some? && exists k :: k in keys && k.slot != keys[0].slot)
    && (r.TryAgain? ==> keys != [] && asking && keys[0].slot in t.importing && (exists k :: k in keys && k !in store)
                        && exists k :: k in keys && k != keys[0])
    && (keys == [] ==> r.Serve?)
    && (isMigrate && owner.Some? && (forall k :: k in keys ==> k.slot == keys[0].slot) ==>
          (keys[0].slot in t.importing || (owner == Some(t.myself) && keys[0].slot in t.migrating) ==> r.Serve?))
  }

  lemma {:induction false} RouteIsReliable(t: Tables, store: set<Key>, keys: seq<Key>, asking: bool, isMigrate: bool)
    ensures Reliable(t, store, keys, asking, isMigrate, RouteOf(t, store, keys, asking, isMigrate))
  {
  }

  lemma {:induction false} SeveralNext(keys: seq<Key>, i: nat)
    requires i < |keys|
    ensures Several(keys[..i + 1], keys[0]) <==> Several(keys[..i], keys[0]) || keys[i] != keys[0]
  {
    var a, b := keys[..i], keys[..i + 1];
    assert b == a + [keys[i]];
    if Several(a, keys[0]) {
      var k :| k in a && k != keys[0];
      assert k in b;
    }
    if keys[i] != keys[0] {
      assert keys[i] in b;
    }
  }

  /** getNodeByQuery. */
  method GetNodeByQuery(t: Tables, store: set<Key>, keys: seq<Key>, asking: bool, isMigrate: bool) returns (r: Route)
    ensures r == RouteOf(t, store, keys, asking, isMigrate) && Reliable(t, store, keys, asking, isMigrate, r)
  {
    RouteIsReliable(t, store, keys, asking, isMigrate);
    var firstKey: Option<Key> := None;
    var slot, multipleKeys, migratingSlot, importingSlot, missingKeys := 0, false, false, false, 0;
    for i := 0 to |keys|
      invariant firstKey == if i == 0 then None else Some(keys[0])
      invariant i == 0 ==> !migratingSlot && !importingSlot && !multipleKeys && missingKeys == 0
      invariant i > 0 ==> slot == keys[0].slot && slot in t.owner
      invariant i > 0 ==> migratingSlot == Migrating(t, slot) && importingSlot == Importing(t, slot)
      invariant forall k :: k in keys[..i] ==> k.slot == slot
      invariant i > 0 ==> (multipleKeys <==> Several(keys[..i], keys[0]))
      invariant migratingSlot || importingSlot ==> (missingKeys > 0 <==> SomeMissing(store, keys[..i]))
    {
      var key := keys[i];
      assert keys[..i + 1] == keys[..i] + [key];
      SeveralNext(keys, i);
      assert SomeMissing(store, keys[..i + 1]) <==> SomeMissing(store, keys[..i]) || key !in store;
      if firstKey.None? {
        firstKey := Some(key);
        slot := key.slot;
        if slot !in t.owner {
          return SlotUnbound;
        }
        if t.owner[slot] == t.myself && slot in t.migrating {
          migratingSlot := true;
        } else if slot in t.importing {
          importingSlot := true;
        }
      } else if firstKey.value != key {
        if key.slot != slot {
          assert key in keys;
          return CrossSlot;
        }
        multipleKeys := true;
      }
      if (migratingSlot || importingSlot) && key !in store {
        missingKeys := missingKeys + 1;
      }
    }
    assert keys[..|keys|] == keys;
    if firstKey.None? {
      return Serve;
    }
    if (migratingSlot || importingSlot) && isMigrate {
      return Serve;
    }
    if migratingSlot && missingKeys > 0 {
      return Ask(t.migrating[slot]);
    }
    if importingSlot && asking {
      if multipleKeys && missingKeys > 0 {
        return TryAgain;
      }
      return Serve;
    }
    return if t.owner[slot] == t.myself then Serve else Moved(t.owner[slot]);
  }

  // ---------------------------------------------------------------- the two nodes

  datatype Side = Source | Destination

  /** The key a MIGRATE is moving, and whether the destination has applied its RESTORE. */
  datatype Move = Move(key: Key, restored: bool)

  /**
    `asked` holds the key lists of commands the source answered with ASK.  `latest` is the content of
    the slot a single node would have; no node reads it.
   */
  datatype World = World(
    slot: nat,
    src: Tables,
    dst: Tables,
    srcData: map<Key, Value>,
    dstData: map<Key, Value>,
    move: Option<Move>,
    asked: set<seq<Key>>,
    latest: map<Key, Value>)

  /** New contents of some of the keys of a command: Some(v) sets, None deletes. */
  type Writes = map<Key, Option<Value>>

  datatype Step =
    | Command(at: Side, keys: seq<Key>, writes: Writes, asking: bool)
    | OpenSource
    | OpenDestination
    | MigrateStart(key: Key)
    | Restore
    | MigrateAck
    | MigrateFail
    | CloseSource
    | CloseDestination

  function Apply(data: map<Key, Value>, writes: Writes): map<Key, Value> {
    map k | k in data.Keys + writes.Keys && (k in writes ==> writes[k].Some?)
      :: if k in writes then writes[k].value else data[k]
  }

  function RouteAt(w: World, at: Side, keys: seq<Key>, asking: bool): Route {
    match at
    case Source => RouteOf(w.src, w.srcData.Keys, keys, asking, false)
    case Destination => RouteOf(w.dst, w.dstData.Keys, keys, asking, false)
  }

  /**
    A command is about keys of the slot and writes only keys it names; the source does nothing else while
    it waits for a RESTORE; ASKING is sent to the destination only for a command that was answered with
    ASK; a MIGRATE fails only when no RESTORE was applied; the destination is closed when the source is
    empty, the source when its own table says so.
   */
  ghost predicate Enabled(w: World, step: Step) {
    match step
    case Command(at, keys, writes, asking) =>
      && keys != [] && (forall k :: k in keys ==> k.slot == w.slot) && (forall k :: k in writes ==> k in keys)
      && (at == Source ==> w.move.None?)
      && (asking ==> at == Destination && keys in w.asked)
    case OpenSource => w.move.None? && Get(w.src.owner, w.slot) == Some(w.src.myself)
    case OpenDestination => Get(w.dst.owner, w.slot) != Some(w.dst.myself)
    case MigrateStart(key) => w.move.None? && key in w.srcData && Migrating(w.src, w.slot)
    case Restore => w.move.Some? && !w.move.value.restored && w.move.value.key !in w.dstData && w.move.value.key in w.srcData
    case MigrateAck => w.move.Some? && w.move.value.restored
    case MigrateFail => w.move.Some? && !w.move.value.restored
    case CloseSource => w.move.None? && w.srcData == map[]
    case CloseDestination => w.move.None? && w.srcData == map[] && Migrating(w.src, w.slot)
  }

  ghost function Next(w: World, step: Step): World
    requires Enabled(w, step)
  {
    match step
    case Command(at, keys, writes, asking) =>
      (match RouteAt(w, at, keys, asking)
       case Serve =>
         if at == Source then w.(srcData := Apply(w.srcData, writes), latest := Apply(w.latest, writes))
         else w.(dstData := Apply(w.dstData, writes), latest := Apply(w.latest, writes))
       case Ask(_) => w.(asked := w.asked + {keys})
       case _ => w)
    case OpenSource => w.(src := w.src.(migrating := w.src.migrating[w.slot := w.dst.myself]))
    case OpenDestination => w.(dst := w.dst.(importing := w.dst.importing[w.slot := w.src.myself]))
    case MigrateStart(key) => w.(move := Some(Move(key, false)))
    case Restore =>
      var k := w.move.value.key;
      w.(dstData := w.dstData[k := w.srcData[k]], move := Some(Move(k, true)))
    case MigrateAck => w.(srcData := w.srcData - {w.move.value.key}, move := None)
    case MigrateFail => w.(move := None)
    case CloseSource =>
      w.(src := w.src.(owner := w.src.owner[w.slot := w.dst.myself], migrating := w.src.migrating - {w.slot}))
    case CloseDestination =>
      w.(dst := w.dst.(owner := w.dst.owner[w.slot := w.dst.myself], importing := w.dst.importing - {w.slot}))
  }

  // ---------------------------------------------------------------- one authoritative copy

  /** k is in the hands of the destination: the source has no copy, or only the one it is about to drop. */
  ghost predicate AtDestination(w: World, k: Key) {
    k !in w.srcData || w.move == Some(Move(k, true))
  }

  /** The latest content of k is the copy of the node that has it in hand; nobody else has one. */
  ghost predicate OneCopy(w: World, k: Key) {
    && (AtDestination(w, k) ==> Get(w.latest, k) == Get(w.dstData, k))
    && (!AtDestination(w, k) ==> Get(w.latest, k) == Get(w.srcData, k) && k !in w.dstData)
  }

  ghost predicate TablesOk(w: World) {
    && w.src.myself != w.dst.myself && w.slot in w.src.owner && w.slot in w.dst.owner
    && w.src.owner[w.slot] in {w.src.myself, w.dst.myself} && w.dst.owner[w.slot] in {w.src.myself, w.dst.myself}
    && w.slot !in w.src.importing && w.slot !in w.dst.migrating
    && (w.slot in w.src.migrating ==> w.src.migrating[w.slot] == w.dst.myself)
  }

  ghost predicate Inv(w: World) {
    && TablesOk(w)
    && (forall k :: OneCopy(w, k))
    && (w.move.Some? ==> w.move.value.key in w.srcData && Migrating(w.src, w.slot))
    // a command answered with ASK names a key the source no longer has
    && (forall ks :: ks in w.asked ==> ks != [] && SomeMissing(w.srcData.Keys, ks))
    // until the source starts migrating nothing has moved
    && (!Migrating(w.src, w.slot) && w.src.owner[w.slot] == w.src.myself ==> w.asked == {} && w.dstData == map[])
    // whoever answers without ASKING in place of the source does so when the source is empty
    && (w.dst.owner[w.slot] == w.dst.myself || w.src.owner[w.slot] == w.dst.myself ==> w.srcData == map[] && w.move.None?)
    && (w.dst.owner[w.slot] == w.dst.myself ==> Migrating(w.src, w.slot) || w.src.owner[w.slot] == w.dst.myself)
  }

  /** The slot is stable at the source; the destination has nothing of it. */
  ghost predicate Init(w: World) {
    && TablesOk(w) && w.src.owner[w.slot] == w.src.myself && w.dst.owner[w.slot] == w.src.myself
    && w.slot !in w.src.migrating && w.slot !in w.dst.importing
    && w.dstData == map[] && w.move.None? && w.asked == {} && w.latest == w.srcData
  }

  /** A node serves a command only for keys it has in hand. */
  lemma {:induction false} ServesOnlyWhatItHolds(w: World, at: Side, keys: seq<Key>, writes: Writes, asking: bool)
    requires Inv(w) && Enabled(w, Command(at, keys, writes, asking)) && RouteAt(w, at, keys, asking) == Serve
    ensures forall k :: k in keys ==> (at == Destination <==> AtDestination(w, k)) || (at == Source && k !in w.dstData && k !in w.srcData)
    ensures at == Source && Migrating(w.src, w.slot) ==> forall k :: k in keys ==> k in w.srcData
  {
    assert keys[0].slot == w.slot;
    if at == Destination {
      forall k | k in keys ensures AtDestination(w, k) {
        assert OneCopy(w, k);
        if asking && w.dst.owner[w.slot] != w.dst.myself {
          var m :| m in keys && m !in w.srcData;
          assert SomeMissing(w.dstData.Keys, keys) || k in w.dstData;
          if k != m {
            assert k != keys[0] || m != keys[0];
          }
        }
      }
    } else {
      forall k | k in keys ensures !AtDestination(w, k) || (k !in w.dstData && k !in w.srcData) {
        assert OneCopy(w, k);
      }
    }
  }

  /** Every read of a served command returns the latest content of the key. */
  lemma {:induction false} ReadsAreLatest(w: World, at: Side, keys: seq<Key>, writes: Writes, asking: bool, k: Key)
    requires Inv(w) && Enabled(w, Command(at, keys, writes, asking)) && RouteAt(w, at, keys, asking) == Serve
    requires k in keys
    ensures Get(if at == Source then w.srcData else w.dstData, k) == Get(w.latest, k)
  {
    ServesOnlyWhatItHolds(w, at, keys, writes, asking);
    assert OneCopy(w, k);
  }

  lemma {:induction false} ServeKeepsInv(w: World, at: Side, keys: seq<Key>, writes: Writes, asking: bool)
    requires Inv(w) && Enabled(w, Command(at, keys, writes, asking)) && RouteAt(w, at, keys, asking) == Serve
    ensures Inv(Next(w, Command(at, keys, writes, asking)))
  {
    var w' := Next(w, Command(at, keys, writes, asking));
    ServesOnlyWhatItHolds(w, at, keys, writes, asking);
    ServesEmptyStaysEmpty(w, at, keys, writes, asking);
    hide RouteOf, Apply, OneCopy;
    forall k ensures OneCopy(w', k) {
      ServedOneCopy(w, at, keys, writes, asking, k);
    }
    forall ks | ks in w'.asked ensures ks != [] && SomeMissing(w'.srcData.Keys, ks) {
      var m :| m in ks && m !in w.srcData;
      ApplyAt(w.srcData, writes, m);
      assert m !in w'.srcData.Keys;
    }
  }

  lemma {:induction false} ApplyAt(data: map<Key, Value>, writes: Writes, k: Key)
    ensures Get(Apply(data, writes), k) == if k in writes then writes[k] else Get(data, k)
    ensures k in Apply(data, writes) <==> Get(Apply(data, writes), k).Some?
  {
  }

  /** A source or destination that answers for no key of the slot is left as it is. */
  lemma {:induction false} ServesEmptyStaysEmpty(w: World, at: Side, keys: seq<Key>, writes: Writes, asking: bool)
    requires Inv(w) && Enabled(w, Command(at, keys, writes, asking)) && RouteAt(w, at, keys, asking) == Serve
    ensures at == Source ==> w.src.owner[w.slot] == w.src.myself && w.dst.owner[w.slot] != w.dst.myself
    ensures at == Destination ==> Migrating(w.src, w.slot) || w.src.owner[w.slot] != w.src.myself
  {
    ServesOnlyWhatItHolds(w, at, keys, writes, asking);
    assert keys[0].slot == w.slot && keys[0] in keys;
  }

  lemma {:induction false} ServedOneCopy(w: World, at: Side, keys: seq<Key>, writes: Writes, asking: bool, k: Key)
    requires Inv(w) && Enabled(w, Command(at, keys, writes, asking)) && RouteAt(w, at, keys, asking) == Serve
    ensures OneCopy(Next(w, Command(at, keys, writes, asking)), k)
  {
    ServesOnlyWhatItHolds(w, at, keys, writes, asking);
    assert OneCopy(w, k);
    ApplyAt(w.latest, writes, k);
    ApplyAt(w.srcData, writes, k);
    ApplyAt(w.dstData, writes, k);
    hide RouteAt, Apply, Inv;
  }

  lemma {:induction false} AskKeepsInv(w: World, at: Side, keys: seq<Key>, writes: Writes, asking: bool)
    requires Inv(w) && Enabled(w, Command(at, keys, writes, asking)) && RouteAt(w, at, keys, asking) != Serve
    ensures Inv(Next(w, Command(at, keys, writes, asking)))
  {
    var w' := Next(w, Command(at, keys, writes, asking));
    assert keys[0].slot == w.slot;
    forall k ensures OneCopy(w', k) {
      assert OneCopy(w, k);
    }
  }

  lemma {:induction false} MoveKeepsInv(w: World, step: Step)
    requires Inv(w) && Enabled(w, step) && !step.Command?
    ensures Inv(Next(w, step))
  {
    var w' := Next(w, step);
    forall k ensures OneCopy(w', k) {
      assert OneCopy(w, k);
    }
    forall ks | ks in w'.asked ensures ks != [] && SomeMissing(w'.srcData.Keys, ks) {
      var m :| m in ks && m !in w.srcData;
      assert m !in w'.srcData.Keys;
    }
  }

  lemma {:induction false} NextKeepsInv(w: World, step: Step)
    requires Inv(w) && Enabled(w, step)
    ensures Inv(Next(w, step))
  {
    hide Next, Inv;
    match step {
      case Command(at, keys, writes, asking) =>
        if RouteAt(w, at, keys, asking) == Serve {
          ServeKeepsInv(w, at, keys, writes, asking);
        } else {
          AskKeepsInv(w, at, keys, writes, asking);
        }
      case _ => MoveKeepsInv(w, step);
    }
  }

  /** The slot is leaving the source, or has left it. */
  ghost predicate Leaving(w: World) {
    Migrating(w.src, w.slot) || Get(w.src.owner, w.slot) == Some(w.dst.myself)
  }

  /** Then no step creates a key at the source. */
  lemma {:induction false} SourceOnlyLoses(w: World, step: Step)
    requires Inv(w) && Enabled(w, step) && Leaving(w)
    ensures Next(w, step).srcData.Keys <= w.srcData.Keys && Leaving(Next(w, step))
  {
    if step.Command? {
      assert step.keys[0].slot == w.slot;
      if RouteAt(w, step.at, step.keys, step.asking) == Serve {
        ServesOnlyWhatItHolds(w, step.at, step.keys, step.writes, step.asking);
      }
    }
  }

  // ---------------------------------------------------------------- whole runs

  ghost predicate IsRun(w: World, run: seq<Step>)
    decreases |run|
  {
    run == [] || (Enabled(w, run[0]) && IsRun(Next(w, run[0]), run[1..]))
  }

  ghost function Final(w: World, run: seq<Step>): World
    requires IsRun(w, run)
    decreases |run|
  {
    if run == [] then w else Final(Next(w, run[0]), run[1..])
  }

  lemma {:induction false} RunKeepsInv(w: World, run: seq<Step>)
    requires Inv(w) && IsRun(w, run)
    ensures Inv(Final(w, run))
    decreases |run|
  {
    hide Inv, Next, Enabled;
    if run != [] {
      NextKeepsInv(w, run[0]);
      RunKeepsInv(Next(w, run[0]), run[1..]);
    }
  }

  /** The world after the first i steps of a run. */
  ghost function At(w: World, run: seq<Step>, i: nat): World
    requires IsRun(w, run) && i <= |run|
    decreases |run|
  {
    if i == 0 then w else At(Next(w, run[0]), run[1..], i - 1)
  }

  /** Once the slot is leaving, a key absent at the source is never created there again, however the run goes on. */
  lemma {:induction false} SourceNeverRegains(w: World, run: seq<Step>, i: nat)
    requires Inv(w) && IsRun(w, run) && i <= |run| && Leaving(At(w, run, i))
    ensures Final(w, run).srcData.Keys <= At(w, run, i).srcData.Keys && Leaving(Final(w, run))
    decreases |run|
  {
    hide Inv, Next, Enabled, Leaving;
    if run != [] {
      NextKeepsInv(w, run[0]);
      if i == 0 {
        SourceOnlyLoses(w, run[0]);
        SourceNeverRegains(Next(w, run[0]), run[1..], 0);
      } else {
        SourceNeverRegains(Next(w, run[0]), run[1..], i - 1);
      }
    }
  }

  /**
    Resharding keeps one authoritative copy: in every interleaving of commands, MIGRATE and SETSLOT, a node
    that answers a command has all its keys in hand, the destination answers for a key only when the source
    has dropped it or is blocked waiting to drop it, every value read is the latest one written, and a key
    the source did not have at some point after it began to migrate the slot is not there now.
   */
  lemma {:induction false} ReshardingIsTransparent(w: World, run: seq<Step>, at: Side, keys: seq<Key>, writes: Writes,
      asking: bool, k: Key)
    requires Init(w) && IsRun(w, run) && k in keys
    requires Enabled(Final(w, run), Command(at, keys, writes, asking))
    requires RouteAt(Final(w, run), at, keys, asking) == Serve
    ensures var f := Final(w, run);
            && Get(if at == Source then f.srcData else f.dstData, k) == Get(f.latest, k)
            && (at == Destination ==> k !in f.srcData || f.move == Some(Move(k, true)))
            && (at == Source ==> k !in f.dstData)
            && (forall i {:trigger At(w, run, i)} ::
                  0 <= i <= |run| && Leaving(At(w, run, i)) && k !in At(w, run, i).srcData ==> k !in f.srcData)
  {
    assert Inv(w) by {
      forall k ensures OneCopy(w, k) {
      }
    }
    hide Next, Enabled, RouteOf;
    RunKeepsInv(w, run);
    var f := Final(w, run);
    ReadsAreLatest(f, at, keys, writes, asking, k);
    ServesOnlyWhatItHolds(f, at, keys, writes, asking);
    assert OneCopy(f, k);
    forall i | 0 <= i <= |run| && Leaving(At(w, run, i)) ensures f.srcData.Keys <= At(w, run, i).srcData.Keys {
      SourceNeverRegains(w, run, i);
    }
  }

  /** For a command on one key the destination never answers while the source still holds the key. */
  lemma {:induction false} SingleKeyDestination(w: World, run: seq<Step>, k: Key, writes: Writes, asking: bool)
    requires Init(w) && IsRun(w, run)
    requires Enabled(Final(w, run), Command(Destination, [k], writes, asking))
    requires RouteAt(Final(w, run), Destination, [k], asking) == Serve
    ensures k !in Final(w, run).srcData
  {
    ReshardingIsTransparent(w, run, Destination, [k], writes, asking, k);
    RunKeepsInv(w, run) by {
      forall k ensures OneCopy(w, k) {
      }
    }
    var f := Final(w, run);
    assert [k][0].slot == f.slot;
    if asking && f.dst.owner[f.slot] != f.dst.myself {
      assert SomeMissing(f.srcData.Keys, [k]);
    }
  }
}
