/**
  Blocking clients on keys, unblocking them, and serving the clients that wait
  for a list when the list gets elements.
 */
module BlockedServers {
  import opened BlockingIndex
  import opened BlockingKeys
  import opened BlockedData

  // ---------------------------------------------------------------- counters and lists of clients

  function OfType(info: map<Client, Waiter>, t: BType): set<Client> {
    set c | c in info && info[c].btype == t
  }

  /** blocked_clients_by_type. */
  datatype Counts = Counts(lists: int, zsets: int, streams: int)

  function Bump(n: Counts, t: BType, d: int): Counts {
    match t
    case ForList => n.(lists := n.lists + d)
    case ForZset => n.(zsets := n.zsets + d)
    case ForStream => n.(streams := n.streams + d)
  }

  /** The counters count the blocked clients, in all and of each type. */
  ghost predicate CountersOk(info: map<Client, Waiter>, blocked: int, byType: Counts) {
    && blocked == |info|
    && byType == Counts(|OfType(info, ForList)|, |OfType(info, ForZset)|, |OfType(info, ForStream)|)
  }

  lemma {:induction false} NobodyCounted()
    ensures CountersOk(map[], 0, Counts(0, 0, 0))
  {
    assert OfType(map[], ForList) == {} && OfType(map[], ForZset) == {} && OfType(map[], ForStream) == {};
  }

  lemma {:induction false} TypeOneMore(info: map<Client, Waiter>, c: Client, w: Waiter, t: BType)
    requires c !in info
    ensures |OfType(info[c := w], t)| == |OfType(info, t)| + if w.btype == t then 1 else 0
  {
    assert OfType(info[c := w], t) == OfType(info, t) + if w.btype == t then {c} else {};
  }

  lemma {:induction false} CountOneMore(info: map<Client, Waiter>, blocked: int, byType: Counts, c: Client, w: Waiter)
    requires CountersOk(info, blocked, byType) && c !in info
    ensures CountersOk(info[c := w], blocked + 1, Bump(byType, w.btype, 1))
  {
    assert info[c := w].Keys == info.Keys + {c};
    TypeOneMore(info, c, w, ForList);
    TypeOneMore(info, c, w, ForZset);
    TypeOneMore(info, c, w, ForStream);
    hide OfType;
  }

  lemma {:induction false} CountOneLess(info: map<Client, Waiter>, blocked: int, byType: Counts, c: Client)
    requires CountersOk(info, blocked, byType) && c in info
    ensures CountersOk(info - {c}, blocked - 1, Bump(byType, info[c].btype, -1))
  {
    var after := info - {c};
    assert after.Keys == info.Keys - {c};
    assert after[c := info[c]] == info;
    TypeOneMore(after, c, info[c], ForList);
    TypeOneMore(after, c, info[c], ForZset);
    TypeOneMore(after, c, info[c], ForStream);
    hide OfType;
  }

  ghost predicate DistinctKeys(s: seq<Key>) {
    forall i, j :: 0 <= i < j < |s| ==> s[i] != s[j]
  }

  /** The keys signalled and not yet served, each once, are the keys of the dictionary of ready keys. */
  ghost predicate ReadyOk(pending: seq<Key>, ready: set<Key>) {
    DistinctKeys(pending) && forall k :: k in ready <==> k in pending
  }

  /** The clients to reprocess, each once, are the flagged ones. */
  ghost predicate QueueOnce(unblocked: seq<Client>, flagged: set<Client>) {
    && (forall i, j :: 0 <= i < j < |unblocked| ==> unblocked[i] != unblocked[j])
    && forall c :: c in flagged <==> c in unblocked
  }

  lemma {:induction false} QueuedOnce(unblocked: seq<Client>, flagged: set<Client>, c: Client)
    requires QueueOnce(unblocked, flagged)
    ensures c !in flagged ==> QueueOnce(unblocked + [c], flagged + {c})
  {
  }

  // ---------------------------------------------------------------- joining several queues

  /** The client has joined the end of the queues of exactly these keys. */
  ghost predicate Joined(ix: Index<Handle>, jx: Index<Handle>, c: Client, done: set<Key>) {
    && (forall k {:trigger Queue(jx, k)} ::
          if k in done then
            |Queue(jx, k)| == |Queue(ix, k)| + 1 && Queue(ix, k) <= Queue(jx, k) && Queue(jx, k)[|Queue(ix, k)|].client == c
          else Queue(jx, k) == Queue(ix, k))
    && (forall k :: WaitsFor(jx, c, k) <==> k in done)
    && (forall d :: d != c ==> (d in jx.waits <==> d in ix.waits) && (d in ix.waits ==> jx.waits[d] == ix.waits[d]))
    && (c in jx.waits <==> done != {})
  }

  lemma {:induction false} JoinedNothing(ix: Index<Handle>, c: Client)
    requires c !in ix.waits
    ensures Joined(ix, ix, c, {})
  {
  }

  lemma {:induction false} JoinedOneMore(ix: Index<Handle>, jx: Index<Handle>, c: Client, done: set<Key>, key: Key,
      h: Handle)
    requires Joined(ix, jx, c, done) && key !in done
    ensures Joined(ix, Join(jx, c, key, h), c, done + {key})
  {
    var kx := Join(jx, c, key, h);
    forall k
      ensures if k in done + {key} then
                |Queue(kx, k)| == |Queue(ix, k)| + 1 && Queue(ix, k) <= Queue(kx, k) && Queue(kx, k)[|Queue(ix, k)|].client == c
              else Queue(kx, k) == Queue(ix, k)
    {
      if k == key {
        assert Queue(kx, key) == Queue(ix, key) + [Node(h, c)];
      } else {
        assert Queue(kx, k) == Queue(jx, k);
      }
    }
    assert WaitsFor(kx, c, key);
    forall k | k != key ensures WaitsFor(kx, c, k) == WaitsFor(jx, c, k) {
    }
  }

  lemma {:induction false} JoinedWaits(ix: Index<Handle>, jx: Index<Handle>, c: Client, done: set<Key>, key: Key)
    requires Joined(ix, jx, c, done)
    ensures WaitsFor(jx, c, key) <==> key in done
  {
  }

  lemma {:induction false} JoinedKeys(ix: Index<Handle>, jx: Index<Handle>, c: Client, done: set<Key>)
    requires Joined(ix, jx, c, done) && done != {}
    ensures jx.waits.Keys == ix.waits.Keys + {c}
  {
  }

  datatype Delivery = Delivery(client: Client, key: Key, value: Value)

  // ---------------------------------------------------------------- who is served

  function Names(q: seq<Node<Handle>>): (cs: seq<Client>)
    ensures |cs| == |q|
  {
    seq(|q|, i requires 0 <= i < |q| => q[i].client)
  }

  /** The clients of a sequence that wait for a list, or those that do not, in their order. */
  function Pick(q: seq<Client>, info: map<Client, Waiter>, forList: bool): (r: seq<Client>)
    ensures forall c :: c in r ==> c in q
    decreases |q|
  {
    if q == [] then []
    else
      var c := q[|q| - 1];
      Pick(q[..|q| - 1], info, forList) + if c in info && (info[c].btype == ForList) == forList then [c] else []
  }

  /** A client waits for the key to become a list. */
  ghost predicate ListWaiter(ix: Index<Handle>, info: map<Client, Waiter>, key: Key) {
    exists i :: 0 <= i < |Queue(ix, key)| && Queue(ix, key)[i].client in info && info[Queue(ix, key)[i].client].btype == ForList
  }

  /** The key is a list with elements, and a client waits for one. */
  ghost predicate Overdue(data: Data, ix: Index<Handle>, info: map<Client, Waiter>, key: Key) {
    HasItems(data, key) && ListWaiter(ix, info, key)
  }

  /** Only keys that are still to be looked at are overdue, apart from one. */
  ghost predicate OverdueIn(data: Data, ix: Index<Handle>, info: map<Client, Waiter>, but: set<Key>,
      pending: seq<Key>) {
    forall k :: Overdue(data, ix, info, k) && k !in but ==> k in pending
  }

  ghost predicate NoEmptyLists(data: Data, but: set<Key>) {
    forall k :: k in data && data[k].ListObj? && k !in but ==> data[k].items != []
  }

  /** When the client at the head of a queue leaves, the queue is the rest of it. */
  lemma {:induction false} HeadLeaves(ix: Index<Handle>, c: Client, jx: Index<Handle>, key: Key)
    requires Agree(ix) && Left(ix, c, jx) && Queue(ix, key) != [] && Queue(ix, key)[0].client == c
    ensures Queue(jx, key) == Queue(ix, key)[1..] && Names(Queue(jx, key)) == Names(Queue(ix, key))[1..]
  {
    var q := Queue(ix, key);
    assert QueueOk(ix, key);
    assert OnRecord(ix, key, q[0]);
    ExactlyOnce(ix, c, key);
    assert LeftQueue(ix, c, key, Queue(jx, key));
    hide Agree, Left, QueueOk, Names;
    var i :| 0 <= i < |q| && q[i].client == c && Queue(jx, key) == Without(q, i);
    NamesTail(q);
  }

  lemma {:induction false} NamesTail(q: seq<Node<Handle>>)
    requires q != []
    ensures Names(q) != [] && Names(q[1..]) == Names(q)[1..]
  {
  }

  /** Clients that leave make no key overdue. */
  lemma {:induction false} LeavingHelps(ix: Index<Handle>, c: Client, jx: Index<Handle>, info: map<Client, Waiter>,
      key: Key)
    requires Left(ix, c, jx) && ListWaiter(jx, info - {c}, key)
    ensures ListWaiter(ix, info, key)
  {
    var q, r := Queue(ix, key), Queue(jx, key);
    var i :| 0 <= i < |r| && r[i].client in info - {c} && info[r[i].client].btype == ForList;
    if WaitsFor(ix, c, key) {
      var m :| 0 <= m < |q| && q[m].client == c && r == Without(q, m);
      assert q[if i < m then i else i + 1] == r[i];
    } else {
      assert q[i] == r[i];
    }
  }

  function ValuesOf(ds: seq<Delivery>): multiset<Value> {
    if ds == [] then multiset{} else ValuesOf(ds[..|ds| - 1]) + multiset{ds[|ds| - 1].value}
  }

  /** Every element there is: in the lists, or delivered to a client. */
  ghost function Total(data: Data, delivered: seq<Delivery>): multiset<Value> {
    AllElements(data) + ValuesOf(delivered)
  }

  function Given(data: Data, key: Key, w: Waiter, c: Client): seq<Delivery>
    requires HasItems(data, key)
  {
    if CanServe(data, w) && w.target.Reply? then [Delivery(c, key, Popped(data[key].items, w.fromHead))] else []
  }

  /** The data after clients were served from a key, one after the other. */
  function ServedAll(data: Data, key: Key, info: map<Client, Waiter>, served: seq<Client>): Data
    decreases |served|
  {
    if served == [] then data
    else
      var d := ServedAll(data, key, info, served[..|served| - 1]);
      var c := served[|served| - 1];
      if c in info && HasItems(d, key) then Served(d, key, info[c]) else d
  }

  /** What those clients were sent, each the element it popped from what the clients before it left. */
  function GivenAll(data: Data, key: Key, info: map<Client, Waiter>, served: seq<Client>): seq<Delivery>
    decreases |served|
  {
    if served == [] then []
    else
      var d := ServedAll(data, key, info, served[..|served| - 1]);
      var c := served[|served| - 1];
      GivenAll(data, key, info, served[..|served| - 1]) + if c in info && HasItems(d, key) then Given(d, key, info[c], c) else []
  }

  lemma {:induction false} ServedOneMore(data: Data, key: Key, info: map<Client, Waiter>, served: seq<Client>,
      c: Client)
    requires c in info && HasItems(ServedAll(data, key, info, served), key)
    ensures var d := ServedAll(data, key, info, served);
            && ServedAll(data, key, info, served + [c]) == Served(d, key, info[c])
            && GivenAll(data, key, info, served + [c]) == GivenAll(data, key, info, served) + Given(d, key, info[c], c)
  {
    assert (served + [c])[..|served|] == served;
  }

  lemma {:induction false} ServeKeepsTotal(data: Data, delivered: seq<Delivery>, key: Key, w: Waiter, c: Client)
    requires HasItems(data, key)
    ensures Total(Served(data, key, w), delivered + Given(data, key, w, c)) == Total(data, delivered)
  {
    ServeConserves(data, key, w);
    var more := Given(data, key, w, c);
    hide AllElements, Served;
    if more == [] {
      assert delivered + more == delivered;
    } else {
      assert (delivered + more)[..|delivered|] == delivered;
    }
  }

  lemma {:induction false} ServedStaysList(data: Data, key: Key, w: Waiter)
    requires HasItems(data, key) && NoEmptyLists(data, {key})
    ensures key in Served(data, key, w) && Served(data, key, w)[key].ListObj?
    ensures NoEmptyLists(Served(data, key, w), {key})
  {
  }

  /** dbDelete of a list that is used up. */
  function WithoutEmpty(data: Data, key: Key): Data {
    if key in data && data[key] == ListObj([]) then data - {key} else data
  }

  lemma {:induction false} ReadyOneMore(pending: seq<Key>, ready: seq<Key>, readySet: set<Key>, key: Key)
    requires ReadyOk(pending + ready, readySet)
    ensures key in readySet ==> key in pending + ready
    ensures key !in readySet ==> ReadyOk(pending + (ready + [key]), readySet + {key})
  {
    assert pending + (ready + [key]) == (pending + ready) + [key];
  }

  class BlockedServer {
    const keys: Keys
    var info: map<Client, Waiter>
    var blockedClients: int
    var byType: Counts
    var unblocked: seq<Client>
    var flagged: set<Client>
    var ready: seq<Key>
    var readySet: set<Key>
    var data: Data
    var delivered: seq<Delivery>

    ghost predicate Valid()
      reads this, keys, keys.repr
    {
      && this !in keys.repr
      && keys.Valid()
      && info.Keys == keys.ix.waits.Keys
      && CountersOk(info, blockedClients, byType)
      && QueueOnce(unblocked, flagged)
    }

    constructor ()
      ensures Valid() && info == map[] && ready == [] && readySet == {} && data == map[] && delivered == []
      ensures fresh(keys) && fresh(keys.repr)
    {
      keys := new Keys();
      info, blockedClients, byType := map[], 0, Counts(0, 0, 0);
      unblocked, flagged, ready, readySet := [], {}, [], {};
      data, delivered := map[], [];
      new;
      NobodyCounted();
    }

    /** blockForKeys: the client joins the queue of every key, once even if the key is given twice. */
    method BlockForKeys(c: Client, w: Waiter, ks: seq<Key>)
      requires Valid() && c !in info && ks != []
      modifies this`info, this`blockedClients, this`byType, keys, keys.repr
      ensures Valid() && fresh(keys.repr - old(keys.repr))
      ensures info == old(info)[c := w] && Joined(old(keys.ix), keys.ix, c, set k | k in ks)
    {
      hide CountersOk, QueueOnce, Joined, Agree, AllHold;
      ghost var done: set<Key> := {};
      JoinedNothing(keys.ix, c);
      for j := 0 to |ks|
        invariant this !in keys.repr && keys.Valid() && fresh(keys.repr - old(keys.repr))
        invariant Joined(old(keys.ix), keys.ix, c, done) && done == set k | k in ks[..j]
        invariant info == old(info) && blockedClients == old(blockedClients) && byType == old(byType)
      {
        assert ks[..j + 1] == ks[..j] + [ks[j]];
        JoinedWaits(old(keys.ix), keys.ix, c, done, ks[j]);
        var here := c in keys.waits && ks[j] in keys.waits[c];
        if !here {
          ghost var before := keys.ix;
          var node := keys.WaitFor(c, ks[j]);
          JoinedOneMore(old(keys.ix), before, c, done, ks[j], node);
          done := done + {ks[j]};
        }
      }
      assert ks[..|ks|] == ks;
      assert ks[0] in done;
      JoinedKeys(old(keys.ix), keys.ix, c, done);
      assert info[c := w].Keys == info.Keys + {c};
      CountOneMore(info, blockedClients, byType, c, w);
      info, blockedClients, byType := info[c := w], blockedClients + 1, Bump(byType, w.btype, 1);
    }

    /** unblockClient: the client leaves the index and the counters, and waits to be reprocessed, once. */
    method UnblockClient(c: Client)
      requires Valid() && c in info
      modifies this`info, this`blockedClients, this`byType, this`unblocked, this`flagged, keys, keys.repr
      ensures Valid() && keys.repr == old(keys.repr)
      ensures info == old(info) - {c} && Left(old(keys.ix), c, keys.ix)
      ensures c in flagged && unblocked == if c in old(flagged) then old(unblocked) else old(unblocked) + [c]
    {
      hide CountersOk, QueueOnce, Agree, AllHold, Left;
      var t := info[c].btype;
      CountOneLess(info, blockedClients, byType, c);
      keys.Leave(c);
      LeftKeys(old(keys.ix), c, keys.ix);
      blockedClients, byType := blockedClients - 1, Bump(byType, t, -1);
      info := info - {c};
      QueuedOnce(unblocked, flagged, c);
      if c !in flagged {
        flagged, unblocked := flagged + {c}, unblocked + [c];
      }
    }

    /** signalKeyAsReady: a key somebody waits for is queued for serving, once. */
    method SignalKeyAsReady(key: Key, ghost pending: seq<Key>)
      requires Valid() && ReadyOk(pending + ready, readySet)
      modifies this`ready, this`readySet
      ensures Valid() && ReadyOk(pending + ready, readySet)
      ensures ready == if key in keys.ix.queues && key !in old(readySet) then old(ready) + [key] else old(ready)
      ensures key in keys.ix.queues ==> key in pending + ready
    {
      hide CountersOk, QueueOnce, Agree, AllHold, ReadyOk;
      SameKeys(keys.lists, keys.ix.queues, keys.repr);
      ReadyOneMore(pending, ready, readySet, key);
      if key !in keys.lists {
        return;
      }
      if key in readySet {
        return;
      }
      ready, readySet := ready + [key], readySet + {key};
    }

    /** serveClientBlockedOnList and its undo: the element goes to the client, to its destination, or back. */
    method HandOver(key: Key, c: Client, w: Waiter, value: Value, ghost before: Data, ghost pending: seq<Key>)
      requires Valid() && ReadyOk(pending + ready, readySet)
      requires HasItems(before, key) && value == Popped(before[key].items, w.fromHead)
      requires data == before[key := ListObj(Rest(before[key].items, w.fromHead))]
      modifies this`data, this`delivered, this`ready, this`readySet
      ensures Valid() && ReadyOk(pending + ready, readySet)
      ensures data == Served(before, key, w)
      ensures delivered == old(delivered) + Given(before, key, w, c)
      ensures old(ready) <= ready
      ensures w.target.To? && w.target.key !in before && w.target.key in keys.ix.queues ==> w.target.key in pending + ready
    {
      hide CountersOk, QueueOnce, Agree, AllHold, ReadyOk;
      UndoPop(before[key].items, w.fromHead);
      if w.target.Reply? {
        delivered := delivered + [Delivery(c, key, value)];
      } else {
        assert delivered + [] == delivered;
        var dst := w.target.key;
        if dst in data && !data[dst].ListObj? {
          data := data[key := ListObj(PushBack(data[key].items, value, w.fromHead))];
          assert data == before;
        } else {
          if dst !in data {
            SignalKeyAsReady(dst, pending);
          }
          data := PushTo(data, dst, value);
        }
      }
    }

    /** One client at the head of a key's queue gets an element, or goes without when its destination is not a list. */
    method ServeFirst(key: Key, c: Client, ghost pending: seq<Key>)
      requires Valid() && ReadyOk(pending + ready, readySet)
      requires c in info && HasItems(data, key)
      requires NoEmptyLists(data, {key}) && OverdueIn(data, keys.ix, info, {key}, pending + ready)
      modifies this, keys, keys.repr
      ensures Valid() && ReadyOk(pending + ready, readySet) && keys.repr == old(keys.repr)
      ensures info == old(info) - {c} && Left(old(keys.ix), c, keys.ix)
      ensures data == Served(old(data), key, old(info)[c])
      ensures delivered == old(delivered) + old(Given(data, key, info[c], c))
      ensures Total(data, delivered) == old(Total(data, delivered))
      ensures NoEmptyLists(data, {key}) && OverdueIn(data, keys.ix, info, {key}, pending + ready)
    {
      hide CountersOk, QueueOnce, Agree, AllHold, Left, OverdueIn, NoEmptyLists, ReadyOk, Total, Served;
      var w := info[c];
      ServeKeepsTotal(data, delivered, key, w, c);
      ServedStaysList(data, key, w);
      var value := Popped(data[key].items, w.fromHead);
      data := data[key := ListObj(Rest(data[key].items, w.fromHead))];
      UnblockClient(c);
      HandOver(key, c, w, value, old(data), pending);
      ServedOverdue(old(data), old(keys.ix), old(info), key, c, keys.ix, pending + old(ready), pending + ready);
    }

    /** Where the loop over a key's queue stands after looking at seen of the clients. */
    ghost predicate Stands(key: Key, q: seq<Client>, before: map<Client, Waiter>, seen: nat, served: seq<Client>)
      reads this, keys
    {
      Progress(q, before, seen, served, Names(Queue(keys.ix, key)), info)
    }

    /** The data and the deliveries are those of serving the clients one after the other. */
    ghost predicate Handed(key: Key, d: Data, sent: seq<Delivery>, before: map<Client, Waiter>, served: seq<Client>)
      reads this
    {
      data == ServedAll(d, key, before, served) && delivered == sent + GivenAll(d, key, before, served)
    }

    /** One turn of the loop: the first client is rotated away or served, or there is nothing to serve. */
    method LookAtFirst(key: Key, ghost pending: seq<Key>, ghost q: seq<Client>, ghost before: map<Client, Waiter>,
        ghost seen: nat, served: seq<Client>,
        ghost d: Data, ghost sent: seq<Delivery>)
      returns (more: bool, served': seq<Client>)
      requires Valid() && ReadyOk(pending + ready, readySet) && OnceEach(q, before)
      requires key in data && data[key].ListObj?
      requires NoEmptyLists(data, {key}) && OverdueIn(data, keys.ix, info, {key}, pending + ready)
      requires Stands(key, q, before, seen, served) && seen < |q| && Handed(key, d, sent, before, served)
      modifies this, keys, keys.repr
      ensures Valid() && ReadyOk(pending + ready, readySet) && keys.repr == old(keys.repr)
      ensures key in data && data[key].ListObj?
      ensures Total(data, delivered) == old(Total(data, delivered))
      ensures NoEmptyLists(data, {key}) && OverdueIn(data, keys.ix, info, {key}, pending + ready)
      ensures more ==> Stands(key, q, before, seen + 1, served')
      ensures !more ==> Stands(key, q, before, seen, served') && data[key].items == []
      ensures Handed(key, d, sent, before, served')
      ensures served <= served' && (served' == served ==> ready == old(ready))
    {
      hide CountersOk, QueueOnce, AllHold, Left, OverdueIn, NoEmptyLists, ReadyOk, Total, Served, Progress, ServedAll,
          GivenAll, Given, Agree;
      ghost var names := Names(Queue(keys.ix, key));
      SomeoneLeft(q, before, seen, served, names, info);
      SameKeys(keys.lists, keys.ix.queues, keys.repr);
      var c := keys.First(key);
      served' := served;
      if info[c].btype != ForList {
        RotatedOverdue(data, keys.ix, info, key, pending + ready);
        RotatedNames(keys.ix, key);
        keys.RotateHeadToTail(key);
        ProgressRotate(q, before, seen, served, names, info);
        return true, served;
      }
      if data[key].items == [] {
        return false, served;
      }
      HeadOf(keys.ix, key);
      ServedStaysList(data, key, info[c]);
      ServedOneMore(d, key, before, served, c);
      ServeFirst(key, c, pending);
      assert delivered == sent + (GivenAll(d, key, before, served) + old(Given(data, key, info[c], c)));
      HeadLeaves(old(keys.ix), c, keys.ix, key);
      ProgressServe(q, before, seen, served, names, old(info));
      return true, served + [c];
    }

    /**
      serveClientsBlockedOnListKey. The clients that wait for a list are served in the order in
      which they wait, the others go to the end of the queue in their order, and in the end the
      list is gone or no client waits for one.
     */
    method ServeListKey(key: Key, ghost pending: seq<Key>) returns (served: seq<Client>, ghost seen: nat)
      requires Valid() && ReadyOk(pending + ready, readySet)
      requires key in data && data[key].ListObj?
      requires NoEmptyLists(data, {key}) && OverdueIn(data, keys.ix, info, {key}, pending + ready)
      modifies this, keys, keys.repr
      ensures Valid() && ReadyOk(pending + ready, readySet) && keys.repr == old(keys.repr)
      ensures Stands(key, Names(old(Queue(keys.ix, key))), old(info), seen, served)
      ensures data == WithoutEmpty(ServedAll(old(data), key, old(info), served), key)
      ensures delivered == old(delivered) + GivenAll(old(data), key, old(info), served)
      ensures key in data ==> seen == |old(Queue(keys.ix, key))|
      ensures Total(data, delivered) == old(Total(data, delivered))
      ensures NoEmptyLists(data, {}) && OverdueIn(data, keys.ix, info, {}, pending + ready)
      ensures served == [] ==> ready == old(ready)
    {
      hide CountersOk, QueueOnce, Agree, AllHold, OverdueIn, NoEmptyLists, ReadyOk, Total, Progress, Queue, Names,
          ServedAll, GivenAll;
      served, seen := ServeQueue(key, pending);
      if data[key].items == [] {
        DeletedOverdue(data, delivered, keys.ix, info, key, pending + ready);
        data := data - {key};
      } else {
        NobodyLeft(data, keys.ix, old(info), info, key, old(Names(Queue(keys.ix, key))), served, pending + ready);
      }
    }

    /** How many clients wait for a key. */
    method Waiting(key: Key) returns (n: nat)
      requires Valid()
      ensures n == |Names(Queue(keys.ix, key))|
    {
      SameKeys(keys.lists, keys.ix.queues, keys.repr);
      hide CountersOk, QueueOnce, Agree, AllHold;
      n := 0;
      if key in keys.lists {
        n := keys.Length(key);
      }
    }

    /** The loop over the queue, at most once for every client that was in it. */
    method ServeQueue(key: Key, ghost pending: seq<Key>) returns (served: seq<Client>, ghost seen: nat)
      requires Valid() && ReadyOk(pending + ready, readySet)
      requires key in data && data[key].ListObj?
      requires NoEmptyLists(data, {key}) && OverdueIn(data, keys.ix, info, {key}, pending + ready)
      modifies this, keys, keys.repr
      ensures Valid() && ReadyOk(pending + ready, readySet) && keys.repr == old(keys.repr)
      ensures key in data && data[key].ListObj?
      ensures Stands(key, Names(old(Queue(keys.ix, key))), old(info), seen, served)
      ensures Handed(key, old(data), old(delivered), old(info), served)
      ensures data[key].items != [] ==> seen == |Names(old(Queue(keys.ix, key)))|
      ensures Total(data, delivered) == old(Total(data, delivered))
      ensures NoEmptyLists(data, {key}) && OverdueIn(data, keys.ix, info, {key}, pending + ready)
      ensures served == [] ==> ready == old(ready)
    {
      hide CountersOk, QueueOnce, Agree, AllHold, OverdueIn, NoEmptyLists, ReadyOk, Total, Progress, OnceEach, Queue,
          Names;
      ghost var q := Names(Queue(keys.ix, key));
      NamesOnce(keys.ix, info, key);
      ProgressStart(q, info);
      served, seen := [], 0;
      assert delivered + [] == delivered;
      assert Handed(key, data, delivered, info, []);
      hide Handed;
      var numclients := Waiting(key);
      var more := true;
      while more && numclients > 0
        invariant Valid() && ReadyOk(pending + ready, readySet) && keys.repr == old(keys.repr)
        invariant key in data && data[key].ListObj?
        invariant Total(data, delivered) == old(Total(data, delivered))
        invariant NoEmptyLists(data, {key}) && OverdueIn(data, keys.ix, info, {key}, pending + ready)
        invariant Stands(key, q, old(info), seen, served) && seen + numclients == |q|
        invariant Handed(key, old(data), old(delivered), old(info), served)
        invariant !more ==> data[key].items == []
        invariant served == [] ==> ready == old(ready)
        decreases more, numclients
      {
        more, served := LookAtFirst(key, pending, q, old(info), seen, served, old(data), old(delivered));
        if more {
          seen, numclients := seen + 1, numclients - 1;
        }
      }
    }

    /** Nothing has elements and a waiting client but what is queued for serving, and no list is empty. */
    ghost predicate Settled(pending: seq<Key>)
      reads this, keys
    {
      && NoEmptyLists(data, {})
      && OverdueIn(data, keys.ix, info, {}, pending)
      && ReadyOk(pending, readySet)
    }

    /** One ready key: its clients are served if it is a list. */
    method ServeReadyKey(key: Key, ghost pending: seq<Key>)
      requires Valid() && Settled([key] + (pending + ready))
      modifies this, keys, keys.repr
      ensures Valid() && Settled(pending + ready) && keys.repr == old(keys.repr)
      ensures Total(data, delivered) == old(Total(data, delivered))
      ensures info.Keys <= old(info).Keys && (info.Keys == old(info).Keys ==> ready == old(ready))
    {
      SettledBut(data, keys.ix, info, key, pending + ready, readySet);
      hide CountersOk, QueueOnce, Agree, AllHold, OverdueIn, NoEmptyLists, ReadyOk, Total, Progress, Queue, Names;
      readySet := readySet - {key};
      if key in data && data[key].ListObj? {
        ghost var q := Names(Queue(keys.ix, key));
        NamesOnce(keys.ix, info, key);
        var served, seen := ServeListKey(key, pending);
        ServedLeft(q, old(info), seen, served, Names(Queue(keys.ix, key)), info);
      } else {
        NotAList(data, keys.ix, info, key, pending + ready);
      }
    }

    /** The ready keys taken over for one round, one after the other. */
    method ServeRound(l: seq<Key>)
      requires Valid() && Settled(l + ready) && ready == []
      modifies this, keys, keys.repr
      ensures Valid() && Settled(ready) && keys.repr == old(keys.repr)
      ensures Total(data, delivered) == old(Total(data, delivered))
      ensures info.Keys <= old(info).Keys && (info.Keys == old(info).Keys ==> ready == [])
    {
      hide Total, Valid, Settled;
      var i := 0;
      assert l[0..] + ready == l + ready;
      while i < |l|
        invariant i <= |l| && Valid() && Settled(l[i..] + ready) && keys.repr == old(keys.repr)
        invariant Total(data, delivered) == old(Total(data, delivered))
        invariant info.Keys <= old(info).Keys && (info.Keys == old(info).Keys ==> ready == [])
      {
        assert l[i..] + ready == [l[i]] + (l[i + 1..] + ready);
        ServeReadyKey(l[i], l[i + 1..]);
        i := i + 1;
      }
      assert l[i..] + ready == ready;
    }

    /**
      handleClientsBlockedOnKeys. The rounds end, although serving a client may push to another
      key and make it ready: every round serves a client, or leaves no key ready. Afterwards no
      client waits for a list that has elements, and every element is still in a list or was
      delivered.
     */
    method HandleClientsBlockedOnKeys()
      requires Valid() && Settled(ready)
      modifies this, keys, keys.repr
      ensures Valid() && ready == [] && readySet == {} && keys.repr == old(keys.repr)
      ensures forall k :: !Overdue(data, keys.ix, info, k)
      ensures Total(data, delivered) == old(Total(data, delivered))
      ensures info.Keys <= old(info).Keys
    {
      hide Total, Overdue, Valid, Settled;
      while ready != []
        invariant Valid() && Settled(ready) && keys.repr == old(keys.repr)
        invariant Total(data, delivered) == old(Total(data, delivered))
        invariant info.Keys <= old(info).Keys
        decreases info.Keys, |ready|
      {
        var l := TakeReady();
        ghost var before := info;
        ServeRound(l);
      }
      AllSettled();
    }

    /** The ready keys, leaving none. */
    method TakeReady() returns (l: seq<Key>)
      requires Valid() && Settled(ready)
      modifies this`ready
      ensures Valid() && Settled(l + ready) && ready == [] && l == old(ready)
    {
      hide CountersOk, QueueOnce, Agree, AllHold, OverdueIn, NoEmptyLists, ReadyOk;
      l := ready;
      assert l + [] == l;
      ready := [];
    }

    lemma {:induction false} AllSettled()
      requires Settled([])
      ensures readySet == {} && forall k :: !Overdue(data, keys.ix, info, k)
    {
      hide Overdue;
    }

    /** A client blocks on keys, none of which has elements when it waits for a list. */
    method Block(c: Client, w: Waiter, ks: seq<Key>)
      requires Valid() && Settled(ready) && c !in info && ks != []
      requires w.btype == ForList ==> forall k :: k in ks ==> !HasItems(data, k)
      modifies this`info, this`blockedClients, this`byType, keys, keys.repr
      ensures Valid() && Settled(ready) && fresh(keys.repr - old(keys.repr))
      ensures info == old(info)[c := w] && Joined(old(keys.ix), keys.ix, c, set k | k in ks)
    {
      hide Joined, CountersOk, QueueOnce, Agree, AllHold, OverdueIn, NoEmptyLists, ReadyOk, Queue;
      NotQueued(keys.ix, c);
      BlockForKeys(c, w, ks);
      ghost var at := set k | k in ks;
      BlockedOverdue(data, old(keys.ix), old(info), c, w, keys.ix, at, ready);
    }

    /** A blocked client gives up: its time is over, or its connection is closed. */
    method GiveUp(c: Client)
      requires Valid() && Settled(ready) && c in info
      modifies this`info, this`blockedClients, this`byType, this`unblocked, this`flagged, keys, keys.repr
      ensures Valid() && Settled(ready) && keys.repr == old(keys.repr)
      ensures info == old(info) - {c} && Left(old(keys.ix), c, keys.ix)
    {
      hide Left, CountersOk, QueueOnce, Agree, AllHold, OverdueIn, NoEmptyLists, ReadyOk;
      UnblockClient(c);
      LeftOverdue(data, old(keys.ix), old(info), c, keys.ix, ready);
    }

    /** A push to a list, which is created and signalled if the key is not there. */
    method Push(key: Key, v: Value, atHead: bool)
      requires Valid() && Settled(ready) && (key in data ==> data[key].ListObj?)
      modifies this`data, this`ready, this`readySet
      ensures Valid() && Settled(ready)
      ensures data == old(data)[key := ListObj(PushBack(ItemsAt(old(data), key), v, atHead))]
    {
      hide CountersOk, QueueOnce, Agree, AllHold, OverdueIn, NoEmptyLists, ReadyOk;
      if key !in data {
        assert [] + ready == ready;
        SignalKeyAsReady(key, []);
        assert [] + ready == ready;
      }
      PushedOverdue(data, keys.ix, info, key, PushBack(ItemsAt(data, key), v, atHead), old(ready), ready);
      data := data[key := ListObj(PushBack(ItemsAt(data, key), v, atHead))];
    }
  }

  lemma {:induction false} NotQueued(ix: Index<Handle>, c: Client)
    requires Agree(ix) && c !in ix.waits
    ensures forall k, i :: 0 <= i < |Queue(ix, k)| ==> Queue(ix, k)[i].client != c
  {
    forall k, i | 0 <= i < |Queue(ix, k)| ensures Queue(ix, k)[i].client != c {
      assert QueueOk(ix, k);
      assert OnRecord(ix, k, Queue(ix, k)[i]);
    }
  }

  lemma {:induction false} BlockedOverdue(data: Data, ix: Index<Handle>, info: map<Client, Waiter>, c: Client,
      w: Waiter, jx: Index<Handle>, ks: set<Key>, pending: seq<Key>)
    requires OverdueIn(data, ix, info, {}, pending) && Joined(ix, jx, c, ks) && c !in info
    requires forall k, i :: 0 <= i < |Queue(ix, k)| ==> Queue(ix, k)[i].client != c
    requires w.btype == ForList ==> forall k :: k in ks ==> !HasItems(data, k)
    ensures OverdueIn(data, jx, info[c := w], {}, pending)
  {
    forall k | Overdue(data, jx, info[c := w], k) ensures k in pending {
      var q, r := Queue(ix, k), Queue(jx, k);
      var i :| 0 <= i < |r| && r[i].client in info[c := w] && info[c := w][r[i].client].btype == ForList;
      if i < |q| {
        assert q[i] == r[i];
        assert Overdue(data, ix, info, k);
      }
    }
  }

  lemma {:induction false} LeftOverdue(data: Data, ix: Index<Handle>, info: map<Client, Waiter>, c: Client,
      jx: Index<Handle>, pending: seq<Key>)
    requires OverdueIn(data, ix, info, {}, pending) && Left(ix, c, jx)
    ensures OverdueIn(data, jx, info - {c}, {}, pending)
  {
    forall k | Overdue(data, jx, info - {c}, k) ensures k in pending {
      LeavingHelps(ix, c, jx, info, k);
      assert Overdue(data, ix, info, k);
    }
  }

  lemma {:induction false} PushedOverdue(data: Data, ix: Index<Handle>, info: map<Client, Waiter>, key: Key,
      items: seq<Value>, before: seq<Key>, after: seq<Key>)
    requires NoEmptyLists(data, {}) && OverdueIn(data, ix, info, {}, before) && items != []
    requires forall k :: k in before ==> k in after
    requires key in data ==> data[key].ListObj?
    requires key !in data && key in ix.queues ==> key in after
    ensures NoEmptyLists(data[key := ListObj(items)], {}) && OverdueIn(data[key := ListObj(items)], ix, info, {}, after)
  {
    var d := data[key := ListObj(items)];
    forall k | Overdue(d, ix, info, k) ensures k in after {
      if k != key || key in data {
        assert Overdue(data, ix, info, k);
      }
    }
  }

  lemma {:induction false} SettledBut(data: Data, ix: Index<Handle>, info: map<Client, Waiter>, key: Key,
      pending: seq<Key>, ready: set<Key>)
    requires NoEmptyLists(data, {}) && OverdueIn(data, ix, info, {}, [key] + pending) && ReadyOk([key] + pending, ready)
    ensures NoEmptyLists(data, {key}) && OverdueIn(data, ix, info, {key}, pending) && ReadyOk(pending, ready - {key})
  {
    hide Overdue;
    StillReady(key, pending, ready);
  }

  lemma {:induction false} StillReady(key: Key, pending: seq<Key>, ready: set<Key>)
    requires ReadyOk([key] + pending, ready)
    ensures ReadyOk(pending, ready - {key})
  {
    var s := [key] + pending;
    assert forall i :: 0 <= i < |pending| ==> pending[i] == s[i + 1];
    forall i | 0 <= i < |pending| ensures pending[i] != key {
      assert s[0] != s[i + 1];
    }
    forall k ensures k in ready - {key} <==> k in pending {
      assert k in ready <==> k in s;
    }
  }

  lemma {:induction false} NotAList(data: Data, ix: Index<Handle>, info: map<Client, Waiter>, key: Key,
      pending: seq<Key>)
    requires NoEmptyLists(data, {key}) && OverdueIn(data, ix, info, {key}, pending)
    requires !(key in data && data[key].ListObj?)
    ensures NoEmptyLists(data, {}) && OverdueIn(data, ix, info, {}, pending)
  {
    hide ListWaiter;
  }

  /** Whoever was served is no longer blocked. */
  lemma {:induction false} ServedLeft(q: seq<Client>, before: map<Client, Waiter>, seen: nat, served: seq<Client>,
      names: seq<Client>, info: map<Client, Waiter>)
    requires Progress(q, before, seen, served, names, info) && OnceEach(q, before)
    ensures info.Keys <= before.Keys && (info.Keys == before.Keys ==> served == [])
  {
    if served != [] {
      PickedFor(q[..seen], before, true, 0);
      assert served[0] in before && served[0] !in info;
    }
  }

  lemma {:induction false} NamesOnce(ix: Index<Handle>, info: map<Client, Waiter>, key: Key)
    requires Agree(ix) && info.Keys == ix.waits.Keys
    ensures OnceEach(Names(Queue(ix, key)), info)
  {
    ExactlyOnce(ix, 0, key);
    var q := Queue(ix, key);
    assert QueueOk(ix, key);
    forall i | 0 <= i < |q| ensures q[i].client in info {
      assert OnRecord(ix, key, q[i]);
    }
  }

  lemma {:induction false} ProgressStart(q: seq<Client>, info: map<Client, Waiter>)
    ensures Progress(q, info, 0, [], q, info)
  {
    assert q[0..] == q && q[..0] == [] && q + [] == q;
    assert info - (set c | c in []) == info;
  }

  /** A list that is used up is deleted, and is not overdue. */
  lemma {:induction false} DeletedOverdue(data: Data, delivered: seq<Delivery>, ix: Index<Handle>, info: map<Client,
      Waiter>, key: Key, pending: seq<Key>)
    requires key in data && data[key] == ListObj([]) && NoEmptyLists(data, {key})
    requires OverdueIn(data, ix, info, {key}, pending)
    ensures NoEmptyLists(data - {key}, {}) && OverdueIn(data - {key}, ix, info, {}, pending)
    ensures Total(data - {key}, delivered) == Total(data, delivered)
  {
    DeleteEmpty(data, key);
    hide ListWaiter, AllElements;
    forall k | Overdue(data - {key}, ix, info, k) ensures k in pending {
      assert Overdue(data, ix, info, k);
    }
  }

  lemma {:induction false} PickedFor(q: seq<Client>, info: map<Client, Waiter>, forList: bool, i: nat)
    requires i < |Pick(q, info, forList)|
    ensures Pick(q, info, forList)[i] in info && (info[Pick(q, info, forList)[i]].btype == ForList) == forList
    decreases |q|
  {
    var r := Pick(q[..|q| - 1], info, forList);
    if i < |r| {
      PickedFor(q[..|q| - 1], info, forList, i);
    }
  }

  /** Once the whole queue has been looked at, nobody in it waits for a list. */
  lemma {:induction false} NobodyLeft(data: Data, ix: Index<Handle>, before: map<Client, Waiter>, info: map<Client,
      Waiter>, key: Key,
      q: seq<Client>, served: seq<Client>, pending: seq<Key>)
    requires Progress(q, before, |q|, served, Names(Queue(ix, key)), info)
    requires HasItems(data, key) && NoEmptyLists(data, {key}) && OverdueIn(data, ix, info, {key}, pending)
    ensures NoEmptyLists(data, {}) && OverdueIn(data, ix, info, {}, pending)
  {
    var r := Queue(ix, key);
    assert q[..|q|] == q && q[|q|..] == [];
    assert Names(r) == Pick(q, before, false);
    forall i | 0 <= i < |r| && r[i].client in info ensures info[r[i].client].btype != ForList {
      PickedFor(q, before, false, i);
      assert Names(r)[i] == r[i].client;
    }
    assert !ListWaiter(ix, info, key);
  }

  ghost predicate OnceEach(q: seq<Client>, info: map<Client, Waiter>) {
    && (forall i, j :: 0 <= i < j < |q| ==> q[i] != q[j])
    && forall i :: 0 <= i < |q| ==> q[i] in info
  }

  /** The queue is what has not been looked at, then those who do not wait for a list; the others have been served. */
  ghost predicate Progress(q: seq<Client>, before: map<Client, Waiter>, seen: nat, served: seq<Client>,
      names: seq<Client>, info: map<Client, Waiter>) {
    && seen <= |q|
    && names == q[seen..] + Pick(q[..seen], before, false)
    && served == Pick(q[..seen], before, true)
    && info == before - set c | c in served
  }

  lemma {:induction false} SomeoneLeft(q: seq<Client>, before: map<Client, Waiter>, seen: nat, served: seq<Client>,
      names: seq<Client>, info: map<Client, Waiter>)
    requires Progress(q, before, seen, served, names, info) && seen < |q| && OnceEach(q, before)
    ensures names != [] && names[0] == q[seen] && q[seen] in info && info[q[seen]] == before[q[seen]]
  {
    assert q[seen..][0] == q[seen];
    assert q[seen] !in q[..seen];
  }

  lemma {:induction false} ProgressRotate(q: seq<Client>, before: map<Client, Waiter>, seen: nat, served: seq<Client>,
      names: seq<Client>, info: map<Client, Waiter>)
    requires Progress(q, before, seen, served, names, info) && seen < |q| && OnceEach(q, before)
    requires before[q[seen]].btype != ForList
    ensures names != [] && Progress(q, before, seen + 1, served, names[1..] + [names[0]], info)
  {
    var c := q[seen];
    assert q[..seen + 1][..seen] == q[..seen];
    assert q[seen..] == [c] + q[seen + 1..];
    assert Pick(q[..seen + 1], before, false) == Pick(q[..seen], before, false) + [c];
    assert Pick(q[..seen + 1], before, true) == Pick(q[..seen], before, true) + [];
    assert names[1..] + [names[0]] == q[seen + 1..] + (Pick(q[..seen], before, false) + [c]);
  }

  lemma {:induction false} ProgressServe(q: seq<Client>, before: map<Client, Waiter>, seen: nat, served: seq<Client>,
      names: seq<Client>, info: map<Client, Waiter>)
    requires Progress(q, before, seen, served, names, info) && seen < |q| && OnceEach(q, before)
    requires before[q[seen]].btype == ForList
    ensures names != [] && Progress(q, before, seen + 1, served + [q[seen]], names[1..], info - {q[seen]})
  {
    var c := q[seen];
    assert q[..seen + 1][..seen] == q[..seen];
    assert q[seen..] == [c] + q[seen + 1..];
    assert Pick(q[..seen + 1], before, false) == Pick(q[..seen], before, false) + [];
    assert Pick(q[..seen + 1], before, true) == Pick(q[..seen], before, true) + [c];
    assert names[1..] == q[seen + 1..] + Pick(q[..seen], before, false);
    assert info - {c} == before - set d | d in served + [c];
  }

  lemma {:induction false} HeadOf(ix: Index<Handle>, key: Key)
    requires key in ix.queues && Queue(ix, key) != []
    ensures Names(Queue(ix, key))[0] == Queue(ix, key)[0].client
  {
  }

  lemma {:induction false} RotatedNames(ix: Index<Handle>, key: Key)
    requires Queue(ix, key) != []
    ensures var names := Names(Queue(ix, key)); Names(Queue(Rotate(ix, key), key)) == names[1..] + [names[0]]
  {
  }

  /** Rotating a queue changes nothing about which other keys are overdue. */
  lemma {:induction false} RotatedOverdue(data: Data, ix: Index<Handle>, info: map<Client, Waiter>, key: Key,
      pending: seq<Key>)
    requires OverdueIn(data, ix, info, {key}, pending) && Queue(ix, key) != []
    ensures OverdueIn(data, Rotate(ix, key), info, {key}, pending)
  {
    var jx := Rotate(ix, key);
    forall k | Overdue(data, jx, info, k) && k != key ensures k in pending {
      assert Queue(jx, k) == Queue(ix, k);
      assert Overdue(data, ix, info, k);
    }
  }

  /** After serving a client from a key, any other key that is overdue is still to be looked at. */
  lemma {:induction false} ServedOverdue(data: Data, ix: Index<Handle>, info: map<Client, Waiter>, key: Key, c: Client,
      jx: Index<Handle>,
      before: seq<Key>, after: seq<Key>)
    requires HasItems(data, key) && c in info && Left(ix, c, jx) && NoEmptyLists(data, {key})
    requires OverdueIn(data, ix, info, {key}, before)
    requires forall k :: k in before ==> k in after
    requires var w := info[c]; w.target.To? && w.target.key !in data && w.target.key in jx.queues ==> w.target.key in after
    ensures OverdueIn(Served(data, key, info[c]), jx, info - {c}, {key}, after)
  {
    var d, w := Served(data, key, info[c]), info[c];
    forall k | Overdue(d, jx, info - {c}, k) && k != key ensures k in after {
      LeavingHelps(ix, c, jx, info, k);
      if HasItems(data, k) {
        assert Overdue(data, ix, info, k);
      } else {
        assert w.target == To(k) && k !in data;
      }
    }
  }

  lemma {:induction false} LeftKeys(ix: Index<Handle>, c: Client, jx: Index<Handle>)
    requires Left(ix, c, jx)
    ensures jx.waits.Keys == ix.waits.Keys - {c}
  {
  }
}
