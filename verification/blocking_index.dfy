/**
  The two-way index of blocked clients: for every key the queue of clients that
  wait for it, and for every client the keys it waits for, each with the handle of
  the client's node in that key's queue.
 */
module BlockingIndex {

  type Client = nat
  type Key = string

  datatype Node<H> = Node(handle: H, client: Client)

  datatype Index<H> = Index(queues: map<Key, seq<Node<H>>>, waits: map<Client, map<Key, H>>)

  function Queue<H>(ix: Index<H>, key: Key): seq<Node<H>> {
    if key in ix.queues then ix.queues[key] else []
  }

  predicate WaitsFor<H>(ix: Index<H>, c: Client, key: Key) {
    c in ix.waits && key in ix.waits[c]
  }

  /** The node is the one that its client has on record for the key. */
  ghost predicate OnRecord<H>(ix: Index<H>, key: Key, n: Node<H>) {
    WaitsFor(ix, n.client, key) && ix.waits[n.client][key] == n.handle
  }

  ghost predicate QueueOk<H>(ix: Index<H>, key: Key) {
    var q := Queue(ix, key);
    && (forall i :: 0 <= i < |q| ==> OnRecord(ix, key, q[i]))
    && DistinctHandles(q)
  }

  ghost predicate DistinctHandles<H>(q: seq<Node<H>>) {
    forall i, j :: 0 <= i < |q| && 0 <= j < |q| && q[i].handle == q[j].handle ==> i == j
  }

  /** The handle on record is a node of the key's queue, and that node is the client's. */
  ghost predicate Queued<H>(ix: Index<H>, c: Client, key: Key)
    requires WaitsFor(ix, c, key)
  {
    Node(ix.waits[c][key], c) in Queue(ix, key)
  }

  /**
    The two directions agree, every handle is in its queue once, no queue is empty, and blocked clients wait for
    something.
   */
  ghost predicate Agree<H>(ix: Index<H>) {
    && (forall key :: QueueOk(ix, key))
    && (forall c, key {:trigger WaitsFor(ix, c, key)} :: WaitsFor(ix, c, key) ==> Queued(ix, c, key))
    && (forall key :: key in ix.queues ==> ix.queues[key] != [])
    && (forall c :: c in ix.waits ==> ix.waits[c] != map[])
  }

  /** A client is in a key's queue exactly once if it waits for the key, and not at all otherwise. */
  lemma {:induction false} ExactlyOnce<H>(ix: Index<H>, c: Client, key: Key)
    requires Agree(ix)
    ensures WaitsFor(ix, c, key) <==> exists i :: 0 <= i < |Queue(ix, key)| && Queue(ix, key)[i].client == c
    ensures forall i, j :: 0 <= i < j < |Queue(ix, key)| ==> Queue(ix, key)[i].client != Queue(ix, key)[j].client
    ensures WaitsFor(ix, c, key) ==>
              forall i :: 0 <= i < |Queue(ix, key)| && Queue(ix, key)[i].client == c ==> Queue(ix, key)[i].handle == ix.waits[c][key]
  {
    var q := Queue(ix, key);
    assert QueueOk(ix, key);
    if WaitsFor(ix, c, key) {
      var n := Node(ix.waits[c][key], c);
      assert Queued(ix, c, key);
      var i :| 0 <= i < |q| && q[i] == n;
      assert q[i].client == c;
    }
    forall i, j | 0 <= i < j < |q| ensures q[i].client != q[j].client {
      assert OnRecord(ix, key, q[i]) && OnRecord(ix, key, q[j]);
    }
  }

  // ---------------------------------------------------------------- operations

  /** The client joins the end of the key's queue. */
  function Join<H>(ix: Index<H>, c: Client, key: Key, h: H): Index<H> {
    Index(ix.queues[key := Queue(ix, key) + [Node(h, c)]],
          ix.waits[c := (if c in ix.waits then ix.waits[c] else map[])[key := h]])
  }

  lemma {:induction false} JoinKeeps<H>(ix: Index<H>, c: Client, key: Key, h: H)
    requires Agree(ix) && !WaitsFor(ix, c, key)
    requires forall i :: 0 <= i < |Queue(ix, key)| ==> Queue(ix, key)[i].handle != h
    ensures Agree(Join(ix, c, key, h))
  {
    var jx := Join(ix, c, key, h);
    forall k ensures QueueOk(jx, k) {
      assert QueueOk(ix, k);
      var q := Queue(jx, k);
      forall i | 0 <= i < |q| ensures OnRecord(jx, k, q[i]) {
        if k != key || i < |q| - 1 {
          assert q[i] == Queue(ix, k)[i];
          assert OnRecord(ix, k, q[i]);
        }
      }
    }
    forall d, k | WaitsFor(jx, d, k) ensures Queued(jx, d, k) {
      if d == c && k == key {
        assert Queue(jx, key)[|Queue(ix, key)|] == Node(h, c);
      } else {
        assert WaitsFor(ix, d, k);
        assert Queued(ix, d, k);
      }
    }
    assert key in jx.waits[c];
  }

  /** The head of the key's queue becomes its tail. */
  function Rotate<H>(ix: Index<H>, key: Key): Index<H>
    requires Queue(ix, key) != []
  {
    ix.(queues := ix.queues[key := Queue(ix, key)[1..] + [Queue(ix, key)[0]]])
  }

  lemma {:induction false} RotateKeeps<H>(ix: Index<H>, key: Key)
    requires Agree(ix) && Queue(ix, key) != []
    ensures Agree(Rotate(ix, key))
  {
    var jx := Rotate(ix, key);
    var q := Queue(ix, key);
    var r := Queue(jx, key);
    assert forall i :: 0 <= i < |r| ==> r[i] == q[if i < |q| - 1 then i + 1 else 0];
    forall k ensures QueueOk(jx, k) {
      assert QueueOk(ix, k);
      var s := Queue(jx, k);
      forall i | 0 <= i < |s| ensures OnRecord(jx, k, s[i]) {
        assert OnRecord(ix, k, s[i]);
      }
    }
    forall d, k | WaitsFor(jx, d, k) ensures Queued(jx, d, k) {
      assert WaitsFor(ix, d, k);
      assert Queued(ix, d, k);
      if k == key {
        var n := Node(ix.waits[d][k], d);
        var i :| 0 <= i < |q| && q[i] == n;
        assert r[if i > 0 then i - 1 else |q| - 1] == n;
      }
    }
  }

  /** A queue without the node at a position. */
  function Without<T>(q: seq<T>, i: nat): seq<T>
    requires i < |q|
  {
    q[..i] + q[i + 1..]
  }

  /** The queues, with the node at a position of one of them gone, and the queue too if it was the last node. */
  function DropNode<H>(queues: map<Key, seq<Node<H>>>, key: Key, i: nat): map<Key, seq<Node<H>>>
    requires key in queues && i < |queues[key]|
  {
    if |queues[key]| == 1 then queues - {key} else queues[key := Without(queues[key], i)]
  }

  /** Every queue without the nodes of a client, and the client waiting for nothing. */
  ghost predicate Left<H>(ix: Index<H>, c: Client, jx: Index<H>) {
    && jx.waits == ix.waits - {c}
    && (forall key :: key in jx.queues ==> jx.queues[key] != [])
    && (forall key {:trigger Queue(jx, key)} ::
          if WaitsFor(ix, c, key) then LeftQueue(ix, c, key, Queue(jx, key)) else Queue(jx, key) == Queue(ix, key))
  }

  /** The queue of a key once the client has left it. */
  ghost predicate LeftQueue<H>(ix: Index<H>, c: Client, key: Key, q: seq<Node<H>>) {
    exists i :: 0 <= i < |Queue(ix, key)| && Queue(ix, key)[i].client == c && q == Without(Queue(ix, key), i)
  }

  lemma {:induction false} LeaveQueueOk<H>(ix: Index<H>, c: Client, jx: Index<H>, key: Key)
    requires Agree(ix) && Left(ix, c, jx)
    ensures QueueOk(jx, key)
  {
    ExactlyOnce(ix, c, key);
    var q, r := Queue(ix, key), Queue(jx, key);
    assert QueueOk(ix, key) && jx.waits == ix.waits - {c};
    assert if WaitsFor(ix, c, key) then LeftQueue(ix, c, key, r) else r == q;
    hide Agree, Left, DistinctHandles, Without;
    if WaitsFor(ix, c, key) {
      var i :| 0 <= i < |q| && q[i].client == c && r == Without(q, i);
      WithoutAt(q, i);
      WithoutStaysDistinct(q, i);
      forall k | 0 <= k < |r| ensures OnRecord(jx, key, r[k]) {
        assert OnRecord(ix, key, q[if k < i then k else k + 1]);
      }
    } else {
      forall k | 0 <= k < |r| ensures OnRecord(jx, key, r[k]) {
        assert OnRecord(ix, key, r[k]);
        assert r[k].client != c;
      }
    }
  }

  lemma {:induction false} WithoutStaysDistinct<H>(q: seq<Node<H>>, i: nat)
    requires DistinctHandles(q) && i < |q|
    ensures DistinctHandles(Without(q, i))
  {
    WithoutAt(q, i);
    var r := Without(q, i);
    forall k, m | 0 <= k < |r| && 0 <= m < |r| && r[k].handle == r[m].handle ensures k == m {
      assert r[k] == q[if k < i then k else k + 1] && r[m] == q[if m < i then m else m + 1];
    }
  }

  lemma {:induction false} WithoutAt<T>(q: seq<T>, i: nat)
    requires i < |q|
    ensures |Without(q, i)| == |q| - 1
    ensures forall k :: 0 <= k < |q| - 1 ==> Without(q, i)[k] == q[if k < i then k else k + 1]
    ensures forall m :: 0 <= m < |q| && m != i ==> q[m] in Without(q, i)
  {
    forall m | 0 <= m < |q| && m != i ensures q[m] in Without(q, i) {
      assert Without(q, i)[if m < i then m else m - 1] == q[m];
    }
  }

  lemma {:induction false} LeaveQueued<H>(ix: Index<H>, c: Client, jx: Index<H>, d: Client, key: Key)
    requires Agree(ix) && Left(ix, c, jx) && WaitsFor(jx, d, key)
    ensures Queued(jx, d, key)
  {
    var q, r := Queue(ix, key), Queue(jx, key);
    assert WaitsFor(ix, d, key) && Queued(ix, d, key);
    assert if WaitsFor(ix, c, key) then LeftQueue(ix, c, key, r) else r == q;
    hide Agree, Left, Without;
    if WaitsFor(ix, c, key) {
      var i :| 0 <= i < |q| && q[i].client == c && r == Without(q, i);
      WithoutAt(q, i);
    }
  }

  lemma {:induction false} LeaveKeeps<H>(ix: Index<H>, c: Client, jx: Index<H>)
    requires Agree(ix) && Left(ix, c, jx)
    ensures Agree(jx)
  {
    hide Queued, QueueOk, LeftQueue;
    forall key ensures QueueOk(jx, key) {
      LeaveQueueOk(ix, c, jx, key);
    }
    forall d, key | WaitsFor(jx, d, key) ensures Queued(jx, d, key) {
      LeaveQueued(ix, c, jx, d, key);
    }
  }
}
