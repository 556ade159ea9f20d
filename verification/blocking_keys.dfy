/**
  The index of blocked clients as the server keeps it: a linked list of clients
  per key, and per client the list nodes that stand for it, so that it can leave
  every list without a search.
 */
module BlockingKeys {
  import opened Adlists
  import opened BlockingIndex

  type Handle = ListNode<Client>
  type Lists = map<Key, List<Client>>
  type Queues = map<Key, seq<Node<Handle>>>

  /** A list holds a queue: node by node the same handles and the same clients. */
  ghost predicate Holds(l: List<Client>, q: seq<Node<Handle>>)
    reads l, l.repr
  {
    && l.Valid()
    && |l.nodes| == |q|
    && forall i :: 0 <= i < |q| ==> q[i] == Node(l.nodes[i], l.nodes[i].value)
  }

  ghost predicate Within(l: List<Client>, repr: set<object>)
    reads repr
  {
    l in repr && l in l.repr && l.repr <= repr
  }

  /** Every key's list holds the key's queue, and the lists share nothing. */
  ghost predicate AllHold(lists: Lists, queues: Queues, repr: set<object>)
    reads repr
  {
    && lists.Keys == queues.Keys
    && (forall key :: key in lists ==> Within(lists[key], repr))
    && (forall j, k :: j in lists && k in lists && j != k ==> lists[j].repr !! lists[k].repr)
    && (forall key :: key in lists ==> Holds(lists[key], queues[key]))
  }

  method RotateList(l: List<Client>, ghost q: seq<Node<Handle>>)
    requires Holds(l, q) && q != []
    modifies l.repr
    ensures Holds(l, q[1..] + [q[0]]) && l.repr == old(l.repr)
  {
    l.RotateHeadToTail();
  }

  method RotateOne(lists: Lists, key: Key, ghost queues: Queues, ghost repr: set<object>)
    requires AllHold(lists, queues, repr) && key in lists && queues[key] != []
    modifies repr
    ensures AllHold(lists, queues[key := queues[key][1..] + [queues[key][0]]], repr)
  {
    hide Holds;
    RotateList(lists[key], queues[key]);
  }

  method AddToList(l: List<Client>, c: Client, ghost q: seq<Node<Handle>>) returns (node: Handle)
    requires Holds(l, q)
    modifies l.repr
    ensures Holds(l, q + [Node(node, c)]) && fresh(node) && l.repr == old(l.repr) + {node}
    ensures forall i :: 0 <= i < |q| ==> q[i].handle != node
  {
    node := l.AddNodeTail(c);
  }

  method NewList() returns (l: List<Client>)
    ensures Holds(l, []) && fresh(l) && fresh(l.repr) && l in l.repr
  {
    l := new List<Client>();
  }

  /** The client joins the list of the key, which is created if it is not there. */
  method AddOne(lists: Lists, key: Key, c: Client, ghost queues: Queues, ghost repr: set<object>)
    returns (lists': Lists, node: Handle, ghost repr': set<object>)
    requires AllHold(lists, queues, repr)
    modifies repr
    ensures var q := if key in queues then queues[key] else [];
            && AllHold(lists', queues[key := q + [Node(node, c)]], repr')
            && (forall i :: 0 <= i < |q| ==> q[i].handle != node)
    ensures fresh(repr' - repr) && repr <= repr'
  {
    hide Holds, AllHold;
    SameKeys(lists, queues, repr);
    if key in lists {
      lists' := lists;
      node, repr' := AddToOld(lists, key, c, queues, repr);
    } else {
      lists', node, repr' := AddToNew(lists, key, c, queues, repr);
    }
  }

  method AddToOld(lists: Lists, key: Key, c: Client, ghost queues: Queues, ghost repr: set<object>)
    returns (node: Handle, ghost repr': set<object>)
    requires AllHold(lists, queues, repr) && key in lists
    modifies repr
    ensures AllHold(lists, queues[key := queues[key] + [Node(node, c)]], repr')
    ensures forall i :: 0 <= i < |queues[key]| ==> queues[key][i].handle != node
    ensures fresh(repr' - repr) && repr <= repr'
  {
    hide Holds;
    node := AddToList(lists[key], c, queues[key]);
    repr' := repr + {node};
  }

  method AddToNew(lists: Lists, key: Key, c: Client, ghost queues: Queues, ghost repr: set<object>)
    returns (lists': Lists, node: Handle, ghost repr': set<object>)
    requires AllHold(lists, queues, repr) && key !in lists
    ensures AllHold(lists', queues[key := [] + [Node(node, c)]], repr') && fresh(repr' - repr) && repr <= repr'
  {
    hide Holds;
    var l := NewList();
    node := AddToList(l, c, []);
    lists', repr' := lists[key := l], repr + l.repr;
  }

  method DelFromList(l: List<Client>, node: Handle, ghost q: seq<Node<Handle>>, ghost i: nat)
    requires Holds(l, q) && i < |q| && q[i].handle == node
    modifies l.repr
    ensures Holds(l, Without(q, i)) && l.repr == old(l.repr)
  {
    l.DelNode(node, i);
  }

  method DelNodeOf(lists: Lists, key: Key, node: Handle, ghost queues: Queues, ghost repr: set<object>,
      ghost i: nat) returns (len: nat)
    requires AllHold(lists, queues, repr) && key in lists && i < |queues[key]| && queues[key][i].handle == node
    modifies repr
    ensures AllHold(lists, queues[key := Without(queues[key], i)], repr) && len == |queues[key]| - 1
  {
    hide Holds;
    DelFromList(lists[key], node, queues[key], i);
    HoldsLength(lists[key], Without(queues[key], i));
    len := lists[key].len;
  }

  lemma {:induction false} ForgetList(lists: Lists, queues: Queues, repr: set<object>, key: Key)
    requires AllHold(lists, queues, repr)
    ensures AllHold(lists - {key}, queues - {key}, repr)
  {
    hide Holds, Within;
  }

  /** A node leaves the list of its key; an empty list goes too. */
  method DelOne(lists: Lists, key: Key, node: Handle, ghost queues: Queues, ghost repr: set<object>,
      ghost i: nat) returns (lists': Lists)
    requires AllHold(lists, queues, repr) && key in lists && i < |queues[key]| && queues[key][i].handle == node
    modifies repr
    ensures AllHold(lists', DropNode(queues, key, i), repr)
  {
    assert key in queues;
    hide AllHold;
    var len := DelNodeOf(lists, key, node, queues, repr, i);
    lists' := lists;
    if len == 0 {
      ForgetList(lists, queues[key := Without(queues[key], i)], repr, key);
      assert queues[key := Without(queues[key], i)] - {key} == queues - {key};
      lists' := lists - {key};
    }
  }

  lemma {:induction false} HoldsLength(l: List<Client>, q: seq<Node<Handle>>)
    requires Holds(l, q)
    ensures l.len == |q|
  {
  }

  ghost function QueueIn(queues: Queues, key: Key): seq<Node<Handle>> {
    if key in queues then queues[key] else []
  }

  /** The client has left the queues of its keys, except those still to do. */
  ghost predicate LeftSoFar(ix: Index<Handle>, c: Client, queues: Queues, todo: set<Key>) {
    && (forall key :: key in queues ==> queues[key] != [])
    && (forall key {:trigger QueueIn(queues, key)} ::
          if WaitsFor(ix, c, key) && key !in todo then LeftQueue(ix, c, key, QueueIn(queues, key))
          else QueueIn(queues, key) == Queue(ix, key))
  }

  lemma {:induction false} DroppedQueue(queues: Queues, key: Key, i: nat)
    requires key in queues && i < |queues[key]| && forall k :: k in queues ==> queues[k] != []
    ensures var qs := DropNode(queues, key, i);
            && QueueIn(qs, key) == Without(queues[key], i) && (forall k :: k in qs ==> qs[k] != [])
            && forall k {:trigger QueueIn(qs, k)} {:trigger QueueIn(queues, k)} :: k != key ==> QueueIn(qs, k) == QueueIn(queues, k)
  {
    WithoutAt(queues[key], i);
  }

  lemma {:induction false} LeaveOneMore(ix: Index<Handle>, c: Client, queues: Queues, todo: set<Key>,
      key: Key) returns (i: nat)
    requires Agree(ix) && LeftSoFar(ix, c, queues, todo) && key in todo && WaitsFor(ix, c, key)
    ensures key in queues && i < |queues[key]| && queues[key][i].handle == ix.waits[c][key]
    ensures LeftSoFar(ix, c, DropNode(queues, key, i), todo - {key})
  {
    assert QueueIn(queues, key) == Queue(ix, key);
    assert Queued(ix, c, key);
    i :| 0 <= i < |Queue(ix, key)| && Queue(ix, key)[i] == Node(ix.waits[c][key], c);
    hide Agree;
    var qs := DropNode(queues, key, i);
    DroppedQueue(queues, key, i);
    assert LeftQueue(ix, c, key, QueueIn(qs, key));
    hide DropNode, Without, Queue;
    hide LeftQueue;
  }

  lemma {:induction false} LeftAll(ix: Index<Handle>, c: Client, queues: Queues)
    requires LeftSoFar(ix, c, queues, {})
    ensures Left(ix, c, Index(queues, ix.waits - {c}))
  {
    var jx := Index(queues, ix.waits - {c});
    forall key
      ensures if WaitsFor(ix, c, key) then LeftQueue(ix, c, key, Queue(jx, key)) else Queue(jx, key) == Queue(ix, key)
    {
      assert QueueIn(queues, key) == Queue(jx, key);
    }
  }

  lemma {:induction false} RotateQueues(ix: Index<Handle>, key: Key)
    requires Agree(ix) && key in ix.queues
    ensures Queue(ix, key) == ix.queues[key] != []
    ensures Agree(Rotate(ix, key))
    ensures Rotate(ix, key) == ix.(queues := ix.queues[key := ix.queues[key][1..] + [ix.queues[key][0]]])
  {
    RotateKeeps(ix, key);
    hide Agree;
  }

  class Keys {
    var lists: Lists
    var waits: map<Client, map<Key, Handle>>
    ghost var ix: Index<Handle>
    ghost var repr: set<object>

    ghost predicate Valid()
      reads this, repr
    {
      this !in repr && AllHold(lists, ix.queues, repr) && waits == ix.waits && Agree(ix)
    }

    constructor ()
      ensures Valid() && ix == Index(map[], map[]) && repr == {}
    {
      lists, waits, ix, repr := map[], map[], Index(map[], map[]), {};
    }

    /** The client at the head of a key's list, if any client waits for the key. */
    method First(key: Key) returns (c: Client)
      requires Valid() && key in lists
      ensures Queue(ix, key) != [] && c == Queue(ix, key)[0].client
    {
      assert lists[key].Valid() && Holds(lists[key], ix.queues[key]);
      c := lists[key].head.value;
    }

    method Length(key: Key) returns (n: nat)
      requires Valid() && key in lists
      ensures n == |Queue(ix, key)|
    {
      HoldsLength(lists[key], ix.queues[key]);
      n := lists[key].len;
    }

    /** listRotateHeadToTail: every handle stays where its client has it on record. */
    method RotateHeadToTail(key: Key)
      requires Valid() && key in lists
      modifies this, repr
      ensures Valid() && ix == Rotate(old(ix), key) && repr == old(repr)
    {
      hide Agree, AllHold, Rotate;
      SameKeys(lists, ix.queues, repr);
      RotateQueues(ix, key);
      RotateOne(lists, key, ix.queues, repr);
      ix := Rotate(ix, key);
    }

    /** The client joins the list of a key and keeps its node on record. */
    method WaitFor(c: Client, key: Key) returns (node: Handle)
      requires Valid() && !WaitsFor(ix, c, key)
      modifies this, repr
      ensures Valid() && ix == Join(old(ix), c, key, node)
      ensures fresh(repr - old(repr))
    {
      hide Agree, AllHold;
      ghost var grown;
      lists, node, grown := AddOne(lists, key, c, ix.queues, repr);
      JoinKeeps(ix, c, key, node);
      var keys: map<Key, Handle> := if c in waits then waits[c] else map[];
      waits := waits[c := keys[key := node]];
      ix, repr := Join(ix, c, key, node), grown;
    }

    /** unblockClientWaitingData: the client leaves every list it is in, each by its node. */
    method Leave(c: Client)
      requires Valid() && c in waits
      modifies this, repr
      ensures Valid() && Left(old(ix), c, ix) && repr == old(repr)
    {
      hide Agree, AllHold, LeftSoFar;
      var todo := waits[c].Keys;
      ghost var qs := ix.queues;
      assert LeftSoFar(ix, c, qs, todo) by {
        NoneLeft(ix, c);
      }
      while todo != {}
        invariant this !in repr && repr == old(repr) && ix == old(ix) && waits == old(waits)
        invariant AllHold(lists, qs, repr) && LeftSoFar(ix, c, qs, todo) && todo <= waits[c].Keys
        decreases todo
      {
        var key :| key in todo;
        ghost var i := LeaveOneMore(ix, c, qs, todo, key);
        assert key in lists by {
          SameKeys(lists, qs, repr);
        }
        lists := DelOne(lists, key, waits[c][key], qs, repr, i);
        qs := DropNode(qs, key, i);
        todo := todo - {key};
      }
      LeftAll(ix, c, qs);
      LeaveKeeps(ix, c, Index(qs, ix.waits - {c}));
      waits := waits - {c};
      ix := Index(qs, ix.waits - {c});
    }
  }

  lemma {:induction false} NoneLeft(ix: Index<Handle>, c: Client)
    requires Agree(ix) && c in ix.waits
    ensures LeftSoFar(ix, c, ix.queues, ix.waits[c].Keys)
  {
  }

  lemma {:induction false} SameKeys(lists: Lists, queues: Queues, repr: set<object>)
    requires AllHold(lists, queues, repr)
    ensures lists.Keys == queues.Keys
  {
  }
}
