/** The doubly linked list of adlist.c. */
module Adlists {

  class ListNode<T> {
    var prev: ListNode?<T>
    var next: ListNode?<T>
    const value: T

    constructor (value: T)
      ensures this.value == value && prev == null && next == null
    {
      this.value := value;
      prev, next := null, null;
    }
  }

  ghost function At<T>(nodes: seq<ListNode<T>>, i: int): ListNode?<T> {
    if 0 <= i < |nodes| then nodes[i] else null
  }

  /** The node at a position has the previous and the next of the sequence as its neighbours. */
  ghost predicate Between<T>(nodes: seq<ListNode<T>>, i: nat)
    requires i < |nodes|
    reads nodes[i]
  {
    nodes[i].prev == At(nodes, i - 1) && nodes[i].next == At(nodes, i + 1)
  }

  ghost predicate Distinct<T>(nodes: seq<ListNode<T>>) {
    forall i, j :: 0 <= i < |nodes| && 0 <= j < |nodes| && nodes[i] == nodes[j] ==> i == j
  }

  lemma {:induction false} DistinctConcat<T>(a: seq<ListNode<T>>, b: seq<ListNode<T>>)
    requires Distinct(a) && Distinct(b) && forall i, j :: 0 <= i < |a| && 0 <= j < |b| ==> a[i] != b[j]
    ensures Distinct(a + b)
  {
  }

  lemma {:induction false} BetweenLeft<T>(a: seq<ListNode<T>>, b: seq<ListNode<T>>, k: nat)
    requires k < |a| && a[k].prev == At(a, k - 1)
    requires a[k].next == if k == |a| - 1 then At(b, 0) else At(a, k + 1)
    ensures (a + b)[k] == a[k] && Between(a + b, k)
  {
  }

  lemma {:induction false} BetweenRight<T>(a: seq<ListNode<T>>, b: seq<ListNode<T>>, k: nat)
    requires k < |b| && b[k].next == At(b, k + 1)
    requires b[k].prev == if k == 0 then At(a, |a| - 1) else At(b, k - 1)
    ensures (a + b)[|a| + k] == b[k] && Between(a + b, |a| + k)
  {
  }

  class List<T> {
    var head: ListNode?<T>
    var tail: ListNode?<T>
    var len: nat
    /** The nodes, from head to tail. */
    ghost var nodes: seq<ListNode<T>>
    /** The list and its nodes, as objects. */
    ghost var repr: set<object>

    ghost predicate Linked(i: nat)
      requires i < |nodes|
      reads this, repr
    {
      nodes[i] in repr && Between(nodes, i)
    }

    ghost predicate Valid()
      reads this, repr
    {
      && this in repr
      && Distinct(nodes)
      && (forall i :: 0 <= i < |nodes| ==> Linked(i))
      && len == |nodes|
      && head == At(nodes, 0)
      && tail == At(nodes, |nodes| - 1)
    }

    constructor ()
      ensures Valid() && nodes == [] && fresh(repr)
    {
      head, tail, len, nodes, repr := null, null, 0, [], {this};
    }

    /** listAddNodeTail: one more node at the end; the others stay the nodes they were. */
    method AddNodeTail(value: T) returns (node: ListNode<T>)
      requires Valid()
      modifies repr
      ensures Valid() && fresh(node) && node.value == value && nodes == old(nodes) + [node]
      ensures repr == old(repr) + {node}
    {
      node := new ListNode(value);
      if len == 0 {
        head, tail := node, node;
      } else {
        assert Linked(|nodes| - 1);
        node.prev := tail;
        tail.next := node;
        tail := node;
      }
      len := len + 1;
      nodes, repr := nodes + [node], repr + {node};
      forall i | 0 <= i < |nodes| ensures Linked(i) {
        if i < |old(nodes)| {
          assert old(Linked(i));
        }
      }
    }

    /** listDelNode: the node at any position leaves, and every other handle stays valid. */
    method DelNode(node: ListNode<T>, ghost i: nat)
      requires Valid() && i < |nodes| && nodes[i] == node
      modifies repr
      ensures Valid() && nodes == old(nodes)[..i] + old(nodes)[i + 1..]
      ensures repr == old(repr)
    {
      assert Linked(i);
      assert i > 0 ==> Linked(i - 1);
      assert i < |nodes| - 1 ==> Linked(i + 1);
      if node.prev != null {
        node.prev.next := node.next;
      } else {
        head := node.next;
      }
      if node.next != null {
        node.next.prev := node.prev;
      } else {
        tail := node.prev;
      }
      len := len - 1;
      nodes := nodes[..i] + nodes[i + 1..];
      forall k | 0 <= k < |nodes| ensures Linked(k) {
        assert old(Linked(if k < i then k else k + 1));
      }
    }

    /** listRotateHeadToTail: the same nodes, the first one now last. */
    method RotateHeadToTail()
      requires Valid()
      modifies repr
      ensures Valid() && repr == old(repr)
      ensures nodes == if |old(nodes)| <= 1 then old(nodes) else old(nodes)[1..] + [old(nodes)[0]]
    {
      if len <= 1 {
        return;
      }
      assert Linked(0) && Linked(1) && Linked(|nodes| - 1);
      var first := head;
      head := first.next;
      head.prev := null;
      tail.next := first;
      first.next := null;
      first.prev := tail;
      tail := first;
      nodes := nodes[1..] + [nodes[0]];
      forall k | 0 <= k < |nodes| ensures Linked(k) {
        assert old(Linked(if k < |nodes| - 1 then k + 1 else 0));
      }
    }

    /** listJoin: all the nodes of the other list go to the end of this one, and the other list is left empty. */
    method Join(o: List<T>)
      requires Valid() && o.Valid() && repr !! o.repr
      modifies repr, o.repr
      ensures Valid() && o.Valid()
      ensures nodes == old(nodes) + old(o.nodes) && o.nodes == []
      ensures repr == old(repr + o.repr) - {o} && o.repr == {o}
    {
      ghost var a, b := nodes, o.nodes;
      Splice(o);
      DistinctConcat(a, b);
      nodes, repr := a + b, repr + o.repr - {o};
      o.Clear();
    }

    /** A list that has given its nodes away. */
    method Clear()
      modifies this
      ensures Valid() && nodes == [] && repr == {this}
    {
      head, tail, len, nodes, repr := null, null, 0, [], {this};
    }

    /** The pointers of a join: the two chains of nodes become one. */
    method Splice(o: List<T>)
      requires Valid() && o.Valid() && repr !! o.repr
      modifies repr, o.repr
      ensures nodes == old(nodes) && repr == old(repr) && o.nodes == old(o.nodes) && o.repr == old(o.repr)
      ensures head == At(nodes + o.nodes, 0) && tail == At(nodes + o.nodes, |nodes| + |o.nodes| - 1)
      ensures len == |nodes| + |o.nodes|
      ensures forall i, j :: 0 <= i < |nodes| && 0 <= j < |o.nodes| ==> nodes[i] != o.nodes[j]
      ensures forall k :: 0 <= k < |nodes + o.nodes| ==>
                (nodes + o.nodes)[k] in repr + o.repr - {o} && Between(nodes + o.nodes, k)
    {
      ghost var a, b := nodes, o.nodes;
      NoCommonNode(o);
      LinkEnds(o);
      forall k | 0 <= k < |a| ensures (a + b)[k] in repr + o.repr - {o} && Between(a + b, k) {
        assert old(Linked(k));
        BetweenLeft(a, b, k);
      }
      forall k | |a| <= k < |a + b| ensures (a + b)[k] in repr + o.repr - {o} && Between(a + b, k) {
        assert old(o.Linked(k - |a|));
        BetweenRight(a, b, k - |a|);
      }
    }

    lemma {:induction false} NoCommonNode(o: List<T>)
      requires Valid() && o.Valid() && repr !! o.repr
      ensures forall i, j :: 0 <= i < |nodes| && 0 <= j < |o.nodes| ==> nodes[i] != o.nodes[j]
    {
      forall i, j | 0 <= i < |nodes| && 0 <= j < |o.nodes| ensures nodes[i] != o.nodes[j] {
        assert Linked(i) && o.Linked(j);
      }
    }

    /** The last node of a list and the first one of another one become neighbours. */
    method LinkEnds(o: List<T>)
      requires Valid() && o.Valid() && repr !! o.repr
      modifies repr, o.repr
      ensures nodes == old(nodes) && repr == old(repr) && o.nodes == old(o.nodes) && o.repr == old(o.repr)
      ensures head == At(nodes + o.nodes, 0) && tail == At(nodes + o.nodes, |nodes| + |o.nodes| - 1)
      ensures len == |nodes| + |o.nodes|
      ensures forall k :: 0 <= k < |nodes| ==> nodes[k].prev == old(nodes[k].prev)
      ensures forall k :: 0 <= k < |nodes| ==>
                nodes[k].next == if k == |nodes| - 1 then At(o.nodes, 0) else old(nodes[k].next)
      ensures forall k :: 0 <= k < |o.nodes| ==> o.nodes[k].next == old(o.nodes[k].next)
      ensures forall k :: 0 <= k < |o.nodes| ==>
                o.nodes[k].prev == if k == 0 then At(nodes, |nodes| - 1) else old(o.nodes[k].prev)
    {
      NoCommonNode(o);
      assert nodes != [] ==> Linked(|nodes| - 1);
      assert o.nodes != [] ==> o.Linked(0);
      if o.head != null {
        o.head.prev := tail;
      }
      if tail != null {
        tail.next := o.head;
      } else {
        head := o.head;
      }
      if o.tail != null {
        tail := o.tail;
      }
      len := len + o.len;
    }

    /** A walk with listNext from the head sees the values of all the nodes, in order. */
    method Walk() returns (values: seq<T>)
      requires Valid()
      ensures |values| == |nodes| && forall i :: 0 <= i < |nodes| ==> values[i] == nodes[i].value
    {
      values := [];
      var current := head;
      while current != null
        invariant |values| <= |nodes|
        invariant current == At(nodes, |values|)
        invariant forall i :: 0 <= i < |values| ==> values[i] == nodes[i].value
        decreases |nodes| - |values|
      {
        assert Linked(|values|);
        values := values + [current.value];
        current := current.next;
      }
    }
  }
}
