/**
  What serving a blocked client does to the data: an element leaves a list and
  reaches the client or another list, and none is lost or made.
 */
module BlockedData {
  import opened BlockingIndex

  type Value = string

  /** A key holds a list, or something that is not a list. */
  datatype Obj = ListObj(items: seq<Value>) | OtherObj

  type Data = map<Key, Obj>

  datatype BType = ForList | ForZset | ForStream

  datatype Target = Reply | To(key: Key)

  /** What a blocked client waits for: the kind of key, where the element goes, and which end it comes from. */
  datatype Waiter = Waiter(btype: BType, target: Target, fromHead: bool)

  predicate HasItems(data: Data, key: Key) {
    key in data && data[key].ListObj? && data[key].items != []
  }

  function Popped(items: seq<Value>, fromHead: bool): Value
    requires items != []
  {
    if fromHead then items[0] else items[|items| - 1]
  }

  function Rest(items: seq<Value>, fromHead: bool): seq<Value>
    requires items != []
  {
    if fromHead then items[1..] else items[..|items| - 1]
  }

  function PushBack(items: seq<Value>, v: Value, atHead: bool): seq<Value> {
    if atHead then [v] + items else items + [v]
  }

  function ItemsAt(data: Data, key: Key): seq<Value> {
    if key in data && data[key].ListObj? then data[key].items else []
  }

  /** The element pushed at the head of the destination, which is created if need be. */
  function PushTo(data: Data, key: Key, v: Value): Data {
    data[key := ListObj([v] + ItemsAt(data, key))]
  }

  /** Whether a client can be served: its destination, if it has one, is free or a list. */
  predicate CanServe(data: Data, w: Waiter) {
    w.target.Reply? || w.target.key !in data || data[w.target.key].ListObj?
  }

  /**
    The data after serving a client from a key; a client that cannot be served gets nothing and the element goes
    back.
   */
  function Served(data: Data, key: Key, w: Waiter): Data
    requires HasItems(data, key)
  {
    var v := Popped(data[key].items, w.fromHead);
    var d := data[key := ListObj(Rest(data[key].items, w.fromHead))];
    if !CanServe(data, w) then data
    else if w.target.Reply? then d
    else PushTo(d, w.target.key, v)
  }

  /** What the client keeps of the element: it is gone from the data only if the client has no destination. */
  function Kept(data: Data, key: Key, w: Waiter): seq<Value>
    requires HasItems(data, key)
  {
    if w.target.Reply? then [Popped(data[key].items, w.fromHead)] else []
  }

  /** Undoing a pop puts the element back where it was. */
  lemma {:induction false} UndoPop(items: seq<Value>, fromHead: bool)
    requires items != []
    ensures PushBack(Rest(items, fromHead), Popped(items, fromHead), fromHead) == items
  {
  }

  /** A pop takes the first element or the last one, and a push puts it at the end it is told. */
  lemma {:induction false} EndsAreEnds(items: seq<Value>, fromHead: bool)
    requires items != []
    ensures items == if fromHead then [Popped(items, fromHead)] + Rest(items, fromHead)
                     else Rest(items, fromHead) + [Popped(items, fromHead)]
  {
  }

  /**
    A client with a destination: the element is the first or the last one of the list, arrives at the head of the
    destination, also when that is the list itself, and no other key changes. A client without one: the element
    leaves the list. A client whose destination is not a list changes nothing.
   */
  lemma {:induction false} ElementArrives(data: Data, key: Key, w: Waiter, k: Key)
    requires HasItems(data, key)
    ensures var items, d := data[key].items, Served(data, key, w);
            var v := if w.fromHead then items[0] else items[|items| - 1];
            var rest := if w.fromHead then items[1..] else items[..|items| - 1];
            if w.target.To? && w.target.key in data && !data[w.target.key].ListObj? then d == data
            else ItemsAt(d, k) ==
                 if w.target.To? && k == w.target.key then [v] + (if k == key then rest else ItemsAt(data, k))
                 else if k == key then rest
                 else ItemsAt(data, k)
  {
  }

  lemma {:induction false} PopSplits(items: seq<Value>, fromHead: bool)
    requires items != []
    ensures multiset(items) == multiset(Rest(items, fromHead)) + multiset{Popped(items, fromHead)}
  {
    var n := |items| - 1;
    assert items == [items[0]] + items[1..];
    assert items == items[..n] + [items[n]];
  }

  // ---------------------------------------------------------------- all the elements

  ghost function Elements(data: Data, keys: set<Key>): multiset<Value>
    decreases |keys|
  {
    if keys == {} then multiset{}
    else
      var k :| k in keys;
      multiset(ItemsAt(data, k)) + Elements(data, keys - {k})
  }

  lemma {:induction false} PickAny(data: Data, keys: set<Key>, key: Key)
    requires key in keys
    ensures Elements(data, keys) == multiset(ItemsAt(data, key)) + Elements(data, keys - {key})
    decreases |keys|
  {
    var k :| k in keys && Elements(data, keys) == multiset(ItemsAt(data, k)) + Elements(data, keys - {k});
    if k != key {
      PickAny(data, keys - {k}, key);
      PickAny(data, keys - {key}, k);
      assert keys - {k} - {key} == keys - {key} - {k};
    }
  }

  lemma {:induction false} SameElsewhere(a: Data, b: Data, keys: set<Key>)
    requires forall k :: k in keys ==> ItemsAt(a, k) == ItemsAt(b, k)
    ensures Elements(a, keys) == Elements(b, keys)
    decreases |keys|
  {
    if keys != {} {
      var k :| k in keys && Elements(a, keys) == multiset(ItemsAt(a, k)) + Elements(a, keys - {k});
      SameElsewhere(a, b, keys - {k});
      PickAny(b, keys, k);
    }
  }

  /** All the elements of all the lists. */
  ghost function AllElements(data: Data): multiset<Value> {
    Elements(data, data.Keys)
  }

  /** Changing one key changes all the elements by what changed there. */
  lemma {:induction false} ChangeOne(data: Data, key: Key, obj: Obj)
    ensures AllElements(data[key := obj]) + multiset(ItemsAt(data, key)) == AllElements(data) + multiset(ItemsAt(data[key := obj], key))
  {
    var d := data[key := obj];
    var others := data.Keys - {key};
    assert d.Keys - {key} == others;
    PickAny(d, d.Keys, key);
    SameElsewhere(d, data, others);
    if key in data {
      PickAny(data, data.Keys, key);
    } else {
      assert data.Keys == others;
    }
  }

  /** Deleting an empty list loses nothing. */
  lemma {:induction false} DeleteEmpty(data: Data, key: Key)
    requires key in data && ItemsAt(data, key) == []
    ensures AllElements(data - {key}) == AllElements(data)
  {
    PickAny(data, data.Keys, key);
    assert (data - {key}).Keys == data.Keys - {key};
    SameElsewhere(data, data - {key}, data.Keys - {key});
  }

  /** Serving a client loses and makes no element. */
  lemma {:induction false} ServeConserves(data: Data, key: Key, w: Waiter)
    requires HasItems(data, key)
    ensures var kept := if CanServe(data, w) then Kept(data, key, w) else [];
            AllElements(Served(data, key, w)) + multiset(kept) == AllElements(data)
  {
    var items := data[key].items;
    var rest := Rest(items, w.fromHead);
    var v := Popped(items, w.fromHead);
    var d := data[key := ListObj(rest)];
    PopSplits(items, w.fromHead);
    ChangeOne(data, key, ListObj(rest));
    Cancel(AllElements(d), AllElements(data), multiset(rest), multiset{v});
    if CanServe(data, w) && w.target.To? {
      var dst := w.target.key;
      ChangeOne(d, dst, ListObj([v] + ItemsAt(d, dst)));
      assert multiset([v] + ItemsAt(d, dst)) == multiset(ItemsAt(d, dst)) + multiset{v};
      Cancel(AllElements(d) + multiset{v}, AllElements(PushTo(d, dst, v)), multiset(ItemsAt(d, dst)), multiset{});
    }
    hide AllElements;
  }

  lemma {:induction false} Cancel(a: multiset<Value>, b: multiset<Value>, r: multiset<Value>, x: multiset<Value>)
    requires a + (r + x) == b + r
    ensures a + x == b
  {
    forall e ensures (a + x)[e] == b[e] {
      assert (a + (r + x))[e] == (b + r)[e];
    }
  }
}
