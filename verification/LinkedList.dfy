/**
  The kernel's list: a circular doubly linked list threaded through a sentinel whose value is the
  largest there is. Each list object keeps the sequence of its items as its abstract value.
  */
module LinkedList {

  /** portMAX_DELAY, the largest tick value. */
  const MAX_VALUE: nat := 0xFFFF_FFFF

  // ---------------------------------------------------------------- sorted insertion on sequences

  predicate Sorted(vs: seq<nat>) {
    forall i, j :: 0 <= i < j < |vs| ==> vs[i] <= vs[j]
  }

  /** Length of the longest prefix of values that are at most v. */
  function InsertPosition(vs: seq<nat>, v: nat): (k: nat)
    ensures k <= |vs|
    ensures forall i :: 0 <= i < k ==> vs[i] <= v
    ensures k < |vs| ==> v < vs[k]
  {
    if |vs| == 0 || v < vs[0] then 0 else 1 + InsertPosition(vs[1..], v)
  }

  function InsertAt<T>(s: seq<T>, k: nat, x: T): (r: seq<T>)
    requires k <= |s|
    ensures |r| == |s| + 1
  {
    s[..k] + [x] + s[k..]
  }

  function RemoveAt<T>(s: seq<T>, k: nat): (r: seq<T>)
    requires k < |s|
    ensures |r| == |s| - 1
  {
    s[..k] + s[k + 1..]
  }

  /** No other position separates the values that are at most v from a larger one. */
  lemma InsertPositionIs(vs: seq<nat>, v: nat, k: nat)
    requires k <= |vs|
    requires forall i :: 0 <= i < k ==> vs[i] <= v
    requires k < |vs| ==> v < vs[k]
    ensures k == InsertPosition(vs, v)
  {
  }

  /** Insertion keeps a sorted list sorted, and puts the newcomer behind all equal values. */
  lemma InsertKeepsSorted(vs: seq<nat>, v: nat)
    requires Sorted(vs)
    ensures Sorted(InsertAt(vs, InsertPosition(vs, v), v))
    ensures forall i :: 0 <= i < |vs| ==> (vs[i] <= v <==> i < InsertPosition(vs, v))
  {
    var k := InsertPosition(vs, v);
    var r := InsertAt(vs, k, v);
    forall i, j | 0 <= i < j < |r|
      ensures r[i] <= r[j]
    {
      if k < |vs| {
        assert v < vs[k];
      }
    }
  }

  lemma RemoveUndoesInsert<T>(s: seq<T>, k: nat, x: T)
    requires k <= |s|
    ensures RemoveAt(InsertAt(s, k, x), k) == s
    ensures InsertAt(s, k, x)[k] == x
  {
  }

  lemma RemoveKeepsSorted(vs: seq<nat>, k: nat)
    requires Sorted(vs) && k < |vs|
    ensures Sorted(RemoveAt(vs, k))
  {
  }

  // ---------------------------------------------------------------- the linked structure

  class ListItem {
    var value: nat
    var next: ListItem?
    var previous: ListItem?
    var container: List?

    constructor (v: nat)
      ensures value == v && container == null
    {
      value := v;
      next, previous, container := null, null, null;
    }
  }

  class List {
    var numberOfItems: nat
    var index: ListItem
    const listEnd: ListItem
    ghost var items: seq<ListItem>

    ghost function Nodes(): (r: seq<ListItem>)
      reads this
      ensures |r| == |items| + 1
    {
      [listEnd] + items
    }

    static ghost predicate Linked(nodes: seq<ListItem>)
      reads nodes`next, nodes`previous
    {
      Ring(nodes, Nexts(nodes), Previouses(nodes))
    }

    ghost predicate Contained(nodes: seq<ListItem>)
      reads nodes`container, nodes`value
    {
      forall i :: 0 <= i < |nodes| ==> nodes[i].container == this && nodes[i].value <= MAX_VALUE
    }

    ghost predicate Valid()
      reads this, Nodes()
    {
      && Linked(Nodes())
      && Contained(items)
      && listEnd.value == MAX_VALUE
      && numberOfItems == |items|
      && index in Nodes()
    }

    static ghost function ValuesOf(nodes: seq<ListItem>): (vs: seq<nat>)
      reads nodes`value
      ensures |vs| == |nodes| && forall i :: 0 <= i < |vs| ==> vs[i] == nodes[i].value
    {
      if nodes == [] then [] else [nodes[0].value] + ValuesOf(nodes[1..])
    }

    constructor ()
      ensures Valid() && items == [] && fresh(listEnd)
      ensures index == listEnd
    {
      listEnd := new ListItem(MAX_VALUE);
      index := listEnd;
      numberOfItems := 0;
      items := [];
      new;
      listEnd.next := listEnd;
      listEnd.previous := listEnd;
    }

    static ghost predicate Distinct(nodes: seq<ListItem>) {
      forall i, j :: 0 <= i < j < |nodes| ==> nodes[i] != nodes[j]
    }

    // The links of a node sequence, as values: every node's successor and predecessor.
    static ghost predicate Ring(nodes: seq<ListItem>, nexts: seq<ListItem?>, previouses: seq<ListItem?>) {
      && |nodes| == |nexts| == |previouses| > 0
      && Distinct(nodes)
      && (forall i :: 0 <= i < |nodes| - 1 ==> nexts[i] == nodes[i + 1])
      && (forall i :: 0 < i < |nodes| ==> previouses[i] == nodes[i - 1])
      && nexts[|nodes| - 1] == nodes[0]
      && previouses[0] == nodes[|nodes| - 1]
    }

    static ghost function Nexts(nodes: seq<ListItem>): (r: seq<ListItem?>)
      reads nodes`next
      ensures |r| == |nodes| && forall i :: 0 <= i < |r| ==> r[i] == nodes[i].next
    {
      if nodes == [] then [] else [nodes[0].next] + Nexts(nodes[1..])
    }

    static ghost function Previouses(nodes: seq<ListItem>): (r: seq<ListItem?>)
      reads nodes`previous
      ensures |r| == |nodes| && forall i :: 0 <= i < |r| ==> r[i] == nodes[i].previous
    {
      if nodes == [] then [] else [nodes[0].previous] + Previouses(nodes[1..])
    }

    /** A new node between nodes[k] and its successor nodes[a]. */
    static lemma RingWith(nodes: seq<ListItem>, nexts: seq<ListItem?>, previouses: seq<ListItem?>,
                   k: nat, a: nat, item: ListItem)
      requires Ring(nodes, nexts, previouses) && k < |nodes| && item !in nodes
      requires a == if k + 1 < |nodes| then k + 1 else 0
      ensures Ring(InsertAt(nodes, k + 1, item), InsertAt(nexts[k := item], k + 1, nodes[a]),
                   InsertAt(previouses[a := item], k + 1, nodes[k]))
    {
    }

    /** Taking out nodes[k], which is not the first: its neighbours are joined. */
    static lemma RingWithout(nodes: seq<ListItem>, nexts: seq<ListItem?>, previouses: seq<ListItem?>, k: nat, a: nat)
      requires Ring(nodes, nexts, previouses) && 0 < k < |nodes|
      requires a == if k + 1 < |nodes| then k + 1 else 0
      ensures Ring(RemoveAt(nodes, k), RemoveAt(nexts[k - 1 := nodes[a]], k),
                   RemoveAt(previouses[a := nodes[k - 1]], k))
    {
    }

    static lemma RingFacts(nodes: seq<ListItem>, nexts: seq<ListItem?>, previouses: seq<ListItem?>, k: nat, a: nat)
      requires Ring(nodes, nexts, previouses) && k < |nodes|
      requires a == if k + 1 < |nodes| then k + 1 else 0
      ensures |nexts| == |previouses| == |nodes|
      ensures nexts[k] == nodes[a] && previouses[a] == nodes[k]
      ensures forall i :: 0 <= i < |nodes| ==> (nodes[i] == nodes[k] <==> i == k) && (nodes[i] == nodes[a] <==> i == a)
    {
    }

    /** The heap after an item has been spliced in, in terms of the links before. */
    static lemma SplicedIn(nodes: seq<ListItem>, nexts: seq<ListItem?>, previouses: seq<ListItem?>,
                    k: nat, a: nat, item: ListItem)
      requires Ring(nodes, nexts, previouses) && k < |nodes| && item !in nodes
      requires a == if k + 1 < |nodes| then k + 1 else 0
      requires Nexts(nodes) == nexts[k := item] && Previouses(nodes) == previouses[a := item]
      requires item.next == nodes[a] && item.previous == nodes[k]
      ensures Linked(InsertAt(nodes, k + 1, item))
    {
      hide Ring, Nexts, Previouses;
      RingFacts(nodes, nexts, previouses, k, a);
      RingWith(nodes, nexts, previouses, k, a, item);
      NextsInsert(nodes, nexts, k, item, nodes[a]);
      PreviousesInsert(nodes, previouses, k, a, item);
    }

    static lemma NextsInsert(nodes: seq<ListItem>, nexts: seq<ListItem?>, k: nat, item: ListItem, after: ListItem)
      requires k < |nodes| == |nexts| && item.next == after && Nexts(nodes) == nexts[k := item]
      ensures Nexts(InsertAt(nodes, k + 1, item)) == InsertAt(nexts[k := item], k + 1, after)
    {
      hide Nexts;
    }

    static lemma PreviousesInsert(nodes: seq<ListItem>, previouses: seq<ListItem?>, k: nat, a: nat, item: ListItem)
      requires k < |nodes| == |previouses| && a < |nodes| && item.previous == nodes[k]
      requires Previouses(nodes) == previouses[a := item]
      ensures Previouses(InsertAt(nodes, k + 1, item)) == InsertAt(previouses[a := item], k + 1, nodes[k])
    {
      hide Previouses;
    }

    lemma ContainedInsert(nodes: seq<ListItem>, k: nat, item: ListItem)
      requires Contained(nodes) && k <= |nodes| && item.container == this && item.value <= MAX_VALUE
      ensures Contained(InsertAt(nodes, k, item))
    {
    }

    static lemma ConsInsert(e: ListItem, s: seq<ListItem>, k: nat, x: ListItem)
      requires k <= |s|
      ensures [e] + InsertAt(s, k, x) == InsertAt([e] + s, k + 1, x)
      ensures forall n :: n in [e] + s ==> n in [e] + InsertAt(s, k, x)
    {
      var r := InsertAt(s, k, x);
      forall n | n in [e] + s
        ensures n in [e] + r
      {
        if n != e {
          var i :| 0 <= i < |s| && s[i] == n;
          assert r[if i < k then i else i + 1] == n;
        }
      }
    }

    /** The four pointer writes that splice an item in behind a node of a ring. */
    static method Splice(iterator_: ListItem, item: ListItem, ghost nodes: seq<ListItem>, ghost k: nat, ghost a: nat)
      requires Linked(nodes) && k < |nodes| && iterator_ == nodes[k] && item !in nodes
      requires a == if k + 1 < |nodes| then k + 1 else 0
      modifies nodes`next, nodes`previous, item`next, item`previous
      ensures Linked(InsertAt(nodes, k + 1, item))
    {
      hide Ring, Nexts, Previouses, InsertAt, Distinct;
      ghost var nexts, previouses := Nexts(nodes), Previouses(nodes);
      RingFacts(nodes, nexts, previouses, k, a);
      LinkBehind(iterator_, nodes[a], item);
      assert Nexts(nodes) == nexts[k := item];
      assert Previouses(nodes) == previouses[a := item];
      SplicedIn(nodes, nexts, previouses, k, a, item);
    }

    static method LinkBehind(iterator_: ListItem, ghost after: ListItem, item: ListItem)
      requires iterator_.next == after && item != iterator_ && item != after
      modifies iterator_`next, after`previous, item`next, item`previous
      ensures iterator_.next == item && item.next == after && after.previous == item && item.previous == iterator_
    {
      item.next := iterator_.next;
      item.next.previous := item;
      item.previous := iterator_;
      iterator_.next := item;
    }

    /** Links an item in behind a node, at position k of the items. */
    method LinkAfter(iterator_: ListItem, item: ListItem, ghost k: nat)
      requires Valid() && k <= |items| && iterator_ == Nodes()[k]
      requires item !in Nodes() && item.container == null && item.value <= MAX_VALUE
      modifies this`items, this`numberOfItems, item`next, item`previous, item`container
      modifies listEnd`next, listEnd`previous, items`next, items`previous
      ensures Valid() && items == InsertAt(old(items), k, item)
    {
      hide Ring, Nexts, Previouses, InsertAt, Linked;
      ghost var before := items;
      Splice(iterator_, item, Nodes(), k, if k < |items| then k + 1 else 0);
      item.container := this;
      numberOfItems := numberOfItems + 1;
      items := InsertAt(items, k, item);
      ConsInsert(listEnd, before, k, item);
      ContainedInsert(before, k, item);
    }

    /** The heap after nodes[k] has been spliced out, in terms of the links before. */
    static lemma SplicedOut(nodes: seq<ListItem>, nexts: seq<ListItem?>, previouses: seq<ListItem?>, k: nat, a: nat)
      requires Ring(nodes, nexts, previouses) && 0 < k < |nodes|
      requires a == if k + 1 < |nodes| then k + 1 else 0
      requires Nexts(nodes) == nexts[k - 1 := nodes[a]] && Previouses(nodes) == previouses[a := nodes[k - 1]]
      ensures Linked(RemoveAt(nodes, k))
    {
      hide Ring, Nexts, Previouses, RemoveAt;
      RingFacts(nodes, nexts, previouses, k, a);
      RingWithout(nodes, nexts, previouses, k, a);
      NextsRemove(nodes, k);
      PreviousesRemove(nodes, k);
    }

    static lemma NextsRemove(nodes: seq<ListItem>, k: nat)
      requires k < |nodes|
      ensures Nexts(RemoveAt(nodes, k)) == RemoveAt(Nexts(nodes), k)
    {
      hide Nexts;
    }

    static lemma PreviousesRemove(nodes: seq<ListItem>, k: nat)
      requires k < |nodes|
      ensures Previouses(RemoveAt(nodes, k)) == RemoveAt(Previouses(nodes), k)
    {
      hide Previouses;
    }

    /** The two pointer writes that splice an item out of a ring. */
    static method Unsplice(item: ListItem, ghost nodes: seq<ListItem>, ghost k: nat, ghost a: nat)
      requires Linked(nodes) && 0 < k < |nodes| && item == nodes[k]
      requires a == if k + 1 < |nodes| then k + 1 else 0
      modifies nodes`next, nodes`previous
      ensures Linked(RemoveAt(nodes, k))
      ensures item.previous == nodes[k - 1]
    {
      hide Ring, Nexts, Previouses, RemoveAt, Distinct;
      ghost var nexts, previouses := Nexts(nodes), Previouses(nodes);
      RingFacts(nodes, nexts, previouses, k, a);
      RingFacts(nodes, nexts, previouses, k - 1, k);
      LinkPast(item, nodes[k - 1], nodes[a]);
      assert Nexts(nodes) == nexts[k - 1 := nodes[a]];
      assert Previouses(nodes) == previouses[a := nodes[k - 1]];
      SplicedOut(nodes, nexts, previouses, k, a);
    }

    static method LinkPast(item: ListItem, ghost before: ListItem, ghost after: ListItem)
      requires item.previous == before && item.next == after && item != before && item != after
      modifies before`next, after`previous
      ensures before.next == after && after.previous == before
    {
      item.next.previous := item.previous;
      item.previous.next := item.next;
    }

    static lemma ConsRemove(e: ListItem, s: seq<ListItem>, k: nat)
      requires k < |s|
      ensures [e] + RemoveAt(s, k) == RemoveAt([e] + s, k + 1)
      ensures forall n :: n in [e] + s && n != s[k] ==> n in [e] + RemoveAt(s, k)
      ensures k == 0 ==> e in [e] + RemoveAt(s, k)
      ensures 0 < k ==> s[k - 1] in [e] + RemoveAt(s, k)
    {
      var r := RemoveAt(s, k);
      if 0 < k {
        assert r[k - 1] == s[k - 1];
      }
      forall n | n in [e] + s && n != s[k]
        ensures n in [e] + r
      {
        if n != e {
          var i :| 0 <= i < |s| && s[i] == n;
          assert r[if i < k then i else i - 1] == n;
        }
      }
    }

    // ---------------------------------------------------------------- the operations

    /** The node to insert a value behind: the last item if the value is the largest there is, else by walking. */
    method FindInsertion(v: nat) returns (iterator_: ListItem, ghost k: nat)
      requires Valid() && v <= MAX_VALUE
      ensures k == InsertPosition(ValuesOf(items), v) && iterator_ == Nodes()[k]
    {
      hide Ring, InsertAt, Contained, Nexts, Previouses, ValuesOf, Distinct;
      if v == MAX_VALUE {
        Neighbours(0);
        iterator_ := listEnd.previous;
        k := |items|;
        ItemValues();
      } else {
        iterator_ := listEnd;
        k := 0;
        Neighbours(0);
        while iterator_.next.value <= v
          invariant k <= |items| && iterator_ == Nodes()[k]
          invariant iterator_.next == if k < |items| then items[k] else listEnd
          invariant forall i :: 0 <= i < k ==> items[i].value <= v
          decreases |items| - k
        {
          iterator_ := iterator_.next;
          k := k + 1;
          Neighbours(k);
        }
      }
      InsertPositionIs(ValuesOf(items), v, k);
    }

    /** Sorted insertion: behind every item whose value is not larger. */
    method Insert(item: ListItem)
      requires Valid() && item !in Nodes() && item.container == null && item.value <= MAX_VALUE
      modifies this`items, this`numberOfItems, item`next, item`previous, item`container
      modifies listEnd`next, listEnd`previous, items`next, items`previous
      ensures Valid()
      ensures items == InsertAt(old(items), InsertPosition(old(ValuesOf(items)), item.value), item)
    {
      hide Valid, InsertAt, ValuesOf;
      var iterator_, k := FindInsertion(item.value);
      LinkAfter(iterator_, item, k);
    }

    /** Insertion before the index, so that a walk starting there reaches the new item last. */
    method InsertEnd(item: ListItem)
      requires Valid() && item !in Nodes() && item.container == null && item.value <= MAX_VALUE
      modifies this`items, this`numberOfItems, item`next, item`previous, item`container
      modifies listEnd`next, listEnd`previous, items`next, items`previous
      ensures Valid()
      ensures items == InsertAt(old(items), old(BeforeIndex()), item)
    {
      hide Ring, InsertAt, Nexts, Previouses;
      ghost var k := BeforeIndex();
      RingFacts(Nodes(), Nexts(Nodes()), Previouses(Nodes()), k, if k < |items| then k + 1 else 0);
      LinkAfter(index.previous, item, k);
    }

    /** Position of the node before the index. */
    ghost function BeforeIndex(): (k: nat)
      requires Valid()
      reads this, Nodes()
      ensures k <= |items| && index == if k < |items| then items[k] else listEnd
    {
      if index == listEnd then |items|
      else
        assert index in items;
        var k :| 0 <= k < |items| && items[k] == index;
        k
    }

    /** Removal, given where the item is. A walk index on the removed item steps back. */
    method Remove(item: ListItem, ghost k: nat) returns (left: nat)
      requires Valid() && k < |items| && item == items[k]
      modifies this`items, this`numberOfItems, this`index, item`container
      modifies listEnd`next, listEnd`previous, items`next, items`previous
      ensures Valid() && items == RemoveAt(old(items), k) && item.container == null
      ensures left == |items|
      ensures index == if old(index) == item then old(Nodes()[k]) else old(index)
    {
      hide Ring, RemoveAt, Nexts, Previouses, Distinct, Linked;
      ghost var before := items;
      ghost var ring := RemoveAt(Nodes(), k + 1);
      OnlyItemAt(k);
      ConsRemove(listEnd, before, k);
      Unsplice(item, Nodes(), k + 1, if k + 1 < |items| then k + 2 else 0);
      if index == item {
        index := item.previous;
      }
      item.container := null;
      numberOfItems := numberOfItems - 1;
      items := RemoveAt(items, k);
      assert Nodes() == ring && Linked(ring);
      ContainedRemove(before, k);
      left := numberOfItems;
    }

    lemma OnlyItemAt(k: nat)
      requires Valid() && k < |items|
      ensures forall i :: 0 <= i < |items| ==> (items[i] == items[k] <==> i == k)
      ensures listEnd != items[k]
    {
      hide Valid, Linked, Contained, Nexts, Previouses;
      var nodes := Nodes();
      ItemsAreDistinct();
      assert nodes[0] == listEnd && nodes[k + 1] == items[k];
      assert forall i :: 0 <= i < |items| ==> items[i] == nodes[i + 1];
    }

    lemma ItemsAreDistinct()
      requires Valid()
      ensures Distinct(Nodes())
    {
    }

    lemma ContainedRemove(nodes: seq<ListItem>, k: nat)
      requires k < |nodes|
      requires forall i :: 0 <= i < |nodes| && i != k ==> nodes[i].container == this && nodes[i].value <= MAX_VALUE
      ensures Contained(RemoveAt(nodes, k))
    {
    }

    lemma Neighbours(k: nat)
      requires Valid() && k <= |items|
      ensures Nodes()[k].next == if k < |items| then items[k] else listEnd
      ensures listEnd.previous == Nodes()[|items|]
    {
      RingFacts(Nodes(), Nexts(Nodes()), Previouses(Nodes()), |items|, 0);
      RingFacts(Nodes(), Nexts(Nodes()), Previouses(Nodes()), k, if k < |items| then k + 1 else 0);
    }

    lemma ItemValues()
      requires Valid()
      ensures forall i :: 0 <= i < |items| ==> items[i].value <= MAX_VALUE
    {
    }
  }
}
