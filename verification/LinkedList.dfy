/** The circular doubly linked list: a head and the entries threaded through it. */
module LinkedLists {
  class ListEntry {
    var prev: ListEntry?
    var next: ListEntry?

    constructor ()
    {
      prev, next := null, null;
    }
  }

  /** Entry `i` of the ring; the head stands at both ends. */
  ghost function At(head: ListEntry, nodes: seq<ListEntry>, i: int): ListEntry {
    if 0 <= i < |nodes| then nodes[i] else head
  }

  /** Link `i` joins entries i-1 and i in both directions. */
  ghost predicate Linked(head: ListEntry, nodes: seq<ListEntry>, i: int)
    reads head, nodes
  {
    At(head, nodes, i - 1).next == At(head, nodes, i) && At(head, nodes, i).prev == At(head, nodes, i - 1)
  }

  ghost predicate Distinct(head: ListEntry, nodes: seq<ListEntry>) {
    head !in nodes && forall i, j | 0 <= i < j < |nodes| :: nodes[i] != nodes[j]
  }

  /** The entries from `head` on, in order, are `nodes`, and both pointer chains run through all of them back to
      `head`. */
  ghost predicate Ring(head: ListEntry, nodes: seq<ListEntry>)
    reads head, nodes
  {
    Distinct(head, nodes) && forall i | 0 <= i <= |nodes| :: Linked(head, nodes, i)
  }

  method ListHeadInit(head: ListEntry)
    modifies head
    ensures Ring(head, [])
  {
    head.next := head;
    head.prev := head;
  }

  /** On one side of the ring's links no entry stands twice. */
  lemma AtDistinct(head: ListEntry, nodes: seq<ListEntry>, i: nat, k: nat)
    requires Distinct(head, nodes) && i <= |nodes| && k <= |nodes| && i != k
    ensures At(head, nodes, i) != At(head, nodes, k) && At(head, nodes, i - 1) != At(head, nodes, k - 1)
  {}

  /** _list_add: `entry` goes between two neighbours, at position `k`. */
  method Insert(entry: ListEntry, prev: ListEntry, next: ListEntry, ghost head: ListEntry, ghost nodes: seq<ListEntry>,
      ghost k: nat)
    requires Ring(head, nodes) && k <= |nodes| && entry != head && entry !in nodes
    requires prev == At(head, nodes, k - 1) && next == At(head, nodes, k)
    modifies prev, entry, next
    ensures Ring(head, nodes[..k] + [entry] + nodes[k..])
  {
    prev.next := entry;
    entry.prev := prev;
    entry.next := next;
    next.prev := entry;
    forall i | 0 <= i <= |nodes| && i != k ensures Linked(head, nodes, i) {
      AtDistinct(head, nodes, i, k);
      assert old(Linked(head, nodes, i));
    }
    InsertedRing(head, nodes, entry, k);
  }

  /** One link replaced by two: the ring with the entry in it. */
  lemma InsertedRing(head: ListEntry, nodes: seq<ListEntry>, entry: ListEntry, k: nat)
    requires k <= |nodes| && entry != head && entry !in nodes && Distinct(head, nodes)
    requires forall i | 0 <= i <= |nodes| && i != k :: Linked(head, nodes, i)
    requires entry.prev == At(head, nodes, k - 1) && entry.next == At(head, nodes, k)
    requires At(head, nodes, k - 1).next == entry && At(head, nodes, k).prev == entry
    ensures Ring(head, nodes[..k] + [entry] + nodes[k..])
  {
    var r := nodes[..k] + [entry] + nodes[k..];
    assert Distinct(head, r) by {
      assert forall i | 0 <= i < |r| :: r[i] == if i < k then nodes[i] else if i == k then entry else nodes[i - 1];
    }
    forall i | 0 <= i <= |r| ensures Linked(head, r, i) {
      AtInserted(head, nodes, entry, k, i);
      AtInserted(head, nodes, entry, k, i - 1);
      if i < k {
        assert Linked(head, nodes, i);
      } else if i > k + 1 {
        assert Linked(head, nodes, i - 1);
      }
    }
  }

  lemma AtInserted(head: ListEntry, nodes: seq<ListEntry>, entry: ListEntry, k: nat, i: int)
    requires k <= |nodes| && -1 <= i <= |nodes| + 1
    ensures At(head, nodes[..k] + [entry] + nodes[k..], i) ==
      if i < k then At(head, nodes, i) else if i == k then entry else At(head, nodes, i - 1)
  {}

  /** list_add: at the front. */
  method ListAdd(head: ListEntry, entry: ListEntry, ghost nodes: seq<ListEntry>)
    requires Ring(head, nodes) && entry != head && entry !in nodes
    modifies head, entry, nodes
    ensures Ring(head, [entry] + nodes)
  {
    assert nodes[..0] + [entry] + nodes[0..] == [entry] + nodes;
    assert Linked(head, nodes, 0);
    Insert(entry, head, head.next, head, nodes, 0);
  }

  /** list_add_tail: at the back. */
  method ListAddTail(head: ListEntry, entry: ListEntry, ghost nodes: seq<ListEntry>)
    requires Ring(head, nodes) && entry != head && entry !in nodes
    modifies head, entry, nodes
    ensures Ring(head, nodes + [entry])
  {
    assert nodes[..|nodes|] + [entry] + nodes[|nodes|..] == nodes + [entry];
    assert Linked(head, nodes, |nodes|);
    Insert(entry, head.prev, head, head, nodes, |nodes|);
  }

  /** list_del: the neighbours are joined; the entry keeps its own pointers. */
  method ListDel(entry: ListEntry, ghost head: ListEntry, ghost nodes: seq<ListEntry>, ghost k: nat)
    requires Ring(head, nodes) && k < |nodes| && nodes[k] == entry
    modifies head, nodes
    ensures Ring(head, nodes[..k] + nodes[k + 1..])
    ensures entry.prev == old(entry.prev) && entry.next == old(entry.next)
  {
    assert Linked(head, nodes, k) && Linked(head, nodes, k + 1);
    AtDistinct(head, nodes, k, k + 1);
    var prev, next := entry.prev, entry.next;
    prev.next := next;
    next.prev := prev;
    forall i | 0 <= i <= |nodes| && i != k && i != k + 1 ensures Linked(head, nodes, i) {
      AtDistinct(head, nodes, i, k);
      AtDistinct(head, nodes, i, k + 1);
      assert old(Linked(head, nodes, i));
    }
    DeletedRing(head, nodes, k);
  }

  lemma DeletedRing(head: ListEntry, nodes: seq<ListEntry>, k: nat)
    requires k < |nodes| && Distinct(head, nodes)
    requires forall i | 0 <= i <= |nodes| && i != k && i != k + 1 :: Linked(head, nodes, i)
    requires At(head, nodes, k - 1).next == At(head, nodes, k + 1)
    requires At(head, nodes, k + 1).prev == At(head, nodes, k - 1)
    ensures Ring(head, nodes[..k] + nodes[k + 1..])
  {
    var r := nodes[..k] + nodes[k + 1..];
    assert Distinct(head, r) by {
      assert forall i | 0 <= i < |r| :: r[i] == if i < k then nodes[i] else nodes[i + 1];
    }
    forall i | 0 <= i <= |r| ensures Linked(head, r, i) {
      AtDeleted(head, nodes, k, i);
      AtDeleted(head, nodes, k, i - 1);
      if i < k {
        assert Linked(head, nodes, i);
      } else if i > k {
        assert Linked(head, nodes, i + 1);
      }
    }
  }

  lemma AtDeleted(head: ListEntry, nodes: seq<ListEntry>, k: nat, i: int)
    requires k < |nodes| && -1 <= i < |nodes|
    ensures At(head, nodes[..k] + nodes[k + 1..], i) == At(head, nodes, if i < k then i else i + 1)
  {}

  method ListEmpty(head: ListEntry, ghost nodes: seq<ListEntry>) returns (empty: bool)
    requires Ring(head, nodes)
    ensures empty <==> nodes == []
  {
    assert Linked(head, nodes, 0);
    empty := head.next == head;
  }

  /** LIST_FOR_EACH_ENTRY visits every entry once, in order. */
  method ForEach(head: ListEntry, ghost nodes: seq<ListEntry>) returns (visited: seq<ListEntry>)
    requires Ring(head, nodes)
    ensures visited == nodes
  {
    assert Linked(head, nodes, 0);
    var pos := head.next;
    visited := [];
    while pos != head
      invariant |visited| <= |nodes| && visited == nodes[..|visited|] && pos == At(head, nodes, |visited|)
      decreases |nodes| - |visited|
    {
      assert Linked(head, nodes, |visited| + 1);
      visited := visited + [pos];
      pos := pos.next;
    }
  }

  /** The pointers determine the list: two sequences read off the same ring are the same. */
  lemma {:induction false} RingUnique(head: ListEntry, a: seq<ListEntry>, b: seq<ListEntry>, k: nat)
    requires Ring(head, a) && Ring(head, b) && k <= |a| && k <= |b| && a[..k] == b[..k]
    ensures a == b
    decreases |a| - k
  {
    assert Linked(head, a, k) && Linked(head, b, k);
    assert At(head, a, k - 1) == At(head, b, k - 1);
    if k < |a| && k < |b| {
      assert a[..k + 1] == a[..k] + [a[k]] && b[..k + 1] == b[..k] + [b[k]];
      RingUnique(head, a, b, k + 1);
    }
  }
}
