/** The circular doubly linked list of src/main/list.h.

    A list is a head node and the items after it. In the source a node is embedded in the
    record it links; here it carries that record as `data`, which list operations leave alone. */
module LinkedRing {
  import opened Common

  class Node<T> {
    var prev: Node<T>
    var next: Node<T>
    var data: T
    /** The head of the list that the node was made for. */
    ghost const home: Node<T>

    /** INIT_LIST_HEAD: the head of an empty list. */
    constructor Head(data: T)
      ensures this.data == data && home == this && Ring(this, [])
    {
      this.data, home := data, this;
      prev, next := this, this;
    }

    constructor Item(data: T, ghost head: Node<T>)
      ensures this.data == data && home == head
    {
      this.data, home := data, head;
      prev, next := this, this;
    }
  }

  ghost predicate Differ<T>(items: seq<Node<T>>, i: nat, j: nat)
    requires i < |items| && j < |items|
  {
    items[i] != items[j]
  }

  /** No node stands in the list twice. */
  ghost predicate Distinct<T>(items: seq<Node<T>>) {
    forall i, j {:trigger Differ(items, i, j)} :: 0 <= i < j < |items| ==> Differ(items, i, j)
  }

  lemma Others<T>(items: seq<Node<T>>, k: nat)
    requires Distinct(items) && k < |items|
    ensures forall i :: 0 <= i < |items| && i != k ==> items[i] != items[k]
  {
    forall i | 0 <= i < |items| && i != k ensures items[i] != items[k] {
      if i < k { assert Differ(items, i, k); } else { assert Differ(items, k, i); }
    }
  }

  /** The node at position `i` of the ring: the head at 0 and again after the last item. */
  ghost function At<T>(head: Node<T>, items: seq<Node<T>>, i: nat): Node<T> {
    if 0 < i <= |items| then items[i - 1] else head
  }

  /** `head` and `items` form a ring in this order, in both directions. */
  ghost predicate Ring<T>(head: Node<T>, items: seq<Node<T>>)
    reads head, items
  {
    && head !in items
    && Distinct(items)
    && head.next == At(head, items, 1) && head.prev == At(head, items, |items|)
    && (forall i {:trigger items[i].next} :: 0 <= i < |items| ==> items[i].next == At(head, items, i + 2))
    && (forall i {:trigger items[i].prev} :: 0 <= i < |items| ==> items[i].prev == At(head, items, i))
  }

  /** list_add_tail */
  method AddTail<T>(item: Node<T>, head: Node<T>, ghost items: seq<Node<T>>)
    requires Ring(head, items) && item != head && item !in items
    modifies item`prev, item`next, head`prev, head.prev`next
    ensures Ring(head, items + [item])
  {
    if items != [] { Others(items, |items| - 1); }
    var prev := head.prev;
    prev.next := item;
    item.next := head;
    item.prev := prev;
    head.prev := item;
    ghost var all := items + [item];
    forall i, j {:trigger Differ(all, i, j)} | 0 <= i < j < |all| ensures Differ(all, i, j) {
      if j < |items| { assert Differ(items, i, j); }
    }
    assert forall i {:trigger all[i].next} :: 0 <= i < |items| ==> all[i] == items[i];
  }

  /** list_add */
  method Add<T>(item: Node<T>, head: Node<T>, ghost items: seq<Node<T>>)
    requires Ring(head, items) && item != head && item !in items
    modifies item`prev, item`next, head`next, head.next`prev
    ensures Ring(head, [item] + items)
  {
    if items != [] { Others(items, 0); }
    var next := head.next;
    next.prev := item;
    item.next := next;
    item.prev := head;
    head.next := item;
    ghost var all := [item] + items;
    forall i, j {:trigger Differ(all, i, j)} | 0 <= i < j < |all| ensures Differ(all, i, j) {
      if i > 0 { assert Differ(items, i - 1, j - 1); }
    }
    assert forall i {:trigger all[i].prev} {:trigger all[i].next} :: 0 < i < |all| ==> all[i] == items[i - 1];
  }

  /** list_del: needs neither the head nor the position. */
  method Del<T>(entry: Node<T>, ghost head: Node<T>, ghost items: seq<Node<T>>, ghost k: nat)
    requires Ring(head, items) && k < |items| && items[k] == entry
    modifies entry.next`prev, entry.prev`next
    ensures Ring(head, Without(items, k))
    ensures entry.next == old(entry.next) && entry.prev == old(entry.prev)
  {
    Others(items, k);
    if k > 0 { Others(items, k - 1); }
    if k + 1 < |items| { Others(items, k + 1); }
    var next := entry.next;
    var prev := entry.prev;
    next.prev := prev;
    prev.next := next;
    Bypassed(head, items, k);
  }

  /** The links of a ring whose item `k` has been bypassed make a ring without it. */
  lemma Bypassed<T>(head: Node<T>, items: seq<Node<T>>, k: nat)
    requires k < |items| && head !in items && Distinct(items)
    requires head.next == At(head, items, if k == 0 then 2 else 1)
    requires head.prev == At(head, items, if k == |items| - 1 then k else |items|)
    requires forall i {:trigger items[i].next} :: 0 <= i < |items| ==>
               items[i].next == At(head, items, if i + 1 == k then i + 3 else i + 2)
    requires forall i {:trigger items[i].prev} :: 0 <= i < |items| ==>
               items[i].prev == At(head, items, if i == k + 1 then i - 1 else i)
    ensures Ring(head, Without(items, k))
  {
    var rest := Without(items, k);
    WithoutDistinct(head, items, k);
    forall i {:trigger rest[i].next} | 0 <= i < |rest| ensures rest[i].next == At(head, rest, i + 2) {
      var j := if i < k then i else i + 1;
      AtWithout(head, items, k, i + 2);
      assert rest[i] == items[j] && items[j].next == At(head, items, if j + 1 == k then j + 3 else j + 2);
    }
    forall i {:trigger rest[i].prev} | 0 <= i < |rest| ensures rest[i].prev == At(head, rest, i) {
      var j := if i < k then i else i + 1;
      AtWithout(head, items, k, i);
      assert rest[i] == items[j] && items[j].prev == At(head, items, if j == k + 1 then j - 1 else j);
    }
    AtWithout(head, items, k, 1);
    AtWithout(head, items, k, |rest|);
  }

  lemma WithoutDistinct<T>(head: Node<T>, items: seq<Node<T>>, k: nat)
    requires k < |items| && head !in items && Distinct(items)
    ensures head !in Without(items, k) && Distinct(Without(items, k))
  {
    var rest := Without(items, k);
    forall i, j {:trigger Differ(rest, i, j)} | 0 <= i < j < |rest| ensures Differ(rest, i, j) {
      assert Differ(items, if i < k then i else i + 1, if j < k then j else j + 1);
    }
  }

  lemma AtWithout<T>(head: Node<T>, items: seq<Node<T>>, k: nat, i: nat)
    requires k < |items|
    ensures At(head, Without(items, k), i) == At(head, items, if i <= k then i else i + 1)
  {
  }

  /** list_empty */
  method Empty<T>(head: Node<T>, ghost items: seq<Node<T>>) returns (r: bool)
    requires Ring(head, items)
    ensures r <==> items == []
  {
    r := head.next == head;
  }

  /** list_for_each_entry_safe_t with list_del on every entry: `safe` is read before its
      predecessor goes. */
  method DeleteAll<T>(head: Node<T>, ghost items: seq<Node<T>>)
    requires Ring(head, items)
    modifies head, items
    ensures Ring(head, [])
    ensures head.data == old(head.data)
  {
    var pos := head.next;
    var safe := pos.next;
    ghost var left := items;
    while pos != head
      invariant Ring(head, left) && (forall n :: n in left ==> n in items) && head.data == old(head.data)
      invariant pos == At(head, left, 1)
      invariant left != [] ==> safe == At(head, left, 2)
      decreases |left|
    {
      assert pos == left[0] && left[0].next == At(head, left, 2) && left[0].prev == At(head, left, 0);
      assert pos.next == head || pos.next in left;
      Del(pos, head, left, 0);
      left := Without(left, 0);
      pos := safe;
      safe := safe.next;
    }
  }
}
