/** The intrusive circular list of include/list.h: a head and the nodes linked
    to it form a ring, which stands for the sequence of the nodes. */
module LinkedList {

  /** A list_head inside some object; `item` stands for that object. */
  class Node {
    var prev: Node?
    var next: Node?
    const item: int

    constructor (item: int)
      ensures this.item == item && prev == null && next == null
    {
      this.item := item;
      prev, next := null, null;
    }
  }

  /** The ring in order: the head first. */
  ghost function Around(head: Node, s: seq<Node>): seq<Node> {
    [head] + s
  }

  ghost predicate Distinct(r: seq<Node>) {
    forall i, j :: 0 <= i < j < |r| ==> r[i] != r[j]
  }

  /** `head` and the nodes of `s`, in this order, form a circular doubly linked
      list. */
  ghost predicate Ring(head: Node, s: seq<Node>)
    reads head, s
  {
    var r := Around(head, s);
    && Distinct(r)
    && (forall i {:trigger r[i].next} :: 0 <= i < |r| ==> r[i].next == r[if i + 1 == |r| then 0 else i + 1])
    && (forall i {:trigger r[i].prev} :: 0 <= i < |r| ==> r[i].prev == r[if i == 0 then |r| - 1 else i - 1])
  }

  /** list_head_init() */
  method HeadInit(head: Node)
    modifies head
    ensures Ring(head, [])
  {
    head.next := head;
    head.prev := head;
  }

  /** __list_add() */
  method Insert(node: Node, prev: Node, next: Node)
    requires node != prev && node != next
    modifies node, prev, next
    ensures node.prev == prev && node.next == next
    ensures prev.next == node && next.prev == node
    ensures prev != next ==> prev.prev == old(prev.prev) && next.next == old(next.next)
  {
    prev.next := node;
    node.prev := prev;
    node.next := next;
    next.prev := node;
  }

  /** list_add_tail() */
  method AddTail(node: Node, head: Node, ghost s: seq<Node>)
    requires Ring(head, s) && node != head && node !in s
    modifies node, head, s
    ensures Ring(head, s + [node])
  {
    ghost var r := Around(head, s);
    assert r[0] == head;
    assert head.prev == r[|r| - 1];
    Insert(node, head.prev, head);
    ghost var r' := Around(head, s + [node]);
    assert r' == r + [node];
  }

  lemma OnlyAt(r: seq<Node>, k: nat)
    requires Distinct(r) && k < |r|
    ensures forall i :: 0 <= i < |r| && i != k ==> r[i] != r[k]
  {
  }

  /** Its neighbours skip the node behind `k`; no other link changes. */
  twostate predicate Skipped(r: seq<Node>, k: nat)
    requires k + 1 < |r|
    reads r
  {
    var after := if k + 2 == |r| then 0 else k + 2;
    && r[k].next == r[after] && r[after].prev == r[k]
    && (forall i {:trigger r[i].next} :: 0 <= i < |r| && i != k && i != k + 1 ==> r[i].next == old(r[i].next))
    && (forall i {:trigger r[i].prev} :: 0 <= i < |r| && i != after && i != k + 1 ==> r[i].prev == old(r[i].prev))
  }

  /** All links of the ring `r`, but for those of its node `k + 1` and those
      that used to lead to it. */
  ghost predicate AlmostRing(r: seq<Node>, k: nat)
    requires k + 1 < |r|
    reads r
  {
    var n := |r|;
    var after := if k + 2 == n then 0 else k + 2;
    && Distinct(r)
    && r[k].next == r[after] && r[after].prev == r[k]
    && (forall i {:trigger r[i].next} :: 0 <= i < n && i != k && i != k + 1 ==>
          r[i].next == r[if i + 1 == n then 0 else i + 1])
    && (forall i {:trigger r[i].prev} :: 0 <= i < n && i != after && i != k + 1 ==>
          r[i].prev == r[if i == 0 then n - 1 else i - 1])
  }

  /** Where a node of the shorter ring was in the longer one. */
  function Old(i: nat, k: nat): nat {
    if i <= k then i else i + 1
  }

  lemma Shorter(head: Node, s: seq<Node>, k: nat)
    requires k < |s|
    ensures var r, r' := Around(head, s), Around(head, s[..k] + s[k + 1..]);
            |r'| == |r| - 1 && forall i :: 0 <= i < |r'| ==> r'[i] == r[Old(i, k)]
  {
  }

  lemma LinksWithout(r: seq<Node>, r': seq<Node>, k: nat, i: nat)
    requires k + 1 < |r| && AlmostRing(r, k)
    requires |r'| == |r| - 1 && forall j :: 0 <= j < |r'| ==> r'[j] == r[Old(j, k)]
    requires i < |r'|
    ensures r'[i].next == r'[if i + 1 == |r'| then 0 else i + 1]
    ensures r'[i].prev == r'[if i == 0 then |r'| - 1 else i - 1]
  {
    assert r'[i] == r[Old(i, k)];
    assert r'[0] == r[0] && r'[|r'| - 1] == r[Old(|r'| - 1, k)];
  }

  lemma AlmostDistinct(r: seq<Node>, k: nat)
    requires k + 1 < |r| && AlmostRing(r, k)
    ensures Distinct(r)
  {
  }

  lemma DistinctWithout(r: seq<Node>, r': seq<Node>, k: nat)
    requires k + 1 < |r| && Distinct(r)
    requires |r'| == |r| - 1 && forall j :: 0 <= j < |r'| ==> r'[j] == r[Old(j, k)]
    ensures Distinct(r')
  {
    forall i, j | 0 <= i < j < |r'| ensures r'[i] != r'[j] {
      assert r[Old(i, k)] != r[Old(j, k)];
    }
  }

  /** A ring without one of its nodes, whose neighbours know each other. */
  lemma RingWithout(head: Node, s: seq<Node>, k: nat)
    requires k < |s| && AlmostRing(Around(head, s), k)
    ensures Ring(head, s[..k] + s[k + 1..])
  {
    var r, r' := Around(head, s), Around(head, s[..k] + s[k + 1..]);
    Shorter(head, s, k);
    hide AlmostRing, Around;
    forall i | 0 <= i < |r'|
      ensures r'[i].next == r'[if i + 1 == |r'| then 0 else i + 1]
      ensures r'[i].prev == r'[if i == 0 then |r'| - 1 else i - 1]
    {
      LinksWithout(r, r', k, i);
    }
    assert Distinct(r) by {
      AlmostDistinct(r, k);
    }
    DistinctWithout(r, r', k);
  }

  /** list_del(): the two neighbours meet; the node itself is poisoned. */
  method Delete(node: Node, head: Node, ghost s: seq<Node>, ghost k: nat)
    requires Ring(head, s) && k < |s| && s[k] == node
    modifies node, head, s
    ensures Ring(head, s[..k] + s[k + 1..])
    ensures node.next == null && node.prev == null
  {
    ghost var r := Around(head, s);
    ghost var n := |r|;
    assert r[k + 1] == node && node.prev == r[k];
    ghost var after := if k + 2 == n then 0 else k + 2;
    assert node.next == r[after];
    var prev, next := node.prev, node.next;
    OnlyAt(r, k);
    OnlyAt(r, k + 1);
    OnlyAt(r, after);
    next.prev := prev;
    prev.next := next;
    node.next := null;
    node.prev := null;
    assert Skipped(r, k);
    assert AlmostRing(r, k);
    RingWithout(head, s, k);
  }

  /** list_is_empty() */
  method IsEmpty(head: Node, ghost s: seq<Node>) returns (b: bool)
    requires Ring(head, s)
    ensures b <==> s == []
  {
    ghost var r := Around(head, s);
    assert r[0] == head;
    b := head.next == head;
  }

  /** list_last_entry() */
  method Last(head: Node, ghost s: seq<Node>) returns (node: Node)
    requires Ring(head, s) && s != []
    ensures node == s[|s| - 1]
  {
    ghost var r := Around(head, s);
    assert r[0] == head;
    node := head.prev;
  }
}
