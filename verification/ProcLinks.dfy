/**
 The doubly linked lists behind a process pool. Taking a node out, putting one in front and
 moving one from list to list are each one sequence operation, and the lists stay disjoint.
 */
module ProcLinks {
  import opened Seqs
  import opened Chains

  class Node<T> {
    var data: T
    var prev: Node?<T>
    var next: Node?<T>

    constructor (data: T)
      ensures this.data == data && prev == null && next == null
    {
      this.data, prev, next := data, null, null;
    }
  }

  /** The node at position i, null outside the list. */
  ghost function At<T>(s: seq<Node<T>>, i: int): Node?<T> {
    if 0 <= i < |s| then s[i] else null
  }

  /** Both directions visit exactly the nodes. */
  ghost predicate Linked<T>(head: Node?<T>, l: Chain<Node<T>>)
    reads l.own`next, l.own`prev
  {
    match l
    case Chain(s, own) =>
      && Distinct(s) && head == At(s, 0)
      && (forall i :: 0 <= i < |s| ==> s[i] in own)
      && (forall i {:trigger s[i].next} :: 0 <= i < |s| ==> s[i].next == At(s, i + 1))
      && (forall i {:trigger s[i].prev} :: 0 <= i < |s| ==> s[i].prev == At(s, i - 1))
  }

  /** The nodes hold these data. */
  ghost predicate Carries<T>(l: Chain<Node<T>>, data: seq<T>)
    reads l.own`data
  {
    match l
    case Chain(s, own) =>
      && |s| == |data| && (forall i :: 0 <= i < |s| ==> s[i] in own)
      && (forall i {:trigger s[i].data} {:trigger data[i]} :: 0 <= i < |s| ==> s[i].data == data[i])
  }

  lemma CarriesCons<T>(l: Chain<Node<T>>, data: seq<T>, p: Node<T>)
    requires Carries(l, data)
    ensures Carries(Cons(p, l), [p.data] + data)
  {
  }

  lemma CarriesWithout<T>(l: Chain<Node<T>>, data: seq<T>, i: nat)
    requires Carries(l, data) && Distinct(l.nodes) && i < |l.nodes|
    ensures |data| == |l.nodes| && l.nodes[i] in l.own && l.nodes[i].data == data[i]
    ensures Carries(Without(l, i), Drop(data, i))
  {
    var s, t, d := l.nodes, Without(l, i).nodes, Drop(data, i);
    assert forall k :: 0 <= k < |t| ==>
      t[k] == s[if k < i then k else k + 1] && d[k] == data[if k < i then k else k + 1];
  }

  /** The links lead past position i. */
  ghost predicate Past<T>(l: Chain<Node<T>>, i: nat)
    requires i < |l.nodes|
    reads l.own`next, l.own`prev
  {
    match l
    case Chain(s, own) =>
      && Distinct(s) && (forall k :: 0 <= k < |s| ==> s[k] in own)
      && (forall k {:trigger s[k].next} :: 0 <= k < |s| && k != i ==>
            s[k].next == At(s, if k + 1 == i then i + 1 else k + 1))
      && (forall k {:trigger s[k].prev} :: 0 <= k < |s| && k != i ==>
            s[k].prev == At(s, if k - 1 == i then i - 1 else k - 1))
  }

  lemma PastIsLinked<T>(l: Chain<Node<T>>, i: nat)
    requires i < |l.nodes| && Past(l, i)
    ensures Linked(At(l.nodes, if i == 0 then 1 else 0), Without(l, i))
  {
    var s, t := l.nodes, Without(l, i).nodes;
    WithoutDistinct(l, i);
    WithoutAt(l, i, 0);
    forall k | 0 <= k < |t| ensures t[k].next == At(t, k + 1) && t[k].prev == At(t, k - 1) {
      WithoutAt(l, i, k);
      WithoutAt(l, i, k + 1);
      WithoutAt(l, i, k - 1);
    }
  }

  lemma WithoutAt<T>(l: Chain<Node<T>>, i: nat, k: int)
    requires i < |l.nodes| && k >= -1
    ensures At(Without(l, i).nodes, k) == At(l.nodes, if k < i then k else k + 1)
  {
  }

  lemma WithoutDistinct<T>(l: Chain<Node<T>>, i: nat)
    requires i < |l.nodes| && Distinct(l.nodes) && forall k :: 0 <= k < |l.nodes| ==> l.nodes[k] in l.own
    ensures Distinct(Without(l, i).nodes)
    ensures forall k :: 0 <= k < |l.nodes| - 1 ==> Without(l, i).nodes[k] in l.own - {l.nodes[i]}
  {
    var s, t := l.nodes, Without(l, i).nodes;
    assert forall k :: 0 <= k < |t| ==> t[k] == s[if k < i then k else k + 1];
  }

  /** Joins the neighbours of p; p itself keeps its links. */
  method Bypass<T>(head: Node?<T>, p: Node<T>, ghost l: Chain<Node<T>>, ghost i: nat) returns (head': Node?<T>)
    requires Linked(head, l) && i < |l.nodes| && l.nodes[i] == p
    modifies (l.own - {p})`next, (l.own - {p})`prev
    ensures p in l.own && Linked(head', Without(l, i))
  {
    head' := if p.prev == null then p.next else head;
    if p.next != null { p.next.prev := p.prev; }
    if p.prev != null { p.prev.next := p.next; }
    assert Past(l, i);
    PastIsLinked(l, i);
  }

  method PushFront<T>(head: Node?<T>, p: Node<T>, ghost l: Chain<Node<T>>)
    requires Linked(head, l) && p !in l.own && p.prev == null
    modifies l.own`prev, p`next
    ensures Linked(p, Cons(p, l))
  {
    p.next := head;
    if head != null { head.prev := p; }
    ghost var s, t := l.nodes, [p] + l.nodes;
    assert forall k :: 1 <= k < |t| ==> t[k] == s[k - 1];
  }

  /** Takes a node out for use elsewhere. */
  method Take<T>(head: Node?<T>, p: Node<T>, ghost l: Chain<Node<T>>, ghost i: nat) returns (head': Node?<T>)
    requires Linked(head, l) && i < |l.nodes| && l.nodes[i] == p
    modifies l.own`next, l.own`prev
    ensures p in l.own && Linked(head', Without(l, i)) && p.prev == null && p.next == null
  {
    head' := Bypass(head, p, l, i);
    p.prev, p.next := null, null;
  }

  /** Moves a node from the middle of one list to the front of another. */
  method Move<T>(first: Node?<T>, unused: Node?<T>, p: Node<T>, ghost l: Chain<Node<T>>, ghost i: nat,
                 ghost u: Chain<Node<T>>)
    returns (first': Node?<T>)
    requires Linked(first, l) && Linked(unused, u) && l.own !! u.own && i < |l.nodes| && l.nodes[i] == p
    modifies l.own`next, l.own`prev, u.own`next, u.own`prev
    ensures p in l.own && Linked(first', Without(l, i)) && Linked(p, Cons(p, u)) && Without(l, i).own !! Cons(p, u).own
  {
    first' := Bypass(first, p, l, i);
    p.prev := null;
    PushFront(unused, p, u);
  }
}
