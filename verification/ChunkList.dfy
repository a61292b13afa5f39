/**
 The singly linked lists behind a chunk queue: the live list with its head and tail pointers
 and the stack of recycled chunks with its counter. Each primitive is one sequence operation.
 */
module ChunkList {
  import opened Seqs
  import opened Chains

  class Chunk<T> {
    var data: T
    var next: Chunk?<T>

    constructor (data: T)
      ensures this.data == data && next == null
    {
      this.data := data;
      next := null;
    }
  }

  ghost function At<T>(s: seq<Chunk<T>>, i: nat): Chunk?<T> {
    if i < |s| then s[i] else null
  }

  ghost function Last<T>(s: seq<Chunk<T>>): Chunk?<T> {
    if s == [] then null else s[|s| - 1]
  }

  /** Following next from head visits exactly the nodes and ends in null. */
  ghost predicate Linked<T>(head: Chunk?<T>, l: Chain<Chunk<T>>)
    reads l.own`next
  {
    match l
    case Chain(s, own) =>
      && Distinct(s) && head == At(s, 0)
      && (forall i :: 0 <= i < |s| ==> s[i] in own)
      && (forall i {:trigger s[i].next} :: 0 <= i < |s| ==> s[i].next == At(s, i + 1))
  }

  /** The chunks hold these data. */
  ghost predicate Carries<T>(l: Chain<Chunk<T>>, data: seq<T>)
    reads l.own`data
  {
    match l
    case Chain(s, own) =>
      && |s| == |data| && (forall i :: 0 <= i < |s| ==> s[i] in own)
      && (forall i {:trigger s[i].data} {:trigger data[i]} :: 0 <= i < |s| ==> s[i].data == data[i])
  }

  lemma LinkedRest<T>(head: Chunk?<T>, l: Chain<Chunk<T>>)
    requires Linked(head, l) && l.nodes != []
    ensures head == l.nodes[0] && head in l.own && Linked(head.next, Rest(l)) &&
      Last(Rest(l).nodes) == if |l.nodes| == 1 then null else Last(l.nodes)
  {
  }

  lemma LinkedCons<T>(c: Chunk<T>, l: Chain<Chunk<T>>)
    requires Linked(c.next, l) && c !in l.own
    ensures Linked(c, Cons(c, l))
  {
    var s, r := l.nodes, [c] + l.nodes;
    forall i | 0 <= i < |r| ensures r[i].next == At(r, i + 1) {
      if i > 0 { assert r[i] == s[i - 1]; }
    }
  }

  /** The nodes are linked up to the last one, whose next field points to c. */
  ghost predicate LinkedTo<T>(l: Chain<Chunk<T>>, c: Chunk<T>)
    reads l.own`next
  {
    match l
    case Chain(s, own) =>
      && Distinct(s) && c !in own && (forall i :: 0 <= i < |s| ==> s[i] in own)
      && (forall i {:trigger s[i].next} :: 0 <= i < |s| ==> s[i].next == At(s + [c], i + 1))
  }

  lemma LinkedSnoc<T>(head: Chunk<T>, l: Chain<Chunk<T>>, c: Chunk<T>)
    requires LinkedTo(l, c) && c.next == null && head == (if l.nodes == [] then c else l.nodes[0])
    ensures Linked(head, Snoc(l, c))
  {
    var s, r := l.nodes, l.nodes + [c];
    forall i | 0 <= i < |r| ensures r[i].next == At(r, i + 1) {
      if i < |s| { assert r[i] == s[i]; }
    }
  }

  lemma LinkedBoth<T>(first: Chunk<T>, l: Chain<Chunk<T>>, head: Chunk<T>, m: Chain<Chunk<T>>)
    requires LinkedTo(l, head) && Linked(head, m) && l.own !! m.own &&
      first == (if l.nodes == [] then head else l.nodes[0])
    ensures Linked(first, Both(l, m)) && Last(Both(l, m).nodes) == Last(m.nodes)
  {
    var s, t, r := l.nodes, m.nodes, l.nodes + m.nodes;
    forall i | 0 <= i < |r| ensures r[i].next == At(r, i + 1) {
      if i < |s| {
        assert r[i] == s[i] && s[i].next == At(s + [head], i + 1);
      } else {
        assert r[i] == t[i - |s|] && t[i - |s|].next == At(t, i - |s| + 1);
      }
    }
    assert forall i :: 0 <= i < |r| ==> r[i] == if i < |s| then s[i] else t[i - |s|];
  }

  lemma CarriesSnoc<T>(l: Chain<Chunk<T>>, data: seq<T>, c: Chunk<T>)
    requires Carries(l, data)
    ensures Carries(Snoc(l, c), data + [c.data])
  {
  }

  lemma CarriesCons<T>(l: Chain<Chunk<T>>, data: seq<T>, c: Chunk<T>)
    requires Carries(l, data)
    ensures Carries(Cons(c, l), [c.data] + data)
  {
  }

  lemma CarriesRest<T>(l: Chain<Chunk<T>>, data: seq<T>)
    requires Carries(l, data) && l.nodes != [] && Distinct(l.nodes)
    ensures |data| == |l.nodes| && l.nodes[0].data == data[0] && Carries(Rest(l), data[1..])
  {
  }

  lemma CarriesBoth<T>(l: Chain<Chunk<T>>, a: seq<T>, m: Chain<Chunk<T>>, b: seq<T>)
    requires Carries(l, a) && Carries(m, b)
    ensures Carries(Both(l, m), a + b)
  {
  }

  /** Links c in behind the last chunk of a list. */
  method LinkTail<T>(first: Chunk?<T>, last: Chunk?<T>, c: Chunk<T>, ghost l: Chain<Chunk<T>>)
    returns (first': Chunk?<T>, last': Chunk?<T>)
    requires Linked(first, l) && last == Last(l.nodes) && c !in l.own
    modifies l.own`next, c`next
    ensures Linked(first', Snoc(l, c)) && last' == c
  {
    c.next := null;
    if last != null {
      last.next := c;
    }
    first', last' := first, c;
    if first == null {
      first' := c;
    }
    assert LinkedTo(l, c);
    LinkedSnoc(first', l, c);
  }

  /** Links c in before the first chunk of a list. */
  method LinkHead<T>(first: Chunk?<T>, last: Chunk?<T>, c: Chunk<T>, ghost l: Chain<Chunk<T>>)
    returns (first': Chunk?<T>, last': Chunk?<T>)
    requires Linked(first, l) && last == Last(l.nodes) && c !in l.own
    modifies c`next
    ensures Linked(first', Cons(c, l)) && last' == Last([c] + l.nodes)
  {
    c.next := first;
    first', last' := c, if last == null then c else last;
    LinkedCons(c, l);
  }

  /** Unlinks the first chunk of a list. */
  method UnlinkHead<T>(first: Chunk<T>, last: Chunk?<T>, ghost l: Chain<Chunk<T>>)
    returns (first': Chunk?<T>, last': Chunk?<T>)
    requires Linked(first, l) && last == Last(l.nodes)
    ensures l.nodes != [] && l.nodes[0] == first && first in l.own
    ensures Linked(first', Rest(l)) && last' == Last(Rest(l).nodes)
  {
    LinkedRest(first, l);
    first', last' := first.next, if first == last then null else last;
  }

  /** Links all of one list in behind another; the nodes stay where they are. */
  method Splice<T>(first: Chunk?<T>, last: Chunk?<T>, head: Chunk<T>, tail: Chunk?<T>, ghost l: Chain<Chunk<T>>,
                   ghost m: Chain<Chunk<T>>)
    returns (first': Chunk?<T>, last': Chunk?<T>)
    requires Linked(first, l) && last == Last(l.nodes) && Linked(head, m) && tail == Last(m.nodes) && l.own !! m.own
    modifies l.own`next
    ensures Linked(first', Both(l, m)) && last' == Last(Both(l, m).nodes)
  {
    first', last' := first, tail;
    if first == null {
      first' := head;
    } else {
      last.next := head;
    }
    assert LinkedTo(l, head);
    LinkedBoth(first', l, head, m);
  }

  /** Puts c on the stack of recycled chunks unless enough are kept already. */
  method PushUnused<T>(unused: Chunk?<T>, count: nat, c: Chunk<T>, blank: T, ghost l: Chain<Chunk<T>>)
    returns (unused': Chunk?<T>, count': nat)
    requires Linked(unused, l) && count == |l.nodes| && c !in l.own
    modifies c
    ensures count > 4 ==> unused' == unused && count' == count && Linked(unused', l)
    ensures count <= 4 ==> Linked(unused', Cons(c, l)) && count' == |[c] + l.nodes| && c.data == blank
  {
    unused', count' := unused, count;
    if count <= 4 {
      c.data := blank;
      c.next := unused;
      LinkedCons(c, l);
      unused', count' := c, count + 1;
    }
  }

  /** Takes a chunk from the stack of recycled ones, or a new one. */
  method GetUnused<T>(unused: Chunk?<T>, count: nat, blank: T, ghost l: Chain<Chunk<T>>)
    returns (c: Chunk<T>, unused': Chunk?<T>, count': nat)
    requires Linked(unused, l) && count == |l.nodes|
    modifies l.own`next
    ensures l.nodes == [] ==> fresh(c) && c.data == blank && unused' == null && count' == 0
    ensures l.nodes != [] ==> c == l.nodes[0] && c in l.own && Linked(unused', Rest(l)) && count' == |l.nodes| - 1
    ensures c.next == null
  {
    if unused == null {
      c := new Chunk<T>(blank);
      unused', count' := null, 0;
    } else {
      LinkedRest(unused, l);
      c := unused;
      unused', count' := c.next, count - 1;
      c.next := null;
    }
  }
}
