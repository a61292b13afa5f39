/**
 The parser generator's bottom-up list merge sort. Nodes are taken one at a time and
 carried through an array of bins like a binary counter: bin i holds nothing or a sorted
 run of exactly 2^i nodes. The specification is insertion sort, which fixes one stable
 sorted permutation of the input.
 */
module MergeSort {
  import opened Seqs

  /** less is the strict part of a total preorder on U. */
  ghost predicate OrderOn<N>(less: (N, N) -> bool, U: set<N>) {
    && (forall x, y :: x in U && y in U && less(x, y) ==> !less(y, x))
    && (forall x, y, z :: x in U && y in U && z in U && less(x, y) ==> less(x, z) || less(z, y))
  }

  ghost predicate AllIn<N>(s: seq<N>, U: set<N>) {
    forall i :: 0 <= i < |s| ==> s[i] in U
  }

  function InsertFront<N>(less: (N, N) -> bool, x: N, l: seq<N>): seq<N> {
    if l == [] || !less(l[0], x) then [x] + l else [l[0]] + InsertFront(less, x, l[1..])
  }

  /** The reference: each node goes in front of those it does not exceed. */
  function ISort<N>(less: (N, N) -> bool, s: seq<N>): seq<N> {
    if s == [] then [] else InsertFront(less, s[0], ISort(less, s[1..]))
  }

  /** Merges newer into older; on a tie the older node comes first. */
  function MergeSeq<N>(less: (N, N) -> bool, newer: seq<N>, older: seq<N>): seq<N> {
    if newer == [] then older
    else if older == [] then newer
    else if less(newer[0], older[0]) then [newer[0]] + MergeSeq(less, newer[1..], older)
    else [older[0]] + MergeSeq(less, newer, older[1..])
  }

  // ----- insertion sort is a stable sort

  ghost predicate Sorted<N>(less: (N, N) -> bool, s: seq<N>) {
    forall i, j :: 0 <= i < j < |s| ==> !less(s[j], s[i])
  }

  lemma {:induction false} InsertFrontElems<N>(less: (N, N) -> bool, x: N, l: seq<N>)
    ensures multiset(InsertFront(less, x, l)) == multiset{x} + multiset(l)
  {
    if !(l == [] || !less(l[0], x)) {
      InsertFrontElems(less, x, l[1..]);
      assert l == [l[0]] + l[1..];
    }
  }

  lemma {:induction false} ISortElems<N>(less: (N, N) -> bool, s: seq<N>)
    ensures multiset(ISort(less, s)) == multiset(s)
  {
    if s != [] {
      ISortElems(less, s[1..]);
      InsertFrontElems(less, s[0], ISort(less, s[1..]));
      assert s == [s[0]] + s[1..];
    }
  }

  lemma {:induction false} InsertFrontIn<N>(less: (N, N) -> bool, x: N, l: seq<N>, U: set<N>)
    ensures |InsertFront(less, x, l)| == |l| + 1
    ensures AllIn(InsertFront(less, x, l), U) <==> x in U && AllIn(l, U)
  {
    var r := InsertFront(less, x, l);
    if l == [] || !less(l[0], x) {
      assert r[0] == x && r[1..] == l;
    } else {
      InsertFrontIn(less, x, l[1..], U);
      assert r[0] == l[0] && r[1..] == InsertFront(less, x, l[1..]);
    }
  }

  lemma {:induction false} ISortIn<N>(less: (N, N) -> bool, s: seq<N>, U: set<N>)
    ensures |ISort(less, s)| == |s|
    ensures AllIn(ISort(less, s), U) <==> AllIn(s, U)
  {
    if s != [] {
      ISortIn(less, s[1..], U);
      InsertFrontIn(less, s[0], ISort(less, s[1..]), U);
      assert AllIn(s, U) <==> s[0] in U && AllIn(s[1..], U);
    }
  }

  lemma {:induction false} InsertFrontSorted<N>(less: (N, N) -> bool, x: N, l: seq<N>, U: set<N>)
    requires OrderOn(less, U) && x in U && AllIn(l, U) && Sorted(less, l)
    ensures Sorted(less, InsertFront(less, x, l))
  {
    if l == [] {
    } else if !less(l[0], x) {
      assert forall j :: 0 < j < |l| ==> !less(l[j], l[0]);
    } else {
      InsertFrontSorted(less, x, l[1..], U);
      InsertFrontAbove(less, x, l[1..], l[0]);
    }
  }

  lemma {:induction false} InsertFrontAbove<N>(less: (N, N) -> bool, x: N, l: seq<N>, y: N)
    requires !less(x, y) && forall i :: 0 <= i < |l| ==> !less(l[i], y)
    ensures forall i :: 0 <= i < |InsertFront(less, x, l)| ==> !less(InsertFront(less, x, l)[i], y)
  {
    if !(l == [] || !less(l[0], x)) {
      InsertFrontAbove(less, x, l[1..], y);
    }
  }

  lemma {:induction false} ISortSorted<N>(less: (N, N) -> bool, s: seq<N>, U: set<N>)
    requires OrderOn(less, U) && AllIn(s, U)
    ensures Sorted(less, ISort(less, s))
  {
    if s != [] {
      ISortSorted(less, s[1..], U);
      ISortIn(less, s[1..], U);
      InsertFrontSorted(less, s[0], ISort(less, s[1..]), U);
    }
  }

  /** The elements of s that tie with x, in order. */
  function Ties<N>(less: (N, N) -> bool, x: N, s: seq<N>): seq<N> {
    if s == [] then []
    else if !less(x, s[0]) && !less(s[0], x) then [s[0]] + Ties(less, x, s[1..])
    else Ties(less, x, s[1..])
  }

  lemma TiesCons<N>(less: (N, N) -> bool, y: N, x: N, s: seq<N>)
    ensures Ties(less, y, [x] + s) ==
            (if !less(y, x) && !less(x, y) then [x] else []) + Ties(less, y, s)
  {
    assert ([x] + s)[1..] == s;
  }

  lemma {:induction false} InsertFrontTies<N>(less: (N, N) -> bool, x: N, y: N, l: seq<N>, U: set<N>)
    requires OrderOn(less, U) && x in U && y in U && AllIn(l, U)
    ensures Ties(less, y, InsertFront(less, x, l)) == Ties(less, y, [x] + l)
  {
    if !(l == [] || !less(l[0], x)) {
      InsertFrontTies(less, x, y, l[1..], U);
      TiesCons(less, y, l[0], InsertFront(less, x, l[1..]));
      TiesCons(less, y, x, l[1..]);
      TiesCons(less, y, x, l);
      assert l[0] in U;
    }
  }

  /** Stability: elements that tie keep their input order. */
  lemma {:induction false} ISortStable<N>(less: (N, N) -> bool, y: N, s: seq<N>, U: set<N>)
    requires OrderOn(less, U) && y in U && AllIn(s, U)
    ensures Ties(less, y, ISort(less, s)) == Ties(less, y, s)
  {
    if s != [] {
      ISortStable(less, y, s[1..], U);
      ISortIn(less, s[1..], U);
      InsertFrontTies(less, s[0], y, ISort(less, s[1..]), U);
      TiesCons(less, y, s[0], ISort(less, s[1..]));
    }
  }

  /** R relates every two elements at different positions. */
  ghost predicate Pairwise<N>(R: (N, N) -> bool, s: seq<N>) {
    forall i, j :: 0 <= i < j < |s| ==> R(s[i], s[j]) && R(s[j], s[i])
  }

  ghost predicate RelatesAll<N>(R: (N, N) -> bool, x: N, s: seq<N>) {
    forall i :: 0 <= i < |s| ==> R(x, s[i]) && R(s[i], x)
  }

  lemma {:induction false} InsertFrontRelates<N>(less: (N, N) -> bool, R: (N, N) -> bool, x: N, y: N, l: seq<N>)
    ensures RelatesAll(R, y, InsertFront(less, x, l)) <==> RelatesAll(R, y, [x] + l)
  {
    if !(l == [] || !less(l[0], x)) {
      InsertFrontRelates(less, R, x, y, l[1..]);
      assert RelatesAll(R, y, [x] + l) <==> RelatesAll(R, y, [l[0]]) && RelatesAll(R, y, [x] + l[1..]) by {
        assert forall i :: 1 <= i < |l| ==> l[i] == ([x] + l[1..])[i] == ([x] + l)[i + 1];
        assert ([x] + l)[0] == x == ([x] + l[1..])[0] && ([x] + l)[1] == l[0] == [l[0]][0];
      }
      var r := InsertFront(less, x, l[1..]);
      assert RelatesAll(R, y, [l[0]] + r) <==> RelatesAll(R, y, [l[0]]) && RelatesAll(R, y, r) by {
        assert forall i :: 0 <= i < |r| ==> r[i] == ([l[0]] + r)[i + 1];
        assert ([l[0]] + r)[0] == l[0] == [l[0]][0];
      }
    }
  }

  lemma {:induction false} InsertFrontPairwise<N>(less: (N, N) -> bool, R: (N, N) -> bool, x: N, l: seq<N>)
    requires Pairwise(R, l) && RelatesAll(R, x, l)
    ensures Pairwise(R, InsertFront(less, x, l))
  {
    if !(l == [] || !less(l[0], x)) {
      InsertFrontPairwise(less, R, x, l[1..]);
      InsertFrontRelates(less, R, x, l[0], l[1..]);
      var r := InsertFront(less, x, l[1..]);
      assert RelatesAll(R, l[0], [x] + l[1..]);
      assert Pairwise(R, [l[0]] + r);
    }
  }

  lemma {:induction false} ISortRelates<N>(less: (N, N) -> bool, R: (N, N) -> bool, y: N, s: seq<N>)
    ensures RelatesAll(R, y, ISort(less, s)) <==> RelatesAll(R, y, s)
  {
    if s != [] {
      ISortRelates(less, R, y, s[1..]);
      var r := ISort(less, s[1..]);
      InsertFrontRelates(less, R, s[0], y, r);
      assert RelatesAll(R, y, [s[0]] + r) <==> RelatesAll(R, y, [s[0]]) && RelatesAll(R, y, r) by {
        assert forall i :: 0 <= i < |r| ==> r[i] == ([s[0]] + r)[i + 1];
        assert ([s[0]] + r)[0] == s[0] == [s[0]][0];
      }
      assert RelatesAll(R, y, s) <==> RelatesAll(R, y, [s[0]]) && RelatesAll(R, y, s[1..]) by {
        assert forall i :: 1 <= i < |s| ==> s[i] == s[1..][i - 1];
        assert [s[0]][0] == s[0];
      }
    }
  }

  /** Sorting keeps every relation that holds between elements at different positions. */
  lemma {:induction false} ISortPairwise<N>(less: (N, N) -> bool, R: (N, N) -> bool, s: seq<N>)
    requires Pairwise(R, s)
    ensures Pairwise(R, ISort(less, s))
  {
    if s != [] {
      assert forall i :: 1 <= i < |s| ==> s[i] == s[1..][i - 1];
      ISortPairwise(less, R, s[1..]);
      assert RelatesAll(R, s[0], s[1..]);
      ISortRelates(less, R, s[0], s[1..]);
      InsertFrontPairwise(less, R, s[0], ISort(less, s[1..]));
    }
  }

  // ----- merging sorted runs is sorting their concatenation

  lemma MergeCons<N>(less: (N, N) -> bool, x: N, newer: seq<N>, y: N, older: seq<N>)
    ensures MergeSeq(less, [x] + newer, [y] + older) ==
            if less(x, y) then [x] + MergeSeq(less, newer, [y] + older)
            else [y] + MergeSeq(less, [x] + newer, older)
  {
    assert ([x] + newer)[1..] == newer;
    assert ([y] + older)[1..] == older;
  }

  lemma InsertFrontCons<N>(less: (N, N) -> bool, x: N, y: N, l: seq<N>)
    ensures InsertFront(less, x, [y] + l) == if less(y, x) then [y] + InsertFront(less, x, l) else [x, y] + l
  {
    assert ([y] + l)[1..] == l;
    assert [x] + ([y] + l) == [x, y] + l;
  }

  lemma {:induction false} InsertIntoMerge<N>(less: (N, N) -> bool, x: N, newer: seq<N>, older: seq<N>, U: set<N>)
    requires OrderOn(less, U) && x in U && AllIn(newer, U) && AllIn(older, U)
    ensures InsertFront(less, x, MergeSeq(less, newer, older)) == MergeSeq(less, newer, InsertFront(less, x, older))
    decreases |newer| + |older|
  {
    if newer != [] {
      var n, newer' := newer[0], newer[1..];
      assert newer == [n] + newer';
      InsertIntoMerge(less, x, newer', older, U);
      if older == [] {
        InsertFrontCons(less, x, n, newer');
        MergeCons(less, n, newer', x, []);
        assert [x] + [] == [x];
        assert MergeSeq(less, newer', []) == newer';
      } else {
        InsertIntoMergeStep(less, x, n, newer', older[0], older[1..], U);
      }
    }
  }

  lemma {:induction false} InsertIntoMergeStep<N>(less: (N, N) -> bool, x: N, n: N, newer: seq<N>, o: N, older: seq<N>,
                                                  U: set<N>)
    requires OrderOn(less, U) && x in U && n in U && o in U && AllIn(newer, U) && AllIn(older, U)
    ensures InsertFront(less, x, MergeSeq(less, [n] + newer, [o] + older))
         == MergeSeq(less, [n] + newer, InsertFront(less, x, [o] + older))
    decreases |newer| + |older| + 2, 0
  {
    var N, O := [n] + newer, [o] + older;
    MergeCons(less, n, newer, o, older);
    InsertFrontCons(less, x, o, older);
    if less(n, o) {
      InsertIntoMerge(less, x, newer, O, U);
      InsertFrontCons(less, x, n, MergeSeq(less, newer, O));
    } else {
      InsertIntoMerge(less, x, N, older, U);
      InsertFrontCons(less, x, o, MergeSeq(less, N, older));
    }
    if less(o, x) {
      MergeCons(less, n, newer, o, InsertFront(less, x, older));
    } else {
      MergeCons(less, n, newer, x, O);
      assert [x] + O == [x, o] + older;
    }
  }

  /** Merging the sort of b into the sort of a is the sort of a + b. */
  lemma {:induction false} MergeIsSort<N>(less: (N, N) -> bool, a: seq<N>, b: seq<N>, U: set<N>)
    requires OrderOn(less, U) && AllIn(a, U) && AllIn(b, U)
    ensures MergeSeq(less, ISort(less, b), ISort(less, a)) == ISort(less, a + b)
  {
    if a == [] {
      assert a + b == b;
    } else {
      assert (a + b)[1..] == a[1..] + b;
      MergeIsSort(less, a[1..], b, U);
      var p, q := ISort(less, a[1..]), ISort(less, b);
      ISortIn(less, a[1..], U);
      ISortIn(less, b, U);
      InsertIntoMerge(less, a[0], q, p, U);
    }
  }

  // ----- the linked list

  class Node<T> {
    const data: T
    var next: Node?<T>

    constructor (data: T)
      ensures this.data == data && next == null
    {
      this.data := data;
      next := null;
    }
  }

  /** Following next from head visits exactly s and ends in null. */
  ghost predicate List<T>(head: Node?<T>, s: seq<Node<T>>)
    reads s
  {
    && Distinct(s)
    && head == At(s, 0)
    && forall i :: 0 <= i < |s| ==> s[i].next == At(s, i + 1)
  }

  ghost function At<T>(s: seq<Node<T>>, i: nat): Node?<T> {
    if i < |s| then s[i] else null
  }

  ghost predicate Apart<N>(a: seq<N>, b: seq<N>) {
    forall i, j :: 0 <= i < |a| && 0 <= j < |b| ==> a[i] != b[j]
  }

  /** The nodes of out are chained up to its last one, whose next field is still loose. */
  ghost predicate Chain<T>(out: seq<Node<T>>)
    reads out
  {
    Distinct(out) && forall i :: 0 <= i < |out| - 1 ==> out[i].next == out[i + 1]
  }

  /** The nodes of s from i on are still linked to each other and not yet in out. */
  ghost predicate Tail<T>(s: seq<Node<T>>, i: nat, out: seq<Node<T>>)
    reads s
  {
    forall k :: i <= k < |s| ==> s[k].next == At(s, k + 1) && s[k] !in out
  }

  /** Linking the chain to the rest of one list completes a null-terminated list. */
  lemma ListOf<T>(head: Node?<T>, out: seq<Node<T>>, s: seq<Node<T>>, i: nat)
    requires out != [] && head == out[0] && Chain(out) && Distinct(s) && i <= |s| && Tail(s, i, out)
    requires out[|out| - 1].next == At(s, i)
    ensures List(head, out + s[i..])
  {
    var r := out + s[i..];
    forall p, q | 0 <= p < q < |r| ensures r[p] != r[q] {
      if p < |out| <= q {
        assert r[q] == s[i + (q - |out|)] && r[p] in out;
      }
    }
    forall p | 0 <= p < |r| ensures r[p].next == At(r, p + 1) {
      if p >= |out| {
        assert r[p] == s[i + (p - |out|)];
      } else if p < |out| - 1 {
        assert r[p] == out[p];
      }
    }
  }

  lemma MergeUnfold<N>(less: (N, N) -> bool, sa: seq<N>, i: nat, sb: seq<N>, j: nat)
    requires i < |sa| && j < |sb|
    ensures MergeSeq(less, sa[i..], sb[j..]) ==
            if less(sa[i], sb[j]) then [sa[i]] + MergeSeq(less, sa[i + 1..], sb[j..])
            else [sb[j]] + MergeSeq(less, sa[i..], sb[j + 1..])
  {
    assert sa[i..][1..] == sa[i + 1..];
    assert sb[j..][1..] == sb[j + 1..];
  }

  /** What the merging loop keeps: out is merged and linked, sa[i..] and sb[j..] are not yet. */
  ghost predicate Merging<T>(less: (Node<T>, Node<T>) -> bool, out: seq<Node<T>>,
                             sa: seq<Node<T>>, i: nat, sb: seq<Node<T>>, j: nat)
    reads out, sa, sb
  {
    && i <= |sa| && j <= |sb| && out != []
    && Chain(out) && Tail(sa, i, out) && Tail(sb, j, out)
    && (out[|out| - 1] in sa || out[|out| - 1] in sb)
    && out + MergeSeq(less, sa[i..], sb[j..]) == MergeSeq(less, sa, sb)
  }

  lemma MergeMoves<N>(less: (N, N) -> bool, out: seq<N>, sa: seq<N>, i: nat, sb: seq<N>, j: nat)
    requires i < |sa| && j < |sb|
    ensures less(sa[i], sb[j]) ==>
              out + [sa[i]] + MergeSeq(less, sa[i + 1..], sb[j..]) == out + MergeSeq(less, sa[i..], sb[j..])
    ensures !less(sa[i], sb[j]) ==>
              out + [sb[j]] + MergeSeq(less, sa[i..], sb[j + 1..]) == out + MergeSeq(less, sa[i..], sb[j..])
  {
    MergeUnfold(less, sa, i, sb, j);
  }

  /** Moves the front node of s to the end of out by relinking ptr, the last node of out. */
  method Link<T>(ptr: Node<T>, ghost out: seq<Node<T>>, ghost s: seq<Node<T>>, ghost i: nat, ghost o: seq<Node<T>>,
                 ghost j: nat, n: Node<T>)
    requires out != [] && ptr == out[|out| - 1] && i < |s| && n == s[i]
    requires Chain(out) && Tail(s, i, out) && Tail(o, j, out) && Distinct(s) && Apart(s, o)
    modifies ptr
    ensures Chain(out + [n]) && Tail(s, i + 1, out + [n]) && Tail(o, j, out + [n])
    ensures n.next == At(s, i + 1)
  {
    ptr.next := n;
  }

  /** Ends the output with the rest of the one list that is left. */
  method Finish<T>(ptr: Node<T>, ghost out: seq<Node<T>>, ghost s: seq<Node<T>>, ghost i: nat, n: Node?<T>)
    requires out != [] && ptr == out[|out| - 1] && i <= |s| && n == At(s, i)
    requires Chain(out) && Tail(s, i, out) && Distinct(s)
    modifies ptr
    ensures List(out[0], out + s[i..])
  {
    ptr.next := n;
    ListOf(out[0], out, s, i);
  }

  /** One round of the loop: the smaller front node, or the older one on a tie, is linked next. */
  method Step<T>(a: Node<T>, b: Node<T>, ptr: Node<T>, less: (Node<T>, Node<T>) -> bool,
                 ghost out: seq<Node<T>>, ghost sa: seq<Node<T>>, ghost i: nat, ghost sb: seq<Node<T>>, ghost j: nat)
    returns (a': Node?<T>, b': Node?<T>, ptr': Node<T>, ghost out': seq<Node<T>>, ghost i': nat, ghost j': nat)
    requires Distinct(sa) && Distinct(sb) && Apart(sa, sb)
    requires Merging(less, out, sa, i, sb, j) && ptr == out[|out| - 1]
    requires i < |sa| && j < |sb| && a == sa[i] && b == sb[j]
    modifies ptr
    ensures Merging(less, out', sa, i', sb, j') && ptr' == out'[|out'| - 1] && out'[0] == out[0]
    ensures a' == At(sa, i') && b' == At(sb, j')
    ensures i' + j' == i + j + 1
  {
    MergeMoves(less, out, sa, i, sb, j);
    i', j' := i, j;
    if less(a, b) {
      Link(ptr, out, sa, i, sb, j, a);
      ptr' := a;
      a', b' := a.next, b;
      i' := i + 1;
    } else {
      Link(ptr, out, sb, j, sa, i, b);
      ptr' := b;
      a', b' := a, b.next;
      j' := j + 1;
    }
    out' := out + [ptr'];
  }

  /** The merging loop: both lists shrink until one of them is empty, which ends the output. */
  method MergeLoop<T>(a0: Node?<T>, b0: Node?<T>, ptr0: Node<T>, less: (Node<T>, Node<T>) -> bool,
                      ghost out0: seq<Node<T>>, ghost sa: seq<Node<T>>, ghost i0: nat, ghost sb: seq<Node<T>>,
                      ghost j0: nat)
    requires Distinct(sa) && Distinct(sb) && Apart(sa, sb)
    requires Merging(less, out0, sa, i0, sb, j0) && ptr0 == out0[|out0| - 1]
    requires a0 == At(sa, i0) && b0 == At(sb, j0)
    modifies sa, sb
    ensures List(out0[0], MergeSeq(less, sa, sb))
  {
    var a, b := a0, b0;
    var ptr: Node<T> := ptr0;
    ghost var out: seq<Node<T>>, i: nat, j: nat := out0, i0, j0;
    while a != null && b != null
      invariant Merging(less, out, sa, i, sb, j) && out[0] == out0[0]
      invariant a == At(sa, i) && b == At(sb, j) && ptr == out[|out| - 1]
      decreases |sa| - i + |sb| - j
    {
      a, b, ptr, out, i, j := Step(a, b, ptr, less, out, sa, i, sb, j);
    }
    if a != null {
      Finish(ptr, out, sa, i, a);
      assert MergeSeq(less, sa[i..], sb[j..]) == sa[i..];
    } else {
      Finish(ptr, out, sb, j, b);
      assert MergeSeq(less, sa[i..], sb[j..]) == sb[j..];
    }
  }

  /**
   Merges two null-terminated lists by relinking their nodes. The result visits exactly the
   nodes of MergeSeq, in that order.
   */
  method Merge<T>(a: Node?<T>, b: Node?<T>, less: (Node<T>, Node<T>) -> bool,
                  ghost sa: seq<Node<T>>, ghost sb: seq<Node<T>>)
    returns (head: Node?<T>)
    requires List(a, sa) && List(b, sb) && Apart(sa, sb)
    modifies sa, sb
    ensures List(head, MergeSeq(less, sa, sb))
  {
    if a == null {
      head := b;
    } else if b == null {
      head := a;
    } else {
      assert sa[0..] == sa && sb[0..] == sb;
      MergeMoves(less, [], sa, 0, sb, 0);
      if less(a, b) {
        head := a;
        MergeLoop(a.next, b, a, less, [a], sa, 1, sb, 0);
      } else {
        head := b;
        MergeLoop(a, b.next, b, less, [b], sa, 0, sb, 1);
      }
    }
  }

  // ----- the binary counter of bins

  function Pow2(i: nat): (p: nat)
    ensures p > 0
  {
    if i == 0 then 1 else 2 * Pow2(i - 1)
  }

  /** n with its low i bits shifted out. */
  function Shift(n: nat, i: nat): nat {
    if i == 0 then n else Shift(n, i - 1) / 2
  }

  /** n with its low i bits cleared. */
  function Floor(n: nat, i: nat): int {
    if i == 0 then n else Floor(n, i - 1) - Bit(n, i - 1)
  }

  /** The value of bit i of n. */
  function Bit(n: nat, i: nat): nat {
    if Shift(n, i) % 2 == 1 then Pow2(i) else 0
  }

  /** q * p, by repeated addition. */
  function Times(q: nat, p: nat): (t: nat)
    ensures q > 0 ==> t >= p
  {
    if q == 0 then 0 else p + Times(q - 1, p)
  }

  lemma {:induction false} TimesHalf(q: nat, p: nat)
    ensures Times(q, p) == Times(q / 2, 2 * p) + if q % 2 == 1 then p else 0
  {
    if q >= 2 {
      TimesHalf(q - 2, p);
      assert Times(q, p) == p + p + Times(q - 2, p);
      assert (q - 2) / 2 == q / 2 - 1;
    } else if q == 1 {
      assert Times(1, p) == p + Times(0, p);
    }
  }

  lemma {:induction false} FloorIsMultiple(n: nat, i: nat)
    ensures Floor(n, i) == Times(Shift(n, i), Pow2(i))
  {
    if i == 0 {
      TimesOne(n);
    } else {
      FloorIsMultiple(n, i - 1);
      TimesHalf(Shift(n, i - 1), Pow2(i - 1));
    }
  }

  lemma {:induction false} TimesOne(n: nat)
    ensures Times(n, 1) == n
  {
    if n > 0 { TimesOne(n - 1); }
  }

  lemma {:induction false} FloorBounds(n: nat, i: nat)
    ensures 0 <= Floor(n, i) <= n < Floor(n, i) + Pow2(i)
  {
    FloorIsMultiple(n, i);
    if i > 0 {
      FloorBounds(n, i - 1);
    }
  }

  lemma {:induction false} ShiftSame(m: nat, n: nat, i: nat, j: nat)
    requires i <= j && Shift(m, i) == Shift(n, i)
    ensures Shift(m, j) == Shift(n, j)
    decreases j - i
  {
    if i < j {
      ShiftSame(m, n, i, j - 1);
    }
  }

  /** How many of the first n nodes are no longer in any bin, when bin top is the last one. */
  function Lost(n: nat, top: nat): int {
    if Shift(n, top) == 0 then 0 else Floor(n, top) - Pow2(top)
  }

  /** The first node of L that bin i covers when n nodes have been taken. */
  function Lo(n: nat, i: nat, top: nat): int {
    if i < top then Floor(n, i + 1) else Lost(n, top)
  }

  lemma LoBelow(n: nat, i: nat, top: nat)
    requires i <= top
    ensures 0 <= Lo(n, i, top) <= Floor(n, i) <= n
    ensures i < top ==> Floor(n, i) - Lo(n, i, top) == Bit(n, i)
    ensures i == top ==> Floor(n, i) - Lo(n, i, top) == if Shift(n, i) == 0 then 0 else Pow2(i)
  {
    FloorBounds(n, i);
    FloorBounds(n, i + 1);
    FloorIsMultiple(n, i);
  }

  /** Exactly the lists shorter than 2^(top+1) keep all their nodes. */
  lemma LostNothing(n: nat, top: nat)
    ensures Lost(n, top) == 0 <==> n < Pow2(top + 1)
  {
    FloorBounds(n, top);
    FloorIsMultiple(n, top);
    var q, p := Shift(n, top), Pow2(top);
    if q >= 2 {
      assert Times(q, p) == p + Times(q - 1, p);
    } else if q == 1 {
      assert Times(q, p) == p + Times(0, p);
    }
  }

  lemma RunNodes<N>(less: (N, N) -> bool, L: seq<N>, p: nat, q: nat)
    requires p <= q <= |L|
    ensures |ISort(less, L[p..q])| == q - p
    ensures forall i :: 0 <= i < q - p ==> ISort(less, L[p..q])[i] in L[p..q]
  {
    var U := set x | x in L[p..q];
    ISortIn(less, L[p..q], U);
    assert AllIn(L[p..q], U);
  }

  /** The sorted run of the nodes that bin k covers. */
  ghost function Run<N>(less: (N, N) -> bool, L: seq<N>, n: nat, k: nat, top: nat): seq<N>
    requires k <= top && n <= |L|
  {
    LoBelow(n, k, top);
    ISort(less, L[Lo(n, k, top)..Floor(n, k)])
  }

  lemma RunInList<N>(less: (N, N) -> bool, L: seq<N>, n: nat, k: nat, top: nat)
    requires k <= top && n <= |L|
    ensures |Run(less, L, n, k, top)| == Floor(n, k) - Lo(n, k, top)
    ensures forall x :: x in Run(less, L, n, k, top) ==> x in L[..n]
  {
    LoBelow(n, k, top);
    RunNodes(less, L, Lo(n, k, top), Floor(n, k));
  }

  /** These are the runs of all bins after n nodes. */
  ghost predicate RunsAt<N>(runs: seq<seq<N>>, less: (N, N) -> bool, L: seq<N>, n: nat)
    requires n <= |L|
  {
    forall k :: 0 <= k < |runs| ==> runs[k] == Run(less, L, n, k, |runs| - 1)
  }

  /** From bin i on, each bin is the head of its run, and no two runs share a node. */
  ghost predicate Holds<T>(bins: array<Node?<T>>, i: nat, runs: seq<seq<Node<T>>>, S: set<Node<T>>)
    reads bins, S
  {
    && |runs| == bins.Length
    && (forall k | i <= k < |runs| :: Within(runs[k], S) && List(bins[k], runs[k]))
    && (forall k, m | i <= k < m < |runs| :: Apart(runs[k], runs[m]))
  }

  ghost predicate Within<N>(s: seq<N>, S: set<N>) {
    forall i :: 0 <= i < |s| ==> s[i] in S
  }

  ghost predicate ApartFrom<N>(s: seq<N>, i: nat, runs: seq<seq<N>>) {
    forall k | i <= k < |runs| :: Apart(s, runs[k])
  }

  lemma {:induction false} MergeNodes<N>(less: (N, N) -> bool, a: seq<N>, b: seq<N>)
    ensures |MergeSeq(less, a, b)| == |a| + |b|
    ensures forall i :: 0 <= i < |a| + |b| ==> MergeSeq(less, a, b)[i] in a || MergeSeq(less, a, b)[i] in b
    decreases |a| + |b|
  {
    if a != [] && b != [] {
      if less(a[0], b[0]) {
        MergeNodes(less, a[1..], b);
      } else {
        MergeNodes(less, a, b[1..]);
      }
    }
  }

  /** Merges a run that shares no node with the bins from i on with the run of bin i. */
  method MergeBin<T>(ep: Node?<T>, bins: array<Node?<T>>, i: nat, less: (Node<T>, Node<T>) -> bool,
                     ghost carried: seq<Node<T>>, ghost runs: seq<seq<Node<T>>>, ghost S: set<Node<T>>)
    returns (r: Node?<T>)
    requires i < bins.Length && Holds(bins, i, runs, S)
    requires List(ep, carried) && Within(carried, S) && ApartFrom(carried, i, runs)
    modifies S
    ensures List(r, MergeSeq(less, carried, runs[i])) && Within(MergeSeq(less, carried, runs[i]), S)
    ensures ApartFrom(MergeSeq(less, carried, runs[i]), i + 1, runs)
    ensures Holds(bins, i + 1, runs, S)
  {
    assert forall k :: i < k < |runs| ==> Apart(runs[i], runs[k]) && Apart(carried, runs[k]);
    r := Merge(ep, bins[i], less, carried, runs[i]);
    MergeNodes(less, carried, runs[i]);
  }

  /** The run that is carried into bin i when node n is added. */
  ghost function Carried<N>(less: (N, N) -> bool, L: seq<N>, n: nat, i: nat): seq<N>
    requires n < |L|
  {
    FloorBounds(n, i);
    ISort(less, L[Floor(n, i)..n + 1])
  }

  /** Merging the carried run into a full bin gives the run carried into the next bin. */
  lemma CarryMerges<N>(less: (N, N) -> bool, L: seq<N>, n: nat, i: nat, top: nat, U: set<N>)
    requires i < top && n < |L| && OrderOn(less, U) && AllIn(L, U)
    ensures MergeSeq(less, Carried(less, L, n, i), Run(less, L, n, i, top)) == Carried(less, L, n, i + 1)
  {
    FloorBounds(n, i);
    LoBelow(n, i, top);
    var a, b := L[Floor(n, i + 1)..Floor(n, i)], L[Floor(n, i)..n + 1];
    MergeIsSort(less, a, b, U);
    assert a + b == L[Floor(n, i + 1)..n + 1];
  }

  /** n + 1 is reached by a carry that has passed the low i bins. */
  ghost predicate CarryAt(n: nat, i: nat) {
    && Shift(n + 1, i) == Shift(n, i) + 1
    && n + 1 == Floor(n + 1, i)
    && forall k :: 0 <= k < i ==> Shift(n, k) % 2 == 1
  }

  lemma CarryStep(n: nat, i: nat)
    requires CarryAt(n, i) && Shift(n, i) % 2 == 1
    ensures CarryAt(n, i + 1)
  {
    assert Bit(n + 1, i) == 0;
  }

  /** Where the carry stops, the bins below are empty and the bins above keep their runs. */
  lemma Settled<N>(less: (N, N) -> bool, L: seq<N>, n: nat, i: nat, runs: seq<seq<N>>, runs': seq<seq<N>>)
    requires n < |L| && i < |runs| == |runs'| && CarryAt(n, i) && (i < |runs| - 1 ==> Shift(n, i) % 2 == 0)
    requires RunsAt(runs, less, L, n)
    requires forall k :: 0 <= k < i ==> runs'[k] == []
    requires runs'[i] == Carried(less, L, n, i)
    requires forall k :: i < k < |runs| ==> runs'[k] == runs[k]
    ensures RunsAt(runs', less, L, n + 1)
  {
    var top := |runs| - 1;
    forall k | 0 <= k <= top ensures runs'[k] == Run(less, L, n + 1, k, top) {
      if k < i {
        SettledBelow(less, L, n, i, k, top);
      } else if k == i {
        SettledHere(less, L, n, i, top);
      } else {
        SettledAbove(less, L, n, i, k, top);
      }
    }
  }

  lemma SettledBelow<N>(less: (N, N) -> bool, L: seq<N>, n: nat, i: nat, k: nat, top: nat)
    requires n < |L| && k < i <= top && CarryAt(n, i)
    ensures Run(less, L, n + 1, k, top) == []
  {
    CarryBelow(n, k, i);
    LoBelow(n + 1, k, top);
    RunInList(less, L, n + 1, k, top);
    assert Bit(n + 1, k) == 0;
  }

  lemma SettledHere<N>(less: (N, N) -> bool, L: seq<N>, n: nat, i: nat, top: nat)
    requires n < |L| && i <= top && CarryAt(n, i) && (i < top ==> Shift(n, i) % 2 == 0)
    ensures Run(less, L, n + 1, i, top) == Carried(less, L, n, i)
  {
    FloorBounds(n, i);
    CarriedLength(n, i);
    LoBelow(n + 1, i, top);
    if i < top {
      assert Bit(n, i) == 0;
      assert Shift(n + 1, i + 1) == Shift(n, i + 1);
      FloorSame(n, i, i + 1);
    }
  }

  /** A carried run has exactly 2^i nodes. */
  lemma CarriedLength(n: nat, i: nat)
    requires CarryAt(n, i)
    ensures n + 1 == Floor(n, i) + Pow2(i)
  {
    FloorIsMultiple(n, i);
    FloorIsMultiple(n + 1, i);
    assert Times(Shift(n, i) + 1, Pow2(i)) == Pow2(i) + Times(Shift(n, i), Pow2(i));
  }

  lemma FloorSame(n: nat, i: nat, k: nat)
    requires i < k && Shift(n + 1, i + 1) == Shift(n, i + 1)
    ensures Shift(n + 1, k) == Shift(n, k) && Floor(n + 1, k) == Floor(n, k)
  {
    ShiftSame(n + 1, n, i + 1, k);
    FloorIsMultiple(n, k);
    FloorIsMultiple(n + 1, k);
  }

  lemma SettledAbove<N>(less: (N, N) -> bool, L: seq<N>, n: nat, i: nat, k: nat, top: nat)
    requires n < |L| && i < k <= top && CarryAt(n, i) && Shift(n, i) % 2 == 0
    ensures Run(less, L, n + 1, k, top) == Run(less, L, n, k, top)
  {
    assert Shift(n + 1, i + 1) == Shift(n, i + 1);
    FloorSame(n, i, k);
    FloorSame(n, i, k + 1);
    LoBelow(n, k, top);
    LoBelow(n + 1, k, top);
  }

  lemma {:induction false} CarryBelow(n: nat, k: nat, i: nat)
    requires k < i && forall j :: 0 <= j < i ==> Shift(n, j) % 2 == 1
    ensures Shift(n + 1, k) == Shift(n, k) + 1
  {
    if k > 0 {
      CarryBelow(n, k - 1, i);
    }
  }

  lemma CarriedFirst<N>(less: (N, N) -> bool, L: seq<N>, n: nat)
    requires n < |L|
    ensures CarryAt(n, 0) && Carried(less, L, n, 0) == [L[n]]
  {
    assert L[Floor(n, 0)..n + 1] == [L[n]];
    assert [L[n]][1..] == [];
    assert ISort(less, [L[n]]) == InsertFront(less, L[n], ISort(less, []));
  }

  lemma BinFull<N>(less: (N, N) -> bool, L: seq<N>, n: nat, i: nat, top: nat)
    requires n < |L| && i < top && CarryAt(n, i) && Run(less, L, n, i, top) != []
    ensures CarryAt(n, i + 1)
  {
    RunInList(less, L, n, i, top);
    LoBelow(n, i, top);
    CarryStep(n, i);
  }

  lemma BinEmpty<N>(less: (N, N) -> bool, L: seq<N>, n: nat, i: nat, top: nat)
    requires n <= |L| && i < top && Run(less, L, n, i, top) == []
    ensures Shift(n, i) % 2 == 0
  {
    RunInList(less, L, n, i, top);
    LoBelow(n, i, top);
  }

  ghost function Prefix<N>(L: seq<N>, n: nat): set<N>
    requires n <= |L|
  {
    set i | 0 <= i < n :: L[i]
  }

  /** A fresh node is in no run. */
  lemma NewNodeApart<N>(less: (N, N) -> bool, L: seq<N>, n: nat, runs: seq<seq<N>>)
    requires n < |L| && Distinct(L) && RunsAt(runs, less, L, n)
    ensures ApartFrom([L[n]], 0, runs)
  {
    forall k | 0 <= k < |runs| ensures Apart([L[n]], runs[k]) {
      RunInList(less, L, n, k, |runs| - 1);
      forall j | 0 <= j < |runs[k]| ensures runs[k][j] != L[n] {
        assert runs[k][j] in L[..n];
      }
    }
  }

  /** The carry has reached bin i: the bins below are free, ep heads the carried run. */
  ghost predicate Carrying<T>(ep: Node?<T>, bins: array<Node?<T>>, i: nat, carried: seq<Node<T>>,
                              runs: seq<seq<Node<T>>>, S: set<Node<T>>)
    reads bins, S
  {
    && i < bins.Length && Holds(bins, i, runs, S)
    && Within(carried, S) && List(ep, carried) && ApartFrom(carried, i, runs)
    && forall k :: 0 <= k < i ==> bins[k] == null
  }

  method CarryOn<T>(ep0: Node?<T>, bins: array<Node?<T>>, i: nat, less: (Node<T>, Node<T>) -> bool,
                    ghost carried: seq<Node<T>>, ghost runs: seq<seq<Node<T>>>, ghost S: set<Node<T>>)
    returns (ep: Node?<T>)
    requires i < bins.Length - 1 && Carrying(ep0, bins, i, carried, runs, S)
    modifies bins, S
    ensures Carrying(ep, bins, i + 1, MergeSeq(less, carried, runs[i]), runs, S)
  {
    ep := MergeBin(ep0, bins, i, less, carried, runs, S);
    bins[i] := null;
  }

  ghost function Deposited<N>(i: nat, carried: seq<N>, runs: seq<seq<N>>): (r: seq<seq<N>>)
    requires i < |runs|
    ensures |r| == |runs|
    ensures forall k :: 0 <= k < |runs| ==> r[k] == if k < i then [] else if k == i then carried else runs[k]
  {
    var none: seq<seq<N>> := seq(i, _ => []);
    none + [carried] + runs[i + 1..]
  }

  lemma DepositedApart<N>(i: nat, carried: seq<N>, runs: seq<seq<N>>)
    requires i < |runs| && ApartFrom(carried, i, runs)
    requires forall k, m | i <= k < m < |runs| :: Apart(runs[k], runs[m])
    ensures forall k, m | 0 <= k < m < |runs| :: Apart(Deposited(i, carried, runs)[k], Deposited(i, carried, runs)[m])
  {
    var r := Deposited(i, carried, runs);
    forall k, m | 0 <= k < m < |runs| ensures Apart(r[k], r[m]) {
      if k < i {
        assert r[k] == [];
      } else {
        assert r[m] == runs[m] && (k > i ==> r[k] == runs[k]);
      }
    }
  }

  /** Storing the carried run in bin i restores the invariant of all bins. */
  method Deposit<T>(ep: Node?<T>, bins: array<Node?<T>>, i: nat, ghost carried: seq<Node<T>>,
                    ghost runs: seq<seq<Node<T>>>, ghost S: set<Node<T>>)
    returns (ghost runs': seq<seq<Node<T>>>)
    requires Carrying(ep, bins, i, carried, runs, S)
    modifies bins
    ensures |runs'| == |runs| && Holds(bins, 0, runs', S)
    ensures forall k :: 0 <= k < |runs| ==> runs'[k] == if k < i then [] else if k == i then carried else runs[k]
  {
    bins[i] := ep;
    runs' := Deposited(i, carried, runs);
    DepositedApart(i, carried, runs);
  }

  /** Adds node n: full bins are merged into it from the bottom up until one is free. */
  method AddNode<T>(bins: array<Node?<T>>, ep0: Node<T>, less: (Node<T>, Node<T>) -> bool,
                    ghost L: seq<Node<T>>, ghost n: nat, ghost U: set<Node<T>>, ghost runs: seq<seq<Node<T>>>)
    returns (ghost runs': seq<seq<Node<T>>>)
    requires bins.Length > 0 && n < |L| && Distinct(L) && OrderOn(less, U) && AllIn(L, U)
    requires RunsAt(runs, less, L, n) && Holds(bins, 0, runs, Prefix(L, n))
    requires ep0 == L[n] && ep0.next == null
    modifies bins, Prefix(L, n + 1)
    ensures RunsAt(runs', less, L, n + 1) && Holds(bins, 0, runs', Prefix(L, n + 1))
  {
    ghost var S := Prefix(L, n + 1);
    NewNodeApart(less, L, n, runs);
    CarriedFirst(less, L, n);
    var ep, i := Carry(bins, ep0, less, L, n, U, runs, S);
    runs' := Deposit(ep, bins, i, Carried(less, L, n, i), runs, S);
    Settled(less, L, n, i, runs, runs');
  }

  /** The carry loop: stops at the first free bin, or at the last bin whatever it holds. */
  method Carry<T>(bins: array<Node?<T>>, ep0: Node<T>, less: (Node<T>, Node<T>) -> bool,
                  ghost L: seq<Node<T>>, ghost n: nat, ghost U: set<Node<T>>, ghost runs: seq<seq<Node<T>>>,
                  ghost S: set<Node<T>>)
    returns (ep: Node?<T>, i: nat)
    requires bins.Length > 0 && n < |L| && OrderOn(less, U) && AllIn(L, U) && RunsAt(runs, less, L, n)
    requires CarryAt(n, 0) && Carrying(ep0, bins, 0, Carried(less, L, n, 0), runs, S)
    modifies bins, S
    ensures CarryAt(n, i) && Carrying(ep, bins, i, Carried(less, L, n, i), runs, S)
    ensures i < bins.Length - 1 ==> Shift(n, i) % 2 == 0
  {
    ep, i := ep0, 0;
    ghost var top := bins.Length - 1;
    while i < bins.Length - 1 && bins[i] != null
      invariant CarryAt(n, i) && Carrying(ep, bins, i, Carried(less, L, n, i), runs, S)
    {
      BinFull(less, L, n, i, top);
      CarryMerges(less, L, n, i, top, U);
      ep := CarryOn(ep, bins, i, less, Carried(less, L, n, i), runs, S);
      i := i + 1;
    }
    if i < top { BinEmpty(less, L, n, i, top); }
  }

  lemma {:induction false} ShiftZero(i: nat)
    ensures Shift(0, i) == 0
  {
    if i > 0 { ShiftZero(i - 1); }
  }

  lemma EmptyRuns<N>(less: (N, N) -> bool, L: seq<N>, runs: seq<seq<N>>)
    requires forall k :: 0 <= k < |runs| ==> runs[k] == []
    ensures RunsAt(runs, less, L, 0)
  {
    forall k | 0 <= k < |runs| ensures runs[k] == Run(less, L, 0, k, |runs| - 1) {
      ShiftZero(k);
      RunInList(less, L, 0, k, |runs| - 1);
      LoBelow(0, k, |runs| - 1);
    }
  }

  /** Where the nodes held by the bins below i begin. */
  function Start(n: nat, i: nat, top: nat): int {
    if i <= top then Floor(n, i) else Lost(n, top)
  }

  ghost function Gathered<N>(less: (N, N) -> bool, L: seq<N>, n: nat, i: nat, top: nat): seq<N>
    requires n <= |L|
  {
    StartBelow(n, i, top);
    ISort(less, L[Start(n, i, top)..n])
  }

  lemma StartBelow(n: nat, i: nat, top: nat)
    ensures 0 <= Start(n, i, top) <= n
  {
    LoBelow(n, top, top);
    if i <= top { LoBelow(n, i, top); }
  }

  /** Gathering bin i extends the gathered run down to the first node of that bin. */
  lemma GatherStep<N>(less: (N, N) -> bool, L: seq<N>, n: nat, i: nat, top: nat, U: set<N>)
    requires n <= |L| && i <= top && OrderOn(less, U) && AllIn(L, U)
    ensures MergeSeq(less, Gathered(less, L, n, i, top), Run(less, L, n, i, top)) == Gathered(less, L, n, i + 1, top)
  {
    LoBelow(n, i, top);
    StartBelow(n, i, top);
    assert Start(n, i + 1, top) == Lo(n, i, top);
    var a, b := L[Lo(n, i, top)..Floor(n, i)], L[Floor(n, i)..n];
    MergeIsSort(less, a, b, U);
    assert a + b == L[Lo(n, i, top)..n];
  }

  /** The last loop: merges all bins, newest first. */
  method Gather<T>(bins: array<Node?<T>>, less: (Node<T>, Node<T>) -> bool,
                   ghost L: seq<Node<T>>, ghost U: set<Node<T>>, ghost runs: seq<seq<Node<T>>>, ghost S: set<Node<T>>)
    returns (ep: Node?<T>)
    requires bins.Length > 0 && OrderOn(less, U) && AllIn(L, U)
    requires RunsAt(runs, less, L, |L|) && Holds(bins, 0, runs, S)
    modifies S
    ensures List(ep, Gathered(less, L, |L|, bins.Length, bins.Length - 1))
  {
    ghost var n, top := |L|, bins.Length - 1;
    ep := null;
    var i := 0;
    GatherFirst(less, L, n, top);
    while i < bins.Length
      invariant 0 <= i <= bins.Length && Holds(bins, i, runs, S)
      invariant Within(Gathered(less, L, n, i, top), S) && List(ep, Gathered(less, L, n, i, top))
      invariant ApartFrom(Gathered(less, L, n, i, top), i, runs)
    {
      GatherStep(less, L, n, i, top, U);
      if bins[i] != null {
        ep := MergeBin(ep, bins, i, less, Gathered(less, L, n, i, top), runs, S);
      } else {
        MergeEmpty(less, Gathered(less, L, n, i, top), runs[i]);
      }
      i := i + 1;
    }
  }

  lemma GatherFirst<N>(less: (N, N) -> bool, L: seq<N>, n: nat, top: nat)
    requires n <= |L|
    ensures Gathered(less, L, n, 0, top) == []
  {
    assert L[Floor(n, 0)..n] == [];
  }

  lemma MergeEmpty<N>(less: (N, N) -> bool, a: seq<N>, b: seq<N>)
    requires b == []
    ensures MergeSeq(less, a, b) == a
  {
  }

  /** After the last bin has been gathered, all nodes but the lost ones are sorted. */
  lemma AllGathered<N>(less: (N, N) -> bool, L: seq<N>, listsize: nat, top: nat)
    requires listsize == top + 1
    ensures 0 <= Lost(|L|, top) <= |L|
    ensures Gathered(less, L, |L|, listsize, top) == ISort(less, L[Lost(|L|, top)..])
  {
    StartBelow(|L|, listsize, top);
    assert L[Lost(|L|, top)..|L|] == L[Lost(|L|, top)..];
  }

  method SortBins<T>(bins: array<Node?<T>>, less: (Node<T>, Node<T>) -> bool,
                     ghost L: seq<Node<T>>, ghost U: set<Node<T>>, ghost runs: seq<seq<Node<T>>>)
    returns (ep: Node?<T>)
    requires bins.Length > 0 && OrderOn(less, U) && AllIn(L, U)
    requires RunsAt(runs, less, L, |L|) && Holds(bins, 0, runs, Prefix(L, |L|))
    modifies Prefix(L, |L|)
    ensures 0 <= Lost(|L|, bins.Length - 1) <= |L|
    ensures List(ep, ISort(less, L[Lost(|L|, bins.Length - 1)..]))
  {
    AllGathered(less, L, bins.Length, bins.Length - 1);
    ep := Gather(bins, less, L, U, runs, Prefix(L, |L|));
  }

  /** The first n nodes are in the bins; the others still form the rest of the input list. */
  ghost predicate Taken<T>(cur: Node?<T>, n: nat, bins: array<Node?<T>>, less: (Node<T>, Node<T>) -> bool,
                           L: seq<Node<T>>, runs: seq<seq<Node<T>>>)
    reads bins, L
  {
    && n <= |L| && cur == At(L, n) && Tail(L, n, [])
    && RunsAt(runs, less, L, n) && Holds(bins, 0, runs, Prefix(L, n))
  }

  method TakeNode<T>(cur: Node<T>, bins: array<Node?<T>>, less: (Node<T>, Node<T>) -> bool,
                     ghost L: seq<Node<T>>, ghost n: nat, ghost U: set<Node<T>>, ghost runs: seq<seq<Node<T>>>)
    returns (next: Node?<T>, ghost runs': seq<seq<Node<T>>>)
    requires bins.Length > 0 && Distinct(L) && OrderOn(less, U) && AllIn(L, U)
    requires Taken(cur, n, bins, less, L, runs)
    modifies bins, Prefix(L, n + 1)
    ensures Taken(next, n + 1, bins, less, L, runs')
  {
    next := cur.next;
    assert L[n] !in Prefix(L, n);
    cur.next := null;
    assert forall k :: n < k < |L| ==> L[k] !in Prefix(L, n + 1);
    runs' := AddNode(bins, cur, less, L, n, U, runs);
  }

  lemma PrefixGrows<N>(L: seq<N>, n: nat)
    requires n < |L|
    ensures Prefix(L, n + 1) <= Prefix(L, |L|)
  {
  }

  /**
   Sorts a list with listsize bins: the insertion sort of all nodes but the first Lost ones,
   which are dropped when the last bin is overwritten.
   */
  method MSort<T>(list: Node?<T>, listsize: nat, less: (Node<T>, Node<T>) -> bool,
                  ghost L: seq<Node<T>>, ghost U: set<Node<T>>)
    returns (head: Node?<T>)
    requires listsize > 0 && List(list, L) && OrderOn(less, U) && AllIn(L, U)
    modifies Prefix(L, |L|)
    ensures 0 <= Lost(|L|, listsize - 1) <= |L|
    ensures List(head, ISort(less, L[Lost(|L|, listsize - 1)..]))
  {
    var bins := new Node?<T>[listsize](_ => null);
    ghost var runs: seq<seq<Node<T>>> := seq(listsize, _ => []);
    EmptyRuns(less, L, runs);
    var cur := list;
    ghost var n: nat := 0;
    while cur != null
      invariant fresh(bins) && bins.Length == listsize
      invariant Taken(cur, n, bins, less, L, runs)
      decreases |L| - n
    {
      PrefixGrows(L, n);
      cur, runs := TakeNode(cur, bins, less, L, n, U, runs);
      n := n + 1;
    }
    head := SortBins(bins, less, L, U, runs);
  }

  /** The number of bins the generator uses. */
  const LISTSIZE: nat := 30

  lemma {:induction false} Pow2Add(i: nat, j: nat)
    ensures Pow2(i + j) == Pow2(i) * Pow2(j)
  {
    if j > 0 {
      Pow2Add(i, j - 1);
      TwiceProduct(Pow2(i), Pow2(j - 1));
    }
  }

  lemma TwiceProduct(p: nat, q: nat)
    ensures 2 * (p * q) == p * (2 * q)
  {
  }

  lemma TwoTo30(n: nat)
    requires n == LISTSIZE
    ensures Pow2(n) == 0x4000_0000
  {
    assert Pow2(5) == 32;
    Pow2Add(5, 5);
    Pow2Add(10, 10);
    Pow2Add(20, 10);
  }

  /**
   With LISTSIZE bins the sort returns every node it was given if and only if there are
   fewer than 2^30 of them, and then it is the insertion sort of the whole list.
   */
  lemma KeepsAllNodes<N>(less: (N, N) -> bool, L: seq<N>, listsize: nat)
    requires listsize == LISTSIZE
    ensures 0 <= Lost(|L|, listsize - 1) <= |L|
    ensures |ISort(less, L[Lost(|L|, listsize - 1)..])| == |L| <==> |L| < 0x4000_0000
    ensures |L| < 0x4000_0000 ==> ISort(less, L[Lost(|L|, listsize - 1)..]) == ISort(less, L)
  {
    AllGathered(less, L, listsize, listsize - 1);
    LostNothing(|L|, listsize - 1);
    TwoTo30(listsize);
    var l := Lost(|L|, listsize - 1);
    ISortIn(less, L[l..], {});
    assert l == 0 ==> L[l..] == L;
  }

  /** What a list still has when it comes out of the sort. */
  ghost function Kept<N>(L: seq<N>): (k: seq<N>)
    ensures |L| < 0x4000_0000 ==> k == L
    ensures |k| < 0x4000_0000
  {
    var n: nat := LISTSIZE;
    LostBound(|L|, n - 1);
    LostNothing(|L|, n - 1);
    TwoTo30(n);
    L[Lost(|L|, n - 1)..]
  }

  lemma KeptSuffix<N>(L: seq<N>)
    ensures exists i :: 0 <= i <= |L| && Kept(L) == L[i..]
  {
    var n: nat := LISTSIZE;
    LostBound(|L|, n - 1);
    var i := Lost(|L|, n - 1);
    assert Kept(L) == L[i..];
  }

  lemma LostBound(n: nat, top: nat)
    ensures 0 <= Lost(n, top) <= n < Lost(n, top) + Pow2(top + 1)
  {
    LostNothing(n, top);
    LoBelow(n, top, top);
    FloorBounds(n, top);
  }

  // ----- lists of values

  ghost function Data<T>(l: seq<Node<T>>): (d: seq<T>)
    ensures |d| == |l| && forall i :: 0 <= i < |l| ==> d[i] == l[i].data
  {
    seq(|l|, i requires 0 <= i < |l| => l[i].data)
  }

  /** Nodes compare as their data do. */
  function ByData<T>(less: (T, T) -> bool): (Node<T>, Node<T>) -> bool {
    (x: Node<T>, y: Node<T>) => less(x.data, y.data)
  }

  lemma {:induction false} InsertFrontData<T>(less: (T, T) -> bool, x: Node<T>, l: seq<Node<T>>)
    ensures Data(InsertFront(ByData(less), x, l)) == InsertFront(less, x.data, Data(l))
  {
    if l == [] || !less(l[0].data, x.data) {
      assert Data([x] + l) == [x.data] + Data(l);
    } else {
      InsertFrontData(less, x, l[1..]);
      assert Data(l[1..]) == Data(l)[1..];
      var r := InsertFront(ByData(less), x, l[1..]);
      assert Data([l[0]] + r) == [l[0].data] + Data(r);
    }
  }

  /** Sorting nodes by their data and sorting the data is the same. */
  lemma {:induction false} ISortData<T>(less: (T, T) -> bool, l: seq<Node<T>>)
    ensures Data(ISort(ByData(less), l)) == ISort(less, Data(l))
  {
    if l != [] {
      ISortData(less, l[1..]);
      assert Data(l[1..]) == Data(l)[1..];
      InsertFrontData(less, l[0], ISort(ByData(less), l[1..]));
    }
  }

  lemma ListCons<T>(head: Node?<T>, L: seq<Node<T>>, n: Node<T>)
    requires List(head, L) && n !in L && n.next == head
    ensures List(n, [n] + L)
  {
    var r := [n] + L;
    assert forall k :: 0 < k < |r| ==> r[k] == L[k - 1];
  }

  method Prepend<T>(x: T, head: Node?<T>, ghost L: seq<Node<T>>) returns (n: Node<T>)
    requires List(head, L)
    ensures fresh(n) && n.data == x && List(n, [n] + L)
  {
    n := new Node<T>(x);
    n.next := head;
    ListCons(head, L, n);
  }

  /** A list of nodes for the values. */
  method MakeList<T>(s: seq<T>) returns (head: Node?<T>, ghost L: seq<Node<T>>)
    ensures List(head, L) && Data(L) == s && forall n :: n in L ==> fresh(n)
  {
    head, L := null, [];
    var i := |s|;
    while i > 0
      invariant 0 <= i <= |s| && List(head, L) && Data(L) == s[i..]
      invariant forall n :: n in L ==> fresh(n)
    {
      i := i - 1;
      var n := Prepend(s[i], head, L);
      assert Data([n] + L) == [s[i]] + s[i + 1..];
      head, L := n, [n] + L;
    }
  }

  method ReadList<T>(head: Node?<T>, ghost L: seq<Node<T>>) returns (s: seq<T>)
    requires List(head, L)
    ensures s == Data(L)
  {
    s := [];
    var cur := head;
    while cur != null
      invariant |s| <= |L| && cur == At(L, |s|)
      invariant forall k :: 0 <= k < |s| ==> s[k] == L[k].data
      decreases |L| - |s|
    {
      s, cur := s + [cur.data], cur.next;
    }
  }

  lemma ByDataOrder<T>(less: (T, T) -> bool, L: seq<Node<T>>, U: set<T>)
    requires OrderOn(less, U) && AllIn(Data(L), U)
    ensures OrderOn(ByData(less), Prefix(L, |L|)) && AllIn(L, Prefix(L, |L|))
  {
    assert forall n :: n in Prefix(L, |L|) ==> n.data in U;
  }

  lemma DataFrom<T>(L: seq<Node<T>>, i: nat)
    requires i <= |L|
    ensures Data(L[i..]) == Data(L)[i..]
  {
  }

  /** Sorts values with that many bins. */
  method SortWith<T>(less: (T, T) -> bool, s: seq<T>, listsize: nat, ghost U: set<T>) returns (t: seq<T>)
    requires listsize > 0 && OrderOn(less, U) && AllIn(s, U)
    ensures 0 <= Lost(|s|, listsize - 1) <= |s| && t == ISort(less, s[Lost(|s|, listsize - 1)..])
  {
    var head, L := MakeList(s);
    ByDataOrder(less, L, U);
    assert forall n :: n in Prefix(L, |L|) ==> n in L;
    head := MSort(head, listsize, ByData(less), L, Prefix(L, |L|));
    ghost var l := Lost(|L|, listsize - 1);
    DataFrom(L, l);
    ISortData(less, L[l..]);
    t := ReadList(head, ISort(ByData(less), L[l..]));
  }

  /** The generator's sort of a list: the insertion sort of what is kept of it. */
  method SortList<T>(less: (T, T) -> bool, s: seq<T>, ghost U: set<T>) returns (t: seq<T>)
    requires OrderOn(less, U) && AllIn(s, U)
    ensures t == ISort(less, Kept(s))
  {
    t := SortWith(less, s, LISTSIZE, U);
  }
}
