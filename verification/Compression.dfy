/**
 Default-action compression: the most frequent reduce of a state becomes the state's default
 and its individual entries disappear from the list.
 */
module Compression {
  import opened Values
  import opened MergeSort
  import opened ConflictResolution

  predicate Reduces(a: Action, r: nat) {
    a.kind == REDUCE && a.arg == r
  }

  /** How often the list reduces by rule r. */
  function Count(t: seq<Action>, r: nat): nat {
    if t == [] then 0 else (if Reduces(t[0], r) then 1 else 0) + Count(t[1..], r)
  }

  lemma {:induction false} CountSplit(t: seq<Action>, i: nat, r: nat)
    requires i <= |t|
    ensures Count(t, r) == Count(t[..i], r) + Count(t[i..], r)
  {
    if i > 0 {
      CountSplit(t[1..], i - 1, r);
      assert t[..i][1..] == t[1..][..i - 1];
      assert t[i..] == t[1..][i - 1..];
    } else {
      assert t[0..] == t;
    }
  }

  lemma {:induction false} CountNone(t: seq<Action>, r: nat)
    ensures Count(t, r) == 0 <==> forall i :: 0 <= i < |t| ==> !Reduces(t[i], r)
  {
    if t != [] { CountNone(t[1..], r); }
  }

  /** The number of reduces by rp from index i on, where i is one; rbest is passed over. */
  method CountFrom(t: seq<Action>, i: nat, rp: nat, rbest: Option<nat>) returns (n: nat)
    requires i < |t| && Reduces(t[i], rp) && rbest != Some(rp)
    ensures n == Count(t[i..], rp)
  {
    n := 1;
    var j := i + 1;
    assert t[i..][1..] == t[i + 1..];
    while j < |t|
      invariant i < j <= |t|
      invariant n + Count(t[j..], rp) == Count(t[i..], rp)
    {
      assert t[j..][1..] == t[j + 1..];
      if t[j].kind == REDUCE && Some(t[j].arg) != rbest && t[j].arg == rp {
        n := n + 1;
      }
      j := j + 1;
    }
  }

  /** The rule reduced by most often, and how often. */
  method MostFrequent(t: seq<Action>) returns (rbest: Option<nat>, nbest: nat)
    ensures rbest == None ==> nbest == 0
    ensures rbest.Some? ==> nbest == Count(t, rbest.value) && nbest > 0 && ComesFirst(t, rbest.value)
    ensures forall r: nat :: Count(t, r) <= nbest
  {
    rbest, nbest := None, 0;
    var i := 0;
    while i < |t|
      invariant 0 <= i <= |t|
      invariant rbest == None ==> nbest == 0
      invariant rbest.Some? ==> nbest == Count(t, rbest.value) && nbest > 0 && ComesFirst(t, rbest.value)
      invariant forall k :: 0 <= k < i && t[k].kind == REDUCE ==> Count(t, t[k].arg) <= nbest
    {
      if t[i].kind == REDUCE && Some(t[i].arg) != rbest {
        var n := CountFrom(t, i, t[i].arg, rbest);
        CountSplit(t, i, t[i].arg);
        CountNone(t[..i], t[i].arg);
        if n > nbest {
          assert ComesFirstAt(t, t[i].arg, i);
          nbest, rbest := n, Some(t[i].arg);
        }
      }
      i := i + 1;
    }
    forall r: nat ensures Count(t, r) <= nbest {
      CountNone(t, r);
    }
  }

  /** Actions of a resolved list: on ordinary symbols, reducing only on terminals. */
  ghost predicate StateList(t: seq<Action>, nterminal: nat, nsymbol: nat) {
    forall i :: 0 <= i < |t| ==> t[i].sp < nsymbol && (t[i].kind == REDUCE ==> t[i].sp < nterminal)
  }

  /** Moves the first reduce by r to the default symbol and drops the later ones. */
  method SetDefault(t: seq<Action>, r: nat, nsymbol: nat) returns (u: seq<Action>)
    requires exists k :: 0 <= k < |t| && Reduces(t[k], r)
    ensures Folded(t, u, r, nsymbol)
  {
    u := t;
    var i := 0;
    while !Reduces(t[i], r)
      invariant 0 <= i < |t|
      invariant forall k :: 0 <= k < i ==> !Reduces(t[k], r)
      decreases |t| - i
    {
      i := i + 1;
    }
    u := u[i := u[i].(sp := nsymbol)];
    ghost var first := i;
    i := i + 1;
    while i < |t|
      invariant first < i <= |t| == |u|
      invariant u[first] == t[first].(sp := nsymbol)
      invariant forall k :: 0 <= k < |t| && k != first ==>
                  u[k] == if first < k < i && Reduces(t[k], r) then t[k].(kind := NOT_USED) else t[k]
    {
      if Reduces(u[i], r) {
        u := u[i := u[i].(kind := NOT_USED)];
      }
      i := i + 1;
    }
    assert FoldedAt(t, u, r, nsymbol, first);
  }

  /** u is t with one reduce by r on the default symbol and the others marked unused. */
  ghost predicate Folded(t: seq<Action>, u: seq<Action>, r: nat, nsymbol: nat) {
    exists first :: FoldedAt(t, u, r, nsymbol, first)
  }

  ghost predicate FoldedAt(t: seq<Action>, u: seq<Action>, r: nat, nsymbol: nat, first: int) {
    && 0 <= first < |t| == |u| && Reduces(t[first], r) && u[first] == t[first].(sp := nsymbol)
    && forall k :: 0 <= k < |t| && k != first ==>
         u[k] == if Reduces(t[k], r) then t[k].(kind := NOT_USED) else t[k]
  }

  /** What lookups see after compression: reduces by r give way to the default. */
  ghost predicate Compressed(t: seq<Action>, u: seq<Action>, r: nat, nsymbol: nat) {
    && UniqueLive(u)
    && ListAction(u, nsymbol) == Some(Action(nsymbol, REDUCE, r))
    && forall x :: 0 <= x < nsymbol ==>
         ListAction(u, x) == if ListAction(t, x) == Some(Action(x, REDUCE, r)) then None else ListAction(t, x)
  }

  /** The list so compressed, as the second sort leaves it: all of it, if it is short enough. */
  ghost predicate CompressedTo(t: seq<Action>, u: seq<Action>, r: nat, nsymbol: nat) {
    && (exists v :: Folded(t, v, r, nsymbol) && Compressed(t, v, r, nsymbol) && u == ISort(ActionLess, Kept(v)))
    && (|t| < 0x4000_0000 ==> Compressed(t, u, r, nsymbol))
  }

  lemma FoldedUnique(t: seq<Action>, u: seq<Action>, r: nat, nterminal: nat, nsymbol: nat, first: int)
    requires StateList(t, nterminal, nsymbol) && UniqueLive(t) && FoldedAt(t, u, r, nsymbol, first)
    ensures UniqueLive(u)
  {
    forall i, j | 0 <= i < j < |u| ensures OneOfPair(u[i], u[j]) && OneOfPair(u[j], u[i]) {
      assert OneOfPair(t[i], t[j]);
      assert t[i].sp < nsymbol && t[j].sp < nsymbol;
    }
  }

  lemma FoldedMeaning(t: seq<Action>, u: seq<Action>, r: nat, nterminal: nat, nsymbol: nat, first: int)
    requires StateList(t, nterminal, nsymbol) && UniqueLive(t) && FoldedAt(t, u, r, nsymbol, first)
    ensures Compressed(t, u, r, nsymbol)
  {
    FoldedUnique(t, u, r, nterminal, nsymbol, first);
    ListActionIs(u, first);
    forall x | 0 <= x < nsymbol
      ensures ListAction(u, x) == if ListAction(t, x) == Some(Action(x, REDUCE, r)) then None else ListAction(t, x)
    {
      if ListAction(u, x).Some? {
        var i := ListActionFrom(u, x);
        assert u[i] == t[i];
        ListActionIs(t, i);
      } else if ListAction(t, x).Some? {
        var i := ListActionFrom(t, x);
        if !Reduces(t[i], r) {
          ListActionIs(u, i);
        }
      }
    }
  }

  /** With at most one live action per symbol, the order of the list does not matter. */
  lemma SortKeepsMeaning(u: seq<Action>)
    requires UniqueLive(u)
    ensures UniqueLive(ISort(ActionLess, u))
    ensures forall x :: ListAction(ISort(ActionLess, u), x) == ListAction(u, x)
  {
    var v := ISort(ActionLess, u);
    ISortPairwise(ActionLess, OneOfPair, u);
    ISortElems(ActionLess, u);
    forall x ensures ListAction(v, x) == ListAction(u, x) {
      if ListAction(v, x).Some? {
        var i := ListActionFrom(v, x);
        assert v[i] in multiset(v) && v[i] in multiset(u);
        var j :| 0 <= j < |u| && u[j] == v[i];
        ListActionIs(u, j);
      } else if ListAction(u, x).Some? {
        var i := ListActionFrom(u, x);
        assert u[i] in multiset(u) && u[i] in multiset(v);
        var j :| 0 <= j < |v| && v[j] == u[i];
        ListActionIs(v, j);
      }
    }
  }

  /**
   Compresses one state. Lookups change only where there was no action or where the action
   was a reduce by the most frequent rule, which is now the default; with no rule reduced by
   at least twice nothing changes. A list that has been sorted before is short enough not to lose any.
   */
  method CompressState(t: seq<Action>, nterminal: nat, nsymbol: nat) returns (u: seq<Action>)
    requires StateList(t, nterminal, nsymbol) && UniqueLive(t)
    ensures if exists r: nat :: Count(t, r) >= 2
            then exists r: nat :: IsMostFrequent(t, r) && Count(t, r) >= 2 && CompressedTo(t, u, r, nsymbol)
            else u == t
  {
    var rbest, nbest := MostFrequent(t);
    u := t;
    if nbest < 2 { return; }
    CountNone(t, rbest.value);
    u := SetDefault(t, rbest.value, nsymbol);
    ghost var first :| FoldedAt(t, u, rbest.value, nsymbol, first);
    FoldedMeaning(t, u, rbest.value, nterminal, nsymbol, first);
    SortKeepsMeaning(u);
    ghost var v := u;
    u := SortActions(u);
    assert Folded(t, v, rbest.value, nsymbol) && CompressedTo(t, u, rbest.value, nsymbol);
    assert IsMostFrequent(t, rbest.value);
  }

  /** No rule is reduced by more often, and of those reduced by as often r comes first. */
  ghost predicate IsMostFrequent(t: seq<Action>, r: nat) {
    (forall r': nat :: Count(t, r') <= Count(t, r)) && ComesFirst(t, r)
  }

  /** The list reduces by r before it reduces by any other rule that occurs at least as often. */
  ghost predicate ComesFirst(t: seq<Action>, r: nat) {
    exists i :: ComesFirstAt(t, r, i)
  }

  ghost predicate ComesFirstAt(t: seq<Action>, r: nat, i: int) {
    0 <= i < |t| && Reduces(t[i], r) &&
    forall k :: 0 <= k < i && t[k].kind == REDUCE ==> Count(t, t[k].arg) < Count(t, r)
  }

  /** The symbols on which the list reduces by r. */
  ghost function ReducedOn(t: seq<Action>, r: nat, n: nat): set<nat> {
    set x: nat | x < n && ListAction(t, x) == Some(Action(x, REDUCE, r))
  }

  /** With at most one live action per symbol, counting actions is counting symbols. */
  lemma {:induction false} CountSymbols(t: seq<Action>, r: nat, n: nat)
    requires UniqueLive(t) && forall i :: 0 <= i < |t| ==> t[i].kind == REDUCE ==> t[i].sp < n
    ensures Count(t, r) == |ReducedOn(t, r, n)|
  {
    if t == [] {
      assert ReducedOn(t, r, n) == {};
    } else {
      var rest := t[1..];
      assert forall i :: 0 <= i < |rest| ==> rest[i] == t[i + 1];
      CountSymbols(rest, r, n);
      if Live(t[0]) { NotLater(t); }
      if Reduces(t[0], r) {
        assert ReducedOn(t, r, n) == ReducedOn(rest, r, n) + {t[0].sp};
      } else {
        assert ReducedOn(t, r, n) == ReducedOn(rest, r, n);
      }
    }
  }

  lemma NotLater(t: seq<Action>)
    requires t != [] && UniqueLive(t) && Live(t[0])
    ensures ListAction(t[1..], t[0].sp) == None
  {
    if ListAction(t[1..], t[0].sp).Some? {
      var i := ListActionFrom(t[1..], t[0].sp);
    }
  }
}
