/**
 The action list of one parser state, as the parser generator builds it: how conflicting
 actions on the same symbol are settled by precedence.
 */
module ConflictResolution {
  import opened Values
  import opened MergeSort

  /** The kinds of action, in the order in which they sort. */
  datatype Kind = SHIFT | ACCEPT | REDUCE | ERROR | CONFLICT | SH_RESOLVED | RD_RESOLVED | NOT_USED

  /** An action on symbol sp; arg is a state for a shift and a rule for a reduce. */
  datatype Action = Action(sp: nat, kind: Kind, arg: nat)

  datatype Assoc = LEFT | RIGHT | NONASSOC | UNK

  datatype Symbol = Symbol(prec: int, assoc: Assoc)

  /** The grammar facts used here: symbols, and each rule's precedence symbol. */
  datatype Grammar = Grammar(symbols: seq<Symbol>, precsym: seq<Option<nat>>) {
    /** A symbol with a precedence always has an associativity; indices are in range. */
    ghost predicate Valid() {
      && (forall i :: 0 <= i < |symbols| ==> symbols[i].prec >= 0 ==> symbols[i].assoc != UNK)
      && (forall r :: 0 <= r < |precsym| ==> precsym[r].Some? ==> precsym[r].value < |symbols|)
    }

    predicate Covers(a: Action) {
      a.kind == REDUCE ==> a.arg < |precsym| && a.sp < |symbols|
    }

    /** The precedence of a rule, negative when it has none. */
    function RulePrec(r: nat): int
      requires Valid() && r < |precsym|
    {
      match precsym[r]
      case None => -1
      case Some(s) => if symbols[s].prec < 0 then -1 else symbols[s].prec
    }
  }

  /** compute_action yields a table entry for exactly these kinds. */
  predicate Live(a: Action) {
    a.kind == SHIFT || a.kind == ACCEPT || a.kind == REDUCE || a.kind == ERROR
  }

  predicate Dead(a: Action) {
    a.kind == CONFLICT || a.kind == SH_RESOLVED || a.kind == RD_RESOLVED
  }

  /**
   Whether a later action y displaces the current choice x on the same symbol: both have a
   precedence, and y's is higher, or equal to that of a left-associative shift symbol.
   */
  predicate Beats(g: Grammar, y: Action, x: Action)
    requires g.Valid() && g.Covers(x) && g.Covers(y)
  {
    && y.kind == REDUCE
    && g.RulePrec(y.arg) >= 0
    && match x.kind
       case SHIFT =>
         var s := g.symbols[y.sp];
         s.prec >= 0 && (s.prec < g.RulePrec(y.arg) || (s.prec == g.RulePrec(y.arg) && s.assoc == LEFT))
       case REDUCE => g.RulePrec(x.arg) >= 0 && g.RulePrec(x.arg) < g.RulePrec(y.arg)
       case _ => false
  }

  /** Precedence says nothing: some precedence is missing, or they are equal and nothing breaks the tie. */
  predicate Undecided(g: Grammar, x: Action, y: Action)
    requires g.Valid() && g.Covers(x) && g.Covers(y)
  {
    && y.kind == REDUCE
    && match x.kind
       case SHIFT =>
         var s := g.symbols[y.sp];
         s.prec < 0 || g.RulePrec(y.arg) < 0 || (s.prec == g.RulePrec(y.arg) && s.assoc == NONASSOC)
       case REDUCE =>
         g.RulePrec(x.arg) < 0 || g.RulePrec(y.arg) < 0 || g.RulePrec(x.arg) == g.RulePrec(y.arg)
       case _ => false
  }

  /** A choice that a later action displaces. */
  function Beaten(x: Action): Action {
    x.(kind := if x.kind == SHIFT then SH_RESOLVED else RD_RESOLVED)
  }

  /** A newcomer that does not displace the choice; a conflict if precedence says nothing. */
  function Rejected(g: Grammar, x: Action, y: Action): Action
    requires g.Valid() && g.Covers(x) && g.Covers(y)
  {
    y.(kind := if Undecided(g, x, y) then CONFLICT else RD_RESOLVED)
  }

  /** Settles the pair (x, y), x before y in the list; errcnt counts an unresolved conflict. */
  method ResolveConflict(g: Grammar, x: Action, y: Action) returns (x': Action, y': Action, errcnt: nat)
    requires g.Valid() && g.Covers(x) && g.Covers(y) && x.sp == y.sp
    requires (x.kind == SHIFT || x.kind == REDUCE || Dead(x)) && (y.kind == REDUCE || Dead(y))
    ensures Live(x) && Live(y) ==>
              if Beats(g, y, x) then x' == Beaten(x) && y' == y else y' == Rejected(g, x, y) && x' == x
    ensures !(Live(x) && Live(y)) ==> x' == x && y' == y
    ensures errcnt == if Undecided(g, x, y) then 1 else 0
    ensures Undecided(g, x, y) <==> y'.kind == CONFLICT && y.kind != CONFLICT
    ensures x'.kind == CONFLICT ==> x' == x
  {
    x', y', errcnt := x, y, 0;
    if x.kind == SHIFT && y.kind == REDUCE {
      var spx, spy := g.symbols[x.sp], g.precsym[y.arg];
      if spy == None || spx.prec < 0 || g.symbols[spy.value].prec < 0 {
        y', errcnt := y.(kind := CONFLICT), 1;
      } else if spx.prec > g.symbols[spy.value].prec {
        y' := y.(kind := RD_RESOLVED);
      } else if spx.prec < g.symbols[spy.value].prec {
        x' := x.(kind := SH_RESOLVED);
      } else if spx.assoc == RIGHT {
        y' := y.(kind := RD_RESOLVED);
      } else if spx.assoc == LEFT {
        x' := x.(kind := SH_RESOLVED);
      } else {
        assert spx.assoc == NONASSOC;
        y', errcnt := y.(kind := CONFLICT), 1;
      }
    } else if x.kind == REDUCE && y.kind == REDUCE {
      var spx, spy := g.precsym[x.arg], g.precsym[y.arg];
      if spx == None || spy == None || g.symbols[spx.value].prec < 0 || g.symbols[spy.value].prec < 0
         || g.symbols[spx.value].prec == g.symbols[spy.value].prec
      {
        y', errcnt := y.(kind := CONFLICT), 1;
      } else if g.symbols[spx.value].prec > g.symbols[spy.value].prec {
        y' := y.(kind := RD_RESOLVED);
      } else {
        x' := x.(kind := RD_RESOLVED);
      }
    } else {
      assert Dead(x) || Dead(y);
    }
  }

  /** The actions marked as conflicts. */
  function Conflicts(t: seq<Action>): nat {
    if t == [] then 0 else Conflicts(t[..|t| - 1]) + if t[|t| - 1].kind == CONFLICT then 1 else 0
  }

  lemma {:induction false} ConflictsUpdate(t: seq<Action>, i: nat, a: Action)
    requires i < |t|
    ensures Conflicts(t[i := a]) == Conflicts(t) +
      (if a.kind == CONFLICT then 1 else 0) - (if t[i].kind == CONFLICT then 1 else 0)
  {
    var n, u := |t| - 1, t[i := a];
    if i < n {
      ConflictsUpdate(t[..n], i, a);
      assert u[..n] == t[..n][i := a];
    } else {
      assert u[..n] == t[..n];
    }
  }

  lemma ConflictsPair(t: seq<Action>, i: nat, j: nat, x: Action, y: Action, e: nat)
    requires i < j < |t| && (x.kind == CONFLICT <==> t[i].kind == CONFLICT)
    requires t[j].kind == CONFLICT ==> y.kind == CONFLICT
    requires e == if y.kind == CONFLICT && t[j].kind != CONFLICT then 1 else 0
    ensures Conflicts(t[i := x][j := y]) == Conflicts(t) + e
  {
    ConflictsUpdate(t, i, x);
    ConflictsUpdate(t[i := x], j, y);
  }

  // ----- the specification: one winner per symbol, by a fold over the group

  /** The group of index m starts here. */
  function GroupLo(s: seq<Action>, m: nat): (lo: nat)
    requires m < |s|
    ensures lo <= m && s[lo].sp == s[m].sp && (lo == 0 || s[lo - 1].sp != s[lo].sp)
    ensures forall k :: lo <= k <= m ==> s[k].sp == s[m].sp
  {
    if m == 0 || s[m - 1].sp != s[m].sp then m else GroupLo(s, m - 1)
  }

  /** The group of index m ends before this index. */
  function GroupHi(s: seq<Action>, m: nat): (hi: nat)
    requires m < |s|
    ensures m < hi <= |s| && (hi == |s| || s[hi].sp != s[m].sp)
    ensures forall k :: m <= k < hi ==> s[k].sp == s[m].sp
    decreases |s| - m
  {
    if m + 1 == |s| || s[m + 1].sp != s[m].sp then m + 1 else GroupHi(s, m + 1)
  }

  ghost predicate AllCovered(g: Grammar, s: seq<Action>) {
    g.Valid() && forall i :: 0 <= i < |s| ==> g.Covers(s[i])
  }

  /** The index that survives among s[lo..k]: each newcomer replaces the choice it beats. */
  ghost function Winner(g: Grammar, s: seq<Action>, lo: nat, k: nat): (w: nat)
    requires AllCovered(g, s) && lo < k <= |s|
    ensures lo <= w < k
  {
    if k == lo + 1 then lo
    else
      var w := Winner(g, s, lo, k - 1);
      if Beats(g, s[k - 1], s[w]) then k - 1 else w
  }

  ghost predicate Wins(g: Grammar, s: seq<Action>, m: nat)
    requires AllCovered(g, s) && m < |s|
  {
    m == Winner(g, s, GroupLo(s, m), GroupHi(s, m))
  }

  /**
   The list as sorted: actions on one symbol are adjacent, and after the first action of a
   group, which may be a shift, come only reduces. An accept shares its symbol with nothing.
   */
  ghost predicate WellSorted(s: seq<Action>) {
    Ascending(s) && Grouped(s)
  }

  ghost predicate Grouped(s: seq<Action>) {
    && (forall i :: 0 <= i < |s| ==> Live(s[i]))
    && (forall i :: 0 < i < |s| ==> Follows(s[i - 1], s[i]))
  }

  predicate Follows(x: Action, y: Action) {
    x.sp == y.sp ==> y.kind == REDUCE && (x.kind == SHIFT || x.kind == REDUCE)
  }

  /** t is s with some kinds changed. */
  ghost predicate SameSlots(s: seq<Action>, t: seq<Action>) {
    |s| == |t| && forall i :: 0 <= i < |s| ==> t[i] == s[i].(kind := t[i].kind)
  }

  /** Exactly the winners are left as they were; everything else is dead, and marked as it lost. */
  ghost predicate Resolved(g: Grammar, s: seq<Action>, t: seq<Action>)
    requires AllCovered(g, s)
  {
    SameSlots(s, t) && forall i :: 0 <= i < |s| ==> ResolvedAt(g, s, t, i)
  }

  ghost predicate ResolvedAt(g: Grammar, s: seq<Action>, t: seq<Action>, i: nat)
    requires AllCovered(g, s) && i < |s| == |t|
  {
    t[i] == if Wins(g, s, i) then s[i] else Lost(g, s, GroupLo(s, i), i)
  }

  /**
   What becomes of the action at m of a group when it does not win: beaten by a later one, or
   rejected by the choice it meets.
   */
  ghost function Lost(g: Grammar, s: seq<Action>, lo: nat, m: nat): (a: Action)
    requires AllCovered(g, s) && lo <= m < |s|
    ensures Dead(a) && a == s[m].(kind := a.kind)
  {
    if m == lo || Beats(g, s[m], s[Winner(g, s, lo, m)]) then Beaten(s[m])
    else Rejected(g, s[Winner(g, s, lo, m)], s[m])
  }

  /** Progress inside one group [lo, hi): f is the winner so far, of the actions before c. */
  ghost predicate Standing(g: Grammar, s: seq<Action>, t: seq<Action>, lo: nat, hi: nat, f: nat, c: nat)
    requires AllCovered(g, s) && |t| == |s|
  {
    && lo <= f < c <= hi <= |s|
    && f == Winner(g, s, lo, c)
    && t[f] == s[f]
    && (forall m :: lo <= m < c && m != f ==> Dead(t[m]))
    && (forall m {:trigger Lost(g, s, lo, m)} :: lo <= m < c && m != f ==> t[m] == Lost(g, s, lo, m))
    && (forall m :: c <= m < hi ==> t[m] == s[m])
  }

  lemma GroupAt(s: seq<Action>, lo: nat, hi: nat, m: nat)
    requires IsGroup(s, lo, hi) && lo <= m < hi
    ensures GroupLo(s, m) == lo && GroupHi(s, m) == hi
  {
  }

  /** Outside [lo, hi) nothing has changed since t0. */
  ghost predicate OnlyIn(t0: seq<Action>, t: seq<Action>, lo: nat, hi: nat) {
    |t0| == |t| && forall m :: 0 <= m < |t| && !(lo <= m < hi) ==> t[m] == t0[m]
  }

  /**
   The inner loop: settles the action at i against all later actions on the same symbol. If i
   is the choice so far it meets every remaining action until one beats it; otherwise it is
   already out of the running and the loop changes nothing.
   */
  method ResolveRow(g: Grammar, t0: seq<Action>, i: nat, ghost s: seq<Action>, ghost lo: nat, ghost hi: nat,
                    ghost f: nat, ghost c: nat)
    returns (t: seq<Action>, errcnt: nat, ghost f': nat, ghost c': nat)
    requires AllCovered(g, s) && Grouped(s) && IsGroup(s, lo, hi) && lo <= i < hi
    requires SameSlots(s, t0) && Standing(g, s, t0, lo, hi, f, c)
    requires c == hi || (i <= f && c == f + 1)
    ensures SameSlots(s, t) && OnlyIn(t0, t, lo, hi) && Conflicts(t) == Conflicts(t0) + errcnt
    ensures Standing(g, s, t, lo, hi, f', c')
    ensures c' == hi || (i < f' && c' == f' + 1)
  {
    t, errcnt, f', c' := t0, 0, f, c;
    var j := i + 1;
    while j < |t| && t[j].sp == t[i].sp
      invariant i < j <= hi
      invariant OnlyIn(t0, t, lo, hi) && Conflicts(t) == Conflicts(t0) + errcnt
      invariant Round(g, s, t, lo, hi, f', c', i, j)
    {
      var e;
      t, e, f', c' := ResolvePair(g, t, i, j, s, lo, hi, f', c');
      errcnt := errcnt + e;
      j := j + 1;
    }
  }

  /** s[lo..hi] are all the actions on one symbol. */
  ghost predicate IsGroup(s: seq<Action>, lo: nat, hi: nat) {
    && lo < hi <= |s|
    && (lo == 0 || s[lo - 1].sp != s[lo].sp) && (hi == |s| || s[hi].sp != s[lo].sp)
    && forall k :: lo <= k < hi ==> s[k].sp == s[lo].sp
  }

  /** Settles the actions at i and j and leaves all others alone. */
  method Settle(g: Grammar, t0: seq<Action>, i: nat, j: nat) returns (t: seq<Action>, e: nat)
    requires g.Valid() && i < j < |t0| && g.Covers(t0[i]) && g.Covers(t0[j]) && t0[i].sp == t0[j].sp
    requires (t0[i].kind == SHIFT || t0[i].kind == REDUCE || Dead(t0[i])) && (t0[j].kind == REDUCE || Dead(t0[j]))
    ensures |t| == |t0| && t == t0[i := t[i]][j := t[j]] && Conflicts(t) == Conflicts(t0) + e
    ensures Live(t0[i]) && Live(t0[j]) ==>
              if Beats(g, t0[j], t0[i]) then t[i] == Beaten(t0[i]) && t[j] == t0[j]
              else t[j] == Rejected(g, t0[i], t0[j]) && t[i] == t0[i]
    ensures !(Live(t0[i]) && Live(t0[j])) ==> t[i] == t0[i] && t[j] == t0[j]
  {
    var x, y;
    x, y, e := ResolveConflict(g, t0[i], t0[j]);
    ConflictsPair(t0, i, j, x, y, e);
    t := t0[i := x][j := y];
  }

  method ResolvePair(g: Grammar, t0: seq<Action>, i: nat, j: nat, ghost s: seq<Action>, ghost lo: nat, ghost hi: nat,
                     ghost f: nat, ghost c: nat)
    returns (t: seq<Action>, e: nat, ghost f': nat, ghost c': nat)
    requires AllCovered(g, s) && Grouped(s) && IsGroup(s, lo, hi) && lo <= i < j < hi
    requires Round(g, s, t0, lo, hi, f, c, i, j)
    ensures OnlyIn(t0, t, lo, hi) && Conflicts(t) == Conflicts(t0) + e
    ensures Round(g, s, t, lo, hi, f', c', i, j + 1)
  {
    PairKinds(g, s, t0, lo, hi, f, c, i, j);
    t, e := Settle(g, t0, i, j);
    RoundStep(g, s, t0, lo, hi, f, c, i, j, t[i], t[j]);
    f', c' := f, c;
    if i == f && c == j {
      f', c' := if Beats(g, s[j], s[i]) then j else f, j + 1;
    }
  }

  /** What the inner loop keeps when the action at i has met all actions before j. */
  ghost predicate Round(g: Grammar, s: seq<Action>, t: seq<Action>, lo: nat, hi: nat, f: nat, c: nat, i: nat, j: nat)
    requires AllCovered(g, s)
  {
    && SameSlots(s, t) && Standing(g, s, t, lo, hi, f, c)
    && if i == f then c == j || c == hi else c == hi || (i < f && c == f + 1)
  }

  lemma PairKinds(g: Grammar, s: seq<Action>, t: seq<Action>, lo: nat, hi: nat, f: nat, c: nat, i: nat, j: nat)
    requires AllCovered(g, s) && Grouped(s) && IsGroup(s, lo, hi) && lo <= i < j < hi
    requires Round(g, s, t, lo, hi, f, c, i, j)
    ensures t[i] == s[i] || Dead(t[i])
    ensures t[j] == s[j] || Dead(t[j])
    ensures s[j].kind == REDUCE && (s[i].kind == SHIFT || s[i].kind == REDUCE)
    ensures g.Covers(t[i]) && g.Covers(t[j])
    ensures Live(t[i]) && Live(t[j]) ==> i == f && c == j
  {
    assert Follows(s[j - 1], s[j]);
    assert Follows(s[(i + 1) - 1], s[i + 1]);
  }

  /** A choice has displaced the one before it, unless it is the first. */
  lemma {:induction false} ChoiceBeat(g: Grammar, s: seq<Action>, lo: nat, k: nat)
    requires AllCovered(g, s) && lo < k <= |s|
    ensures var w := Winner(g, s, lo, k); w == lo || Beats(g, s[w], s[Winner(g, s, lo, w)])
  {
    if k > lo + 1 { ChoiceBeat(g, s, lo, k - 1); }
  }

  lemma LosesHere(g: Grammar, s: seq<Action>, lo: nat, f: nat, c: nat)
    requires AllCovered(g, s) && lo < c < |s| && f == Winner(g, s, lo, c)
    ensures if Beats(g, s[c], s[f]) then Lost(g, s, lo, f) == Beaten(s[f])
            else Lost(g, s, lo, c) == Rejected(g, s[f], s[c])
  {
    ChoiceBeat(g, s, lo, c);
  }

  /** The choice f meets the next action c of its group; t' is what the two become. */
  lemma StandingStep(g: Grammar, s: seq<Action>, t: seq<Action>, t': seq<Action>, lo: nat, hi: nat, f: nat, c: nat)
    requires AllCovered(g, s) && SameSlots(s, t) && Standing(g, s, t, lo, hi, f, c) && c < hi
    requires t' == if Beats(g, s[c], s[f]) then t[f := Beaten(s[f])] else t[c := Rejected(g, s[f], s[c])]
    ensures SameSlots(s, t') && Standing(g, s, t', lo, hi, if Beats(g, s[c], s[f]) then c else f, c + 1)
  {
    LosesHere(g, s, lo, f, c);
    var f', n := if Beats(g, s[c], s[f]) then c else f, c + 1;
    assert f' == Winner(g, s, lo, n);
    forall m | lo <= m < n && m != f' ensures t'[m] == Lost(g, s, lo, m) && Dead(t'[m]) {
      if m != f && m != c { assert t[m] == Lost(g, s, lo, m); }
    }
  }

  lemma RoundStep(g: Grammar, s: seq<Action>, t: seq<Action>, lo: nat, hi: nat, f: nat, c: nat, i: nat, j: nat,
                  x: Action, y: Action)
    requires AllCovered(g, s) && Grouped(s) && IsGroup(s, lo, hi) && lo <= i < j < hi
    requires Round(g, s, t, lo, hi, f, c, i, j)
    requires g.Covers(t[i]) && g.Covers(t[j])
    requires Live(t[i]) && Live(t[j]) ==>
               if Beats(g, t[j], t[i]) then x == Beaten(t[i]) && y == t[j]
               else y == Rejected(g, t[i], t[j]) && x == t[i]
    requires !(Live(t[i]) && Live(t[j])) ==> x == t[i] && y == t[j]
    ensures if i == f && c == j
            then Round(g, s, t[i := x][j := y], lo, hi, if Beats(g, s[j], s[i]) then j else f, j + 1, i, j + 1)
            else Round(g, s, t[i := x][j := y], lo, hi, f, c, i, j + 1)
  {
    PairKinds(g, s, t, lo, hi, f, c, i, j);
    var t' := t[i := x][j := y];
    if i == f && c == j {
      assert t[i] == s[i] && t[j] == s[j];
      assert Live(s[i]) && Live(s[j]);
      assert t' == if Beats(g, s[c], s[f]) then t[f := Beaten(s[f])] else t[c := Rejected(g, s[f], s[c])];
      StandingStep(g, s, t, t', lo, hi, f, c);
    } else {
      assert t' == t;
    }
  }

  /**
   Resolves all conflicts of one sorted action list: on every symbol the winner keeps its
   action and all others are marked dead.
   */
  method ResolveAll(g: Grammar, s: seq<Action>) returns (t: seq<Action>, nconflict: nat)
    requires AllCovered(g, s) && Grouped(s)
    ensures Resolved(g, s, t) && Conflicts(t) == Conflicts(s) + nconflict
  {
    t, nconflict := s, 0;
    if |s| == 0 { return; }
    ghost var lo: nat, hi: nat, f: nat, c: nat := 0, GroupHi(s, 0), 0, 1;
    var i := 0;
    while i + 1 < |t|
      invariant 0 <= i < |s|
      invariant Sweep(g, s, t, lo, hi, f, c, i) && Conflicts(t) == Conflicts(s) + nconflict
    {
      var e;
      t, e, lo, hi, f, c := ResolveNext(g, t, i, s, lo, hi, f, c);
      nconflict := nconflict + e;
      i := i + 1;
    }
    GroupDone(g, s, t, t, lo, hi, f, c);
  }

  /** One turn of the outer loop, which enters the next group when this one is done. */
  method ResolveNext(g: Grammar, t0: seq<Action>, i: nat, ghost s: seq<Action>, ghost lo: nat, ghost hi: nat,
                     ghost f: nat, ghost c: nat)
    returns (t: seq<Action>, e: nat, ghost lo': nat, ghost hi': nat, ghost f': nat, ghost c': nat)
    requires AllCovered(g, s) && Grouped(s) && i + 1 < |s| && Sweep(g, s, t0, lo, hi, f, c, i)
    ensures Sweep(g, s, t, lo', hi', f', c', i + 1) && Conflicts(t) == Conflicts(t0) + e
  {
    lo', hi' := lo, hi;
    t, e, f', c' := ResolveRow(g, t0, i, s, lo, hi, f, c);
    if i + 1 == hi {
      GroupDone(g, s, t0, t, lo, hi, f', c');
      lo', hi', f', c' := hi, GroupHi(s, hi), hi, hi + 1;
    } else {
      GroupsKept(g, s, t0, t, lo, hi);
    }
  }

  lemma GroupsKept(g: Grammar, s: seq<Action>, t0: seq<Action>, t: seq<Action>, lo: nat, hi: nat)
    requires AllCovered(g, s) && |t0| == |t| == |s| && lo <= |s|
    requires OnlyIn(t0, t, lo, hi) && (forall m :: 0 <= m < lo ==> ResolvedAt(g, s, t0, m))
    ensures forall m :: 0 <= m < lo ==> ResolvedAt(g, s, t, m)
  {
    forall m | 0 <= m < lo ensures ResolvedAt(g, s, t, m) {
      assert ResolvedAt(g, s, t0, m);
    }
  }

  /** All groups before lo are resolved, group [lo, hi) is under way, the rest is untouched. */
  ghost predicate Sweep(g: Grammar, s: seq<Action>, t: seq<Action>, lo: nat, hi: nat, f: nat, c: nat, i: nat)
    requires AllCovered(g, s)
  {
    && SameSlots(s, t) && IsGroup(s, lo, hi) && lo <= i < hi
    && Standing(g, s, t, lo, hi, f, c) && (c == hi || (i <= f && c == f + 1))
    && (forall m :: 0 <= m < lo ==> ResolvedAt(g, s, t, m))
    && (forall m :: hi <= m < |s| ==> t[m] == s[m])
  }

  lemma GroupDone(g: Grammar, s: seq<Action>, t0: seq<Action>, t: seq<Action>, lo: nat, hi: nat, f: nat, c: nat)
    requires AllCovered(g, s) && |t0| == |t| == |s| && IsGroup(s, lo, hi)
    requires OnlyIn(t0, t, lo, hi) && (forall m :: 0 <= m < lo ==> ResolvedAt(g, s, t0, m))
    requires Standing(g, s, t, lo, hi, f, c) && c == hi
    ensures forall m :: 0 <= m < hi ==> ResolvedAt(g, s, t, m)
  {
    forall m | 0 <= m < hi ensures ResolvedAt(g, s, t, m) {
      if m < lo {
        assert ResolvedAt(g, s, t0, m);
      } else {
        GroupAt(s, lo, hi, m);
      }
    }
  }

  // ----- what a state's list means for a symbol

  /** All actions on symbol x, in list order. */
  function OnSymbol(s: seq<Action>, x: nat): seq<Action> {
    if s == [] then []
    else if s[0].sp == x then [s[0]] + OnSymbol(s[1..], x)
    else OnSymbol(s[1..], x)
  }

  /** The action that survives on a symbol: each newcomer replaces the choice it beats. */
  ghost function Champion(g: Grammar, l: seq<Action>): Action
    requires AllCovered(g, l) && l != []
  {
    l[Winner(g, l, 0, |l|)]
  }

  /** The winner of a group is found from the group alone. */
  lemma {:induction false} WinnerOfSlice(g: Grammar, s: seq<Action>, l: seq<Action>, lo: nat, k: nat)
    requires AllCovered(g, s) && AllCovered(g, l) && lo < k <= lo + |l| <= |s| && l == s[lo..lo + |l|]
    ensures Winner(g, s, lo, k) == lo + Winner(g, l, 0, k - lo)
  {
    if k > lo + 1 {
      WinnerOfSlice(g, s, l, lo, k - 1);
    }
  }

  lemma {:induction false} OnSymbolNone(s: seq<Action>, x: nat)
    requires forall i :: 0 <= i < |s| ==> s[i].sp != x
    ensures OnSymbol(s, x) == []
  {
    if s != [] { OnSymbolNone(s[1..], x); }
  }

  lemma {:induction false} OnSymbolAll(s: seq<Action>, x: nat)
    requires forall i :: 0 <= i < |s| ==> s[i].sp == x
    ensures OnSymbol(s, x) == s
  {
    if s != [] { OnSymbolAll(s[1..], x); }
  }

  lemma {:induction false} OnSymbolConcat(s: seq<Action>, t: seq<Action>, x: nat)
    ensures OnSymbol(s + t, x) == OnSymbol(s, x) + OnSymbol(t, x)
  {
    if s == [] {
      assert s + t == t;
    } else {
      OnSymbolConcat(s[1..], t, x);
      assert (s + t)[1..] == s[1..] + t;
    }
  }

  ghost predicate Ascending(s: seq<Action>) {
    forall i, j :: 0 <= i < j < |s| ==> s[i].sp <= s[j].sp
  }

  /** In a sorted list the actions on a symbol are one group. */
  lemma {:induction false} SameGroup(s: seq<Action>, i: nat, j: nat)
    requires i <= j < |s| && Ascending(s) && s[i].sp == s[j].sp
    ensures GroupLo(s, i) == GroupLo(s, j) && GroupHi(s, i) == GroupHi(s, j)
    decreases j - i
  {
    if i < j {
      assert s[i].sp <= s[j - 1].sp <= s[j].sp;
      SameGroup(s, i, j - 1);
    }
  }

  lemma InGroup(s: seq<Action>, m: nat, i: nat)
    requires m < |s| && i < |s| && Ascending(s)
    ensures s[i].sp == s[m].sp <==> GroupLo(s, m) <= i < GroupHi(s, m)
  {
    if s[i].sp == s[m].sp {
      if i < m { SameGroup(s, i, m); } else { SameGroup(s, m, i); }
    }
  }

  lemma OnSymbolWithin(s: seq<Action>, lo: nat, hi: nat, x: nat)
    requires lo <= hi <= |s| && forall i :: 0 <= i < |s| ==> (s[i].sp == x <==> lo <= i < hi)
    ensures OnSymbol(s, x) == s[lo..hi]
  {
    OnSymbolNone(s[..lo], x);
    OnSymbolAll(s[lo..hi], x);
    OnSymbolNone(s[hi..], x);
    OnSymbolSplit(s, lo, hi, x);
  }

  lemma OnSymbolSplit(s: seq<Action>, lo: nat, hi: nat, x: nat)
    requires lo <= hi <= |s|
    ensures OnSymbol(s, x) == OnSymbol(s[..lo], x) + OnSymbol(s[lo..hi], x) + OnSymbol(s[hi..], x)
  {
    OnSymbolConcat(s[..lo] + s[lo..hi], s[hi..], x);
    OnSymbolConcat(s[..lo], s[lo..hi], x);
    assert s == s[..lo] + s[lo..hi] + s[hi..];
  }

  /** No two live actions share a symbol. */
  predicate OneOfPair(x: Action, y: Action) {
    !(Live(x) && Live(y) && x.sp == y.sp)
  }

  ghost predicate UniqueLive(t: seq<Action>) {
    Pairwise(OneOfPair, t)
  }

  /** The table entry the list calls for on symbol x. */
  function ListAction(t: seq<Action>, x: nat): Option<Action> {
    if t == [] then None
    else if t[0].sp == x && Live(t[0]) then Some(t[0])
    else ListAction(t[1..], x)
  }

  lemma {:induction false} ListActionIs(t: seq<Action>, i: nat)
    requires i < |t| && Live(t[i]) && UniqueLive(t)
    ensures ListAction(t, t[i].sp) == Some(t[i])
  {
    if i > 0 {
      assert OneOfPair(t[0], t[i]);
      assert t[1..][i - 1] == t[i];
      ListActionIs(t[1..], i - 1);
    }
  }

  lemma {:induction false} ListActionFrom(t: seq<Action>, x: nat) returns (i: nat)
    requires ListAction(t, x).Some?
    ensures i < |t| && Live(t[i]) && t[i].sp == x && ListAction(t, x) == Some(t[i])
  {
    if t[0].sp == x && Live(t[0]) {
      i := 0;
    } else {
      i := ListActionFrom(t[1..], x);
      i := i + 1;
    }
  }

  lemma {:induction false} OnSymbolCovered(g: Grammar, s: seq<Action>, x: nat)
    requires AllCovered(g, s)
    ensures AllCovered(g, OnSymbol(s, x))
  {
    if s != [] { OnSymbolCovered(g, s[1..], x); }
  }

  lemma GroupOnSymbol(s: seq<Action>, m: nat)
    requires m < |s| && Ascending(s)
    ensures OnSymbol(s, s[m].sp) == s[GroupLo(s, m)..GroupHi(s, m)]
  {
    var lo, hi, x := GroupLo(s, m), GroupHi(s, m), s[m].sp;
    forall i | 0 <= i < |s| ensures s[i].sp == x <==> lo <= i < hi { InGroup(s, m, i); }
    OnSymbolWithin(s, lo, hi, x);
  }

  lemma GroupWinner(g: Grammar, s: seq<Action>, t: seq<Action>, m: nat)
    requires AllCovered(g, s) && Grouped(s) && Resolved(g, s, t) && m < |s|
    ensures var w := Winner(g, s, GroupLo(s, m), GroupHi(s, m));
            t[w] == s[w] && Live(t[w]) && s[w].sp == s[m].sp
  {
    var lo, hi := GroupLo(s, m), GroupHi(s, m);
    var w := Winner(g, s, lo, hi);
    GroupAt(s, lo, hi, w);
    assert ResolvedAt(g, s, t, w);
  }

  /**
   Conflict resolution leaves exactly one live action on every symbol that had any, namely
   the champion of the actions on that symbol, and none on the other symbols.
   */
  lemma ResolvedMeaning(g: Grammar, s: seq<Action>, t: seq<Action>, x: nat)
    requires AllCovered(g, s) && WellSorted(s) && Resolved(g, s, t)
    ensures UniqueLive(t)
    ensures AllCovered(g, OnSymbol(s, x))
    ensures ListAction(t, x) == if OnSymbol(s, x) == [] then None else Some(Champion(g, OnSymbol(s, x)))
  {
    ResolvedUnique(g, s, t);
    OnSymbolCovered(g, s, x);
    if m :| 0 <= m < |s| && s[m].sp == x {
      ChampionOfGroup(g, s, m);
      GroupWinner(g, s, t, m);
      ListActionIs(t, Winner(g, s, GroupLo(s, m), GroupHi(s, m)));
    } else {
      OnSymbolNone(s, x);
      NoneLeft(s, t, x);
    }
  }

  lemma ChampionOfGroup(g: Grammar, s: seq<Action>, m: nat)
    requires AllCovered(g, s) && Ascending(s) && m < |s|
    ensures OnSymbol(s, s[m].sp) != [] && AllCovered(g, OnSymbol(s, s[m].sp))
    ensures Champion(g, OnSymbol(s, s[m].sp)) == s[Winner(g, s, GroupLo(s, m), GroupHi(s, m))]
  {
    GroupOnSymbol(s, m);
    OnSymbolCovered(g, s, s[m].sp);
    ChampionOfSlice(g, s, OnSymbol(s, s[m].sp), GroupLo(s, m), GroupHi(s, m));
  }

  lemma ChampionOfSlice(g: Grammar, s: seq<Action>, l: seq<Action>, lo: nat, hi: nat)
    requires AllCovered(g, s) && AllCovered(g, l) && lo < hi <= |s| && l == s[lo..hi]
    ensures l != [] && Champion(g, l) == s[Winner(g, s, lo, hi)]
  {
    assert |l| == hi - lo;
    WinnerOfSlice(g, s, l, lo, hi);
  }

  lemma NoneLeft(s: seq<Action>, t: seq<Action>, x: nat)
    requires SameSlots(s, t) && forall m :: 0 <= m < |s| ==> s[m].sp != x
    ensures ListAction(t, x) == None
  {
    if ListAction(t, x).Some? {
      var i := ListActionFrom(t, x);
    }
  }

  lemma ResolvedUnique(g: Grammar, s: seq<Action>, t: seq<Action>)
    requires AllCovered(g, s) && WellSorted(s) && Resolved(g, s, t)
    ensures UniqueLive(t)
  {
    forall i, j | 0 <= i < j < |t| ensures OneOfPair(t[i], t[j]) && OneOfPair(t[j], t[i]) {
      OneOfTwo(g, s, t, i, j);
    }
  }

  lemma OneOfTwo(g: Grammar, s: seq<Action>, t: seq<Action>, i: nat, j: nat)
    requires AllCovered(g, s) && Ascending(s) && i < j < |s| == |t|
    requires t[i].sp == s[i].sp && t[j].sp == s[j].sp && ResolvedAt(g, s, t, i) && ResolvedAt(g, s, t, j)
    ensures OneOfPair(t[i], t[j])
  {
    if t[i].sp == t[j].sp {
      SameGroup(s, i, j);
    }
  }

  // ----- the raw list and its sort

  function Rank(k: Kind): nat {
    match k
    case SHIFT => 0 case ACCEPT => 1 case REDUCE => 2 case ERROR => 3
    case CONFLICT => 4 case SH_RESOLVED => 5 case RD_RESOLVED => 6 case NOT_USED => 7
  }

  /** The sort order of actions: symbol, then kind, then rule. */
  predicate ActionLess(x: Action, y: Action) {
    || x.sp < y.sp
    || (x.sp == y.sp && Rank(x.kind) < Rank(y.kind))
    || (x.sp == y.sp && Rank(x.kind) == Rank(y.kind) && x.arg < y.arg)
  }

  /** Actions the state construction may put on one symbol together. */
  predicate MayShare(x: Action, y: Action) {
    x.sp == y.sp ==> (x.kind == REDUCE || y.kind == REDUCE) && x.kind != ACCEPT && y.kind != ACCEPT
  }

  predicate IsRaw(a: Action) {
    a.kind == SHIFT || a.kind == REDUCE || a.kind == ACCEPT
  }

  ghost predicate RawList(s: seq<Action>) {
    (forall i :: 0 <= i < |s| ==> IsRaw(s[i])) && Pairwise(MayShare, s)
  }

  /** Sorting a raw list brings it into the shape conflict resolution relies on. */
  lemma SortedRawList(g: Grammar, s: seq<Action>)
    requires RawList(s) && AllCovered(g, s)
    ensures WellSorted(ISort(ActionLess, s)) && AllCovered(g, ISort(ActionLess, s))
  {
    var U := set i | 0 <= i < |s| :: s[i];
    var t := ISort(ActionLess, s);
    assert OrderOn(ActionLess, U);
    assert AllIn(s, U);
    ISortIn(ActionLess, s, U);
    ISortSorted(ActionLess, s, U);
    ISortPairwise(ActionLess, MayShare, s);
    assert forall i :: 0 <= i < |t| ==> t[i] in U;
    forall i | 0 < i < |t| ensures Follows(t[i - 1], t[i]) {
      assert MayShare(t[i - 1], t[i]);
      assert !ActionLess(t[i], t[i - 1]);
      assert t[i] in U && t[i - 1] in U;
    }
    forall i, j | 0 <= i < j < |t| ensures t[i].sp <= t[j].sp {
      assert !ActionLess(t[j], t[i]);
    }
  }

  /** Sorts the action list of a state. */
  method SortActions(s: seq<Action>) returns (t: seq<Action>)
    ensures t == ISort(ActionLess, Kept(s))
  {
    ghost var U := set i | 0 <= i < |s| :: s[i];
    assert OrderOn(ActionLess, U) && AllIn(s, U);
    t := SortList(ActionLess, s, U);
  }
  // ----- which action wins, told without the contest

  /** The precedence of an action: its symbol's for a shift, its rule's for a reduction; negative if there is none. */
  function Prec(g: Grammar, a: Action): int
    requires g.Valid() && g.Covers(a)
  {
    match a.kind
    case SHIFT => if a.sp < |g.symbols| && g.symbols[a.sp].prec >= 0 then g.symbols[a.sp].prec else -1
    case REDUCE => g.RulePrec(a.arg)
    case _ => -1
  }

  /** The actions on one symbol as sorted: at most the first is not a reduction, and rules ascend. */
  ghost predicate SortedGroup(l: seq<Action>) {
    && l != [] && (forall i :: 0 <= i < |l| ==> l[i].sp == l[0].sp)
    && (forall i :: 0 < i < |l| ==> l[i].kind == REDUCE)
    && (|l| > 1 ==> l[0].kind == SHIFT || l[0].kind == REDUCE)
    && (forall i, j :: 0 <= i < j < |l| && l[i].kind == REDUCE ==> l[i].arg <= l[j].arg)
  }

  /** Of two actions of the same precedence, at places i < j of a group, the one at i prevails. */
  predicate Keeps(g: Grammar, l: seq<Action>, i: nat)
    requires g.Valid() && i < |l| && g.Covers(l[i])
  {
    l[i].kind == SHIFT && l[i].sp < |g.symbols| ==> g.symbols[l[i].sp].assoc != LEFT
  }

  /**
   The winner of the first k: the first action if it has no precedence; else it has the greatest precedence, and
   of those that share it, it is the first, but the shift of a left-associative symbol gives way.
   */
  lemma {:induction false} WinnerLaw(g: Grammar, l: seq<Action>, k: nat)
    requires AllCovered(g, l) && SortedGroup(l) && 0 < k <= |l|
    ensures var w := Winner(g, l, 0, k);
      if Prec(g, l[0]) < 0 then w == 0
      else && Prec(g, l[w]) >= 0 && (forall i :: 0 <= i < k ==> Prec(g, l[i]) <= Prec(g, l[w]))
           && (forall i :: 0 <= i < w && Prec(g, l[i]) == Prec(g, l[w]) ==> i == 0 && !Keeps(g, l, 0))
           && (forall i :: w < i < k && Prec(g, l[i]) == Prec(g, l[w]) ==> Keeps(g, l, w))
  {
    if k > 1 {
      WinnerLaw(g, l, k - 1);
      assert g.Covers(l[k - 1]) && g.Covers(l[0]);
    }
  }

  /** b is one of the actions on symbol x. */
  predicate On(l: seq<Action>, x: nat, b: Action) {
    b in l && b.sp == x
  }

  /**
   The action that stays where precedence says nothing: the shift or accept if there is one, else the
   least rule's.
   */
  ghost predicate Leads(l: seq<Action>, x: nat, f: Action) {
    On(l, x, f) && (f.kind == REDUCE ==> forall b :: On(l, x, b) ==> b.kind == REDUCE && f.arg <= b.arg)
  }

  /** b yields to a of the same precedence: to a shift unless the symbol is left-associative, and to a lesser rule. */
  ghost predicate Yields(g: Grammar, b: Action, a: Action)
    requires g.Valid()
  {
    if a.kind == SHIFT then a.sp < |g.symbols| && g.symbols[a.sp].assoc != LEFT
    else if b.kind == SHIFT then b.sp < |g.symbols| && g.symbols[b.sp].assoc == LEFT
    else a.arg < b.arg
  }

  /**
   What a state with these actions must do on symbol x, in whatever order they stand: the leading action if it has no
   precedence, else one of the greatest precedence to which all others of that precedence yield.
   */
  ghost predicate Chosen(g: Grammar, l: seq<Action>, x: nat, a: Action)
    requires AllCovered(g, l)
  {
    On(l, x, a) && exists f :: Leads(l, x, f) && if Prec(g, f) < 0 then a == f else Prevails(g, l, x, a)
  }

  ghost predicate Prevails(g: Grammar, l: seq<Action>, x: nat, a: Action)
    requires AllCovered(g, l) && On(l, x, a)
  {
    && (forall b :: On(l, x, b) ==> Prec(g, b) <= Prec(g, a))
    && (forall b :: On(l, x, b) && b != a && Prec(g, b) == Prec(g, a) ==> Yields(g, b, a))
  }

  lemma Share(l: seq<Action>, a: Action, b: Action)
    requires RawList(l) && a in l && b in l
    ensures a == b || MayShare(a, b)
  {
    var i :| 0 <= i < |l| && l[i] == a;
    var j :| 0 <= j < |l| && l[j] == b;
    if i < j {
      assert MayShare(l[i], l[j]);
    } else if j < i {
      assert MayShare(l[j], l[i]);
    }
  }

  lemma LeaderUnique(l: seq<Action>, x: nat, f: Action, h: Action)
    requires RawList(l) && Leads(l, x, f) && Leads(l, x, h)
    ensures f == h
  {
    Share(l, f, h);
  }

  /** There is no more than one such action. */
  lemma ChosenUnique(g: Grammar, l: seq<Action>, x: nat, a: Action, b: Action)
    requires RawList(l) && AllCovered(g, l) && Chosen(g, l, x, a) && Chosen(g, l, x, b)
    ensures a == b
  {
    var f :| Leads(l, x, f) && if Prec(g, f) < 0 then a == f else Prevails(g, l, x, a);
    var h :| Leads(l, x, h) && if Prec(g, h) < 0 then b == h else Prevails(g, l, x, b);
    LeaderUnique(l, x, f, h);
    Share(l, a, b);
  }

  lemma {:induction false} OnSymbolMembers(s: seq<Action>, x: nat, b: Action)
    ensures b in OnSymbol(s, x) <==> On(s, x, b)
  {
    if s != [] {
      OnSymbolMembers(s[1..], x, b);
      assert s == [s[0]] + s[1..];
    }
  }

  lemma SortedMembers(raw: seq<Action>, x: nat, b: Action)
    ensures b in OnSymbol(ISort(ActionLess, raw), x) <==> On(raw, x, b)
  {
    var s := ISort(ActionLess, raw);
    OnSymbolMembers(s, x, b);
    ISortElems(ActionLess, raw);
    assert b in s <==> b in multiset(s);
    assert b in raw <==> b in multiset(raw);
  }

  /** In a sorted list the actions on a symbol have the shape that the contest relies on. */
  lemma GroupSorted(s: seq<Action>, x: nat)
    requires WellSorted(s) && Sorted(ActionLess, s) && OnSymbol(s, x) != []
    ensures SortedGroup(OnSymbol(s, x))
  {
    if m :| 0 <= m < |s| && s[m].sp == x {
      GroupOnSymbol(s, m);
      SliceSorted(s, OnSymbol(s, x), GroupLo(s, m), x);
    } else {
      OnSymbolNone(s, x);
    }
  }

  lemma SliceSorted(s: seq<Action>, l: seq<Action>, lo: nat, x: nat)
    requires Grouped(s) && Sorted(ActionLess, s) && l != [] && lo + |l| <= |s| && l == s[lo..lo + |l|]
    requires forall i :: lo <= i < lo + |l| ==> s[i].sp == x
    ensures SortedGroup(l)
  {
    assert forall i :: 0 <= i < |l| ==> l[i] == s[lo + i];
    forall i | 0 < i < |l| ensures l[i].kind == REDUCE {
      assert Follows(s[lo + i - 1], s[lo + i]);
    }
    if |l| > 1 { assert Follows(s[lo + 1 - 1], s[lo + 1]); }
    forall i, j | 0 <= i < j < |l| && l[i].kind == REDUCE ensures l[i].arg <= l[j].arg {
      assert !ActionLess(s[lo + j], s[lo + i]);
    }
  }

  /** The survivor of the contest over the sorted list is the action that the raw list calls for. */
  lemma ChampionChosen(g: Grammar, raw: seq<Action>, x: nat)
    requires RawList(raw) && AllCovered(g, raw) && OnSymbol(ISort(ActionLess, raw), x) != []
    ensures AllCovered(g, OnSymbol(ISort(ActionLess, raw), x))
    ensures Chosen(g, raw, x, Champion(g, OnSymbol(ISort(ActionLess, raw), x)))
  {
    var s := ISort(ActionLess, raw);
    var l := OnSymbol(s, x);
    SortedRawList(g, raw);
    RawSorted(raw);
    OnSymbolCovered(g, s, x);
    GroupSorted(s, x);
    forall b ensures b in l <==> On(raw, x, b) {
      SortedMembers(raw, x, b);
    }
    WinnerLaw(g, l, |l|);
    GroupChosen(g, raw, l, x);
  }

  lemma RawSorted(raw: seq<Action>)
    ensures Sorted(ActionLess, ISort(ActionLess, raw))
  {
    var U := set i | 0 <= i < |raw| :: raw[i];
    assert OrderOn(ActionLess, U) && AllIn(raw, U);
    ISortSorted(ActionLess, raw, U);
  }

  lemma GroupChosen(g: Grammar, raw: seq<Action>, l: seq<Action>, x: nat)
    requires AllCovered(g, raw) && AllCovered(g, l) && SortedGroup(l) && forall b :: b in l <==> On(raw, x, b)
    ensures Chosen(g, raw, x, Champion(g, l))
  {
    WinnerLaw(g, l, |l|);
    var w := Winner(g, l, 0, |l|);
    var a, f := l[w], l[0];
    assert a in l && f in l;
    forall b | On(raw, x, b) ensures f.kind == REDUCE ==> b.kind == REDUCE && f.arg <= b.arg {
      assert b in l;
      var i :| 0 <= i < |l| && l[i] == b;
    }
    assert Leads(raw, x, f);
    if Prec(g, f) >= 0 {
      forall b | On(raw, x, b)
        ensures Prec(g, b) <= Prec(g, a) && (b != a && Prec(g, b) == Prec(g, a) ==> Yields(g, b, a))
      {
        assert b in l;
        var i :| 0 <= i < |l| && l[i] == b;
      }
    }
  }
  // ----- which actions are conflicts

  /**
   The action at m of a group is a conflict: the first one or it has no precedence, or its precedence is the greatest
   so far and shared, and not just with a shift whose associativity breaks the tie.
   */
  ghost predicate Clashes(g: Grammar, l: seq<Action>, m: nat)
    requires AllCovered(g, l) && m < |l|
  {
    m > 0 && (Prec(g, l[0]) < 0 || Prec(g, l[m]) < 0 || (TiesAtTop(g, l, m) && !ShiftDecides(g, l, m)))
  }

  ghost predicate TiesAtTop(g: Grammar, l: seq<Action>, m: nat)
    requires AllCovered(g, l) && m < |l|
  {
    && (forall i :: 0 <= i < m ==> Prec(g, l[i]) <= Prec(g, l[m]))
    && exists i :: 0 <= i < m && Prec(g, l[i]) == Prec(g, l[m])
  }

  ghost predicate ShiftDecides(g: Grammar, l: seq<Action>, m: nat)
    requires AllCovered(g, l) && m < |l|
  {
    l[0].kind == SHIFT && l[0].sp < |g.symbols| && Prec(g, l[0]) == Prec(g, l[m]) &&
    (g.symbols[l[0].sp].assoc == RIGHT ||
     (g.symbols[l[0].sp].assoc == LEFT && forall i :: 0 < i < m ==> Prec(g, l[i]) != Prec(g, l[m])))
  }

  lemma LostLaw(g: Grammar, l: seq<Action>, m: nat)
    requires AllCovered(g, l) && SortedGroup(l) && m < |l|
    ensures Lost(g, l, 0, m).kind == CONFLICT <==> Clashes(g, l, m)
  {
    if m > 0 {
      WinnerLaw(g, l, m);
      var w := Winner(g, l, 0, m);
      assert g.Covers(l[0]) && g.Covers(l[w]) && g.Covers(l[m]) && l[w].sp == l[m].sp == l[0].sp;
      if Prec(g, l[0]) >= 0 { assert TiesAtTop(g, l, m) <==> Prec(g, l[m]) == Prec(g, l[w]); }
    }
  }

  lemma MarkedAsLost(g: Grammar, s: seq<Action>, t: seq<Action>, m: nat)
    requires AllCovered(g, s) && Grouped(s) && Resolved(g, s, t) && m < |s|
    ensures t[m].kind == CONFLICT <==> Lost(g, s, GroupLo(s, m), m).kind == CONFLICT
  {
    assert ResolvedAt(g, s, t, m) && Live(s[m]);
    if Wins(g, s, m) { ChoiceBeat(g, s, GroupLo(s, m), GroupHi(s, m)); }
  }

  /** The actions on the same symbol as the one at m. */
  ghost function GroupOf(s: seq<Action>, m: nat): (l: seq<Action>)
    requires m < |s|
    ensures |l| == GroupHi(s, m) - GroupLo(s, m)
  {
    s[GroupLo(s, m)..GroupHi(s, m)]
  }

  lemma GroupOfSorted(g: Grammar, s: seq<Action>, m: nat)
    requires AllCovered(g, s) && Grouped(s) && Sorted(ActionLess, s) && m < |s|
    ensures AllCovered(g, GroupOf(s, m)) && SortedGroup(GroupOf(s, m))
  {
    var lo, l := GroupLo(s, m), GroupOf(s, m);
    assert forall i :: 0 <= i < |l| ==> l[i] == s[lo + i];
    SliceSorted(s, l, lo, s[m].sp);
  }

  /** After conflict resolution exactly these are marked as conflicts, and so counted. */
  lemma ConflictsAre(g: Grammar, s: seq<Action>, t: seq<Action>, m: nat)
    requires AllCovered(g, s) && Grouped(s) && Sorted(ActionLess, s) && Resolved(g, s, t) && m < |s|
    ensures AllCovered(g, GroupOf(s, m)) && GroupOf(s, m)[m - GroupLo(s, m)] == s[m]
    ensures t[m].kind == CONFLICT <==> Clashes(g, GroupOf(s, m), m - GroupLo(s, m))
  {
    GroupOfSorted(g, s, m);
    MarkedAsLost(g, s, t, m);
    LostClashes(g, s, m, GroupLo(s, m), GroupOf(s, m));
  }

  lemma LostClashes(g: Grammar, s: seq<Action>, m: nat, lo: nat, l: seq<Action>)
    requires AllCovered(g, s) && AllCovered(g, l) && SortedGroup(l)
    requires lo <= m < lo + |l| <= |s| && l == s[lo..lo + |l|]
    ensures l[m - lo] == s[m] && (Lost(g, s, lo, m).kind == CONFLICT <==> Clashes(g, l, m - lo))
  {
    LostOfSlice(g, s, l, lo, m);
    LostLaw(g, l, m - lo);
  }

  lemma LostOfSlice(g: Grammar, s: seq<Action>, l: seq<Action>, lo: nat, m: nat)
    requires AllCovered(g, s) && AllCovered(g, l) && lo <= m < lo + |l| <= |s| && l == s[lo..lo + |l|]
    ensures Lost(g, s, lo, m) == Lost(g, l, 0, m - lo)
  {
    if lo < m { WinnerOfSlice(g, s, l, lo, m); }
  }
}
