/**
 The parser generator's back end as a whole: raw action lists in, driver tables out. The
 driver's answer for a state and a symbol is the precedence champion of that state's actions
 on the symbol, or the state's default where it has none.
 */
module ParserGenerator {
  import opened Values
  import opened MergeSort
  import opened ConflictResolution
  import opened Compression
  import opened ParserTables

  /**
   The actions a state may carry: on known symbols, to known states and by known rules, reducing only
   on terminals.
   */
  predicate InRange(d: Dims, a: Action) {
    && a.sp < d.nsymbol
    && (a.kind == SHIFT ==> a.arg < d.nstate)
    && (a.kind == REDUCE ==> a.sp < d.nterminal && a.arg < d.nrule)
  }

  ghost predicate RawState(g: Grammar, d: Dims, raw: seq<Action>) {
    && RawList(raw) && AllCovered(g, raw)
    && forall i :: 0 <= i < |raw| ==> InRange(d, raw[i])
  }

  /** What a state must do on symbol x, given its default. */
  ghost function Answer(g: Grammar, d: Dims, raw: seq<Action>, dflt: int, x: nat): int
    requires AllCovered(g, OnSymbol(ISort(ActionLess, raw), x))
  {
    var l := OnSymbol(ISort(ActionLess, raw), x);
    if l == [] then dflt else ComputeAction(d, Champion(g, l))
  }

  /** The default is an error, or the rule that wins most often if it wins at least twice. */
  ghost predicate GoodDefault(d: Dims, t: seq<Action>, dflt: int) {
    || (dflt == d.ErrorAction() && forall r: nat :: Count(t, r) < 2)
    || (exists r: nat :: IsMostFrequent(t, r) && Count(t, r) >= 2 && dflt == r + d.nstate)
  }

  lemma ResolvedStateList(g: Grammar, d: Dims, raw: seq<Action>, s: seq<Action>, t: seq<Action>)
    requires RawState(g, d, raw) && s == ISort(ActionLess, raw) && AllCovered(g, s) && Resolved(g, s, t)
    ensures StateList(t, d.nterminal, d.nsymbol)
  {
    var U := set i | 0 <= i < |raw| :: raw[i];
    ISortIn(ActionLess, raw, U);
    assert AllIn(raw, U);
    forall i | 0 <= i < |t| ensures t[i].sp < d.nsymbol && (t[i].kind == REDUCE ==> t[i].sp < d.nterminal) {
      assert s[i] in U;
      assert ResolvedAt(g, s, t, i);
    }
  }

  /** What the first sort keeps of a list is as good as the list. */
  lemma KeptState(g: Grammar, d: Dims, raw: seq<Action>)
    requires RawState(g, d, raw)
    ensures RawState(g, d, Kept(raw))
  {
    KeptSuffix(raw);
    var k := Kept(raw);
    var i :| 0 <= i <= |raw| && k == raw[i..];
    assert forall p :: 0 <= p < |k| ==> k[p] == raw[i + p];
    forall p, q | 0 <= p < q < |k| ensures MayShare(k[p], k[q]) {
      assert MayShare(raw[i + p], raw[i + q]);
    }
  }

  /** Sorts, resolves and compresses the list of one state. */
  method CompileState(g: Grammar, d: Dims, raw: seq<Action>) returns (ghost t: seq<Action>, u: seq<Action>)
    requires d.Valid() && RawState(g, d, raw)
    ensures StateDone(g, d, Kept(raw), t, u)
  {
    KeptState(g, d, raw);
    ghost var kept := Kept(raw);
    SortedRawList(g, kept);
    ISortIn(ActionLess, kept, {});
    var s := SortActions(raw);
    var resolved, nconflict := ResolveAll(g, s);
    t := resolved;
    ResolvedStateList(g, d, kept, s, t);
    ResolvedUnique(g, s, t);
    u := CompressState(resolved, d.nterminal, d.nsymbol);
    CompressionKeeps(d, t, u);
    forall x | 0 <= x < d.nsymbol
      ensures AllCovered(g, OnSymbol(s, x)) && Meaning(d, u, x) == Answer(g, d, kept, Default(d, u), x)
    {
      ResolvedMeaning(g, s, t, x);
    }
  }

  /** Compression fixes a default and otherwise changes no answer. */
  lemma CompressionKeeps(d: Dims, t: seq<Action>, u: seq<Action>)
    requires StateList(t, d.nterminal, d.nsymbol) && UniqueLive(t)
    requires if exists r: nat :: Count(t, r) >= 2
             then exists r: nat :: IsMostFrequent(t, r) && Count(t, r) >= 2 && Compressed(t, u, r, d.nsymbol)
             else u == t
    ensures UniqueLive(u) && GoodDefault(d, t, Default(d, u))
    ensures forall x :: 0 <= x < d.nsymbol ==>
              Meaning(d, u, x) == match ListAction(t, x) case Some(a) => ComputeAction(d, a) case None => Default(d, u)
  {
    if exists r: nat :: Count(t, r) >= 2 {
      var r: nat :| IsMostFrequent(t, r) && Count(t, r) >= 2 && Compressed(t, u, r, d.nsymbol);
      assert Default(d, u) == r + d.nstate;
    } else {
      if ListAction(t, d.nsymbol).Some? {
        var i := ListActionFrom(t, d.nsymbol);
      }
    }
  }

  /** Row sizes in descending order. */
  predicate Larger(x: AxSet, y: AxSet) {
    x.nAction > y.nAction
  }

  lemma SortSets(d: Dims, us: seq<seq<Action>>)
    ensures SortedSets(d, us, ISort(Larger, AxSets(d, us)))
  {
    var ax := AxSets(d, us);
    var U := set i | 0 <= i < |ax| :: ax[i];
    assert OrderOn(Larger, U) && AllIn(ax, U);
    ISortElems(Larger, ax);
    ISortSorted(Larger, ax, U);
    var s := ISort(Larger, ax);
    forall i, j | 0 <= i < j < |s| ensures s[i].nAction >= s[j].nAction {
      assert !Larger(s[j], s[i]);
    }
  }

  // ----- what the tables mean, told from the raw lists alone

  /** The symbols on which the list calls for a reduction by r. */
  ghost function Won(g: Grammar, raw: seq<Action>, n: nat, r: nat): set<nat>
    requires AllCovered(g, raw)
  {
    set x: nat | x < n && Chosen(g, raw, x, Action(x, REDUCE, r))
  }

  /** The rule called for most often, at least twice; of several, the one called for on the least symbol. */
  ghost predicate Favourite(g: Grammar, raw: seq<Action>, n: nat, r: nat)
    requires AllCovered(g, raw)
  {
    && |Won(g, raw, n, r)| >= 2 && (forall q: nat :: |Won(g, raw, n, q)| <= |Won(g, raw, n, r)|)
    && exists x :: FirstFavoured(g, raw, n, r, x)
  }

  ghost predicate FirstFavoured(g: Grammar, raw: seq<Action>, n: nat, r: nat, x: nat)
    requires AllCovered(g, raw)
  {
    x in Won(g, raw, n, r) &&
    forall y: nat, q: nat :: y < x && y in Won(g, raw, n, q) ==> |Won(g, raw, n, q)| < |Won(g, raw, n, r)|
  }

  /** A state errs by default if no rule is called for twice, and else reduces by the favourite. */
  ghost predicate DefaultMeans(g: Grammar, d: Dims, raw: seq<Action>, dflt: int)
    requires AllCovered(g, raw)
  {
    match Decode(d, dflt)
    case DoError => forall r: nat :: |Won(g, raw, d.nsymbol, r)| < 2
    case DoReduce(r) => Favourite(g, raw, d.nsymbol, r)
    case _ => false
  }

  /** On symbol x the driver does what the list calls for, and takes the default only where it calls for nothing. */
  ghost predicate AnswerMeans(g: Grammar, d: Dims, raw: seq<Action>, dflt: int, x: nat, n: int)
    requires AllCovered(g, raw)
  {
    if exists a :: On(raw, x, a) then exists a :: Chosen(g, raw, x, a) && Decode(d, n) == Doing(a) else n == dflt
  }

  /** State st of the tables does what its raw list asks for. */
  ghost predicate Compiled(g: Grammar, d: Dims, raw: seq<Action>, tab: Tables, st: nat)
    requires Sized(tab, d) && st < d.nstate && AllCovered(g, raw)
  {
    && DefaultMeans(g, d, raw, tab.dflt[st])
    && (forall x :: 0 <= x < d.nterminal ==>
          AnswerMeans(g, d, raw, tab.dflt[st], x, FindShiftAction(tab, d, st, x)))
    && (forall x :: d.nterminal <= x < d.nsymbol ==>
          AnswerMeans(g, d, raw, tab.dflt[st], x, FindReduceAction(tab, d, st, x)))
  }

  /** The live actions of the resolved list are those that the raw list calls for. */
  lemma ResolvedChosen(g: Grammar, d: Dims, raw: seq<Action>, t: seq<Action>, x: nat, a: Action)
    requires RawState(g, d, raw) && AllCovered(g, ISort(ActionLess, raw)) && Resolved(g, ISort(ActionLess, raw), t)
    ensures ListAction(t, x) == Some(a) <==> Chosen(g, raw, x, a)
  {
    var s := ISort(ActionLess, raw);
    SortedRawList(g, raw);
    ResolvedMeaning(g, s, t, x);
    if OnSymbol(s, x) != [] {
      ChampionChosen(g, raw, x);
      if Chosen(g, raw, x, a) { ChosenUnique(g, raw, x, a, Champion(g, OnSymbol(s, x))); }
    } else {
      SortedMembers(raw, x, a);
    }
  }

  lemma CountIsWon(g: Grammar, d: Dims, raw: seq<Action>, t: seq<Action>, r: nat)
    requires RawState(g, d, raw) && AllCovered(g, ISort(ActionLess, raw)) && Resolved(g, ISort(ActionLess, raw), t)
    ensures ReducedOn(t, r, d.nsymbol) == Won(g, raw, d.nsymbol, r) && Count(t, r) == |Won(g, raw, d.nsymbol, r)|
  {
    SortedRawList(g, raw);
    ResolvedUnique(g, ISort(ActionLess, raw), t);
    ResolvedStateList(g, d, raw, ISort(ActionLess, raw), t);
    forall x: nat ensures x in ReducedOn(t, r, d.nsymbol) <==> x in Won(g, raw, d.nsymbol, r) {
      ResolvedChosen(g, d, raw, t, x, Action(x, REDUCE, r));
    }
    CountSymbols(t, r, d.nsymbol);
  }

  /** The first of the most frequent in the list is called for on the least symbol. */
  lemma FirstIsFavoured(g: Grammar, d: Dims, raw: seq<Action>, t: seq<Action>, r: nat, i: int)
    requires RawState(g, d, raw) && AllCovered(g, ISort(ActionLess, raw)) && Resolved(g, ISort(ActionLess, raw), t)
    requires ComesFirstAt(t, r, i)
    ensures FirstFavoured(g, raw, d.nsymbol, r, t[i].sp)
  {
    var s := ISort(ActionLess, raw);
    SortedRawList(g, raw);
    ResolvedUnique(g, s, t);
    ResolvedStateList(g, d, raw, s, t);
    var x := t[i].sp;
    ListActionIs(t, i);
    ResolvedChosen(g, d, raw, t, x, Action(x, REDUCE, r));
    forall y: nat, q: nat | y < x && y in Won(g, raw, d.nsymbol, q)
      ensures |Won(g, raw, d.nsymbol, q)| < |Won(g, raw, d.nsymbol, r)|
    {
      ResolvedChosen(g, d, raw, t, y, Action(y, REDUCE, q));
      var k := ListActionFrom(t, y);
      EarlierSymbol(s, t, k, i);
      CountIsWon(g, d, raw, t, q);
      CountIsWon(g, d, raw, t, r);
    }
  }

  lemma EarlierSymbol(s: seq<Action>, t: seq<Action>, k: nat, i: nat)
    requires Ascending(s) && SameSlots(s, t) && k < |t| && i < |t| && t[k].sp < t[i].sp
    ensures k < i
  {
    assert t[k].sp == s[k].sp && t[i].sp == s[i].sp;
  }

  lemma DefaultIs(g: Grammar, d: Dims, raw: seq<Action>, t: seq<Action>, dflt: int)
    requires RawState(g, d, raw) && AllCovered(g, ISort(ActionLess, raw)) && Resolved(g, ISort(ActionLess, raw), t)
    requires GoodDefault(d, t, dflt)
    ensures DefaultMeans(g, d, raw, dflt)
  {
    if dflt == d.ErrorAction() && forall r: nat :: Count(t, r) < 2 {
      DecodeSpecial(d, dflt);
      forall r: nat ensures |Won(g, raw, d.nsymbol, r)| < 2 {
        CountIsWon(g, d, raw, t, r);
      }
    } else {
      var r: nat :| IsMostFrequent(t, r) && Count(t, r) >= 2 && dflt == r + d.nstate;
      FavouriteIs(g, d, raw, t, r);
    }
  }

  lemma FavouriteIs(g: Grammar, d: Dims, raw: seq<Action>, t: seq<Action>, r: nat)
    requires RawState(g, d, raw) && AllCovered(g, ISort(ActionLess, raw)) && Resolved(g, ISort(ActionLess, raw), t)
    requires IsMostFrequent(t, r) && Count(t, r) >= 2
    ensures Favourite(g, raw, d.nsymbol, r) && Decode(d, r + d.nstate) == DoReduce(r)
  {
    CountIsWon(g, d, raw, t, r);
    forall q: nat ensures |Won(g, raw, d.nsymbol, q)| <= |Won(g, raw, d.nsymbol, r)| {
      CountIsWon(g, d, raw, t, q);
      assert Count(t, q) <= Count(t, r);
    }
    var i :| ComesFirstAt(t, r, i);
    FirstIsFavoured(g, d, raw, t, r, i);
    RuleKnown(g, d, raw, t, i);
  }

  lemma RuleKnown(g: Grammar, d: Dims, raw: seq<Action>, t: seq<Action>, i: nat)
    requires RawState(g, d, raw) && AllCovered(g, ISort(ActionLess, raw)) && Resolved(g, ISort(ActionLess, raw), t)
    requires i < |t| && t[i].kind == REDUCE
    ensures t[i].arg < d.nrule
  {
    var s := ISort(ActionLess, raw);
    assert ResolvedAt(g, s, t, i);
    assert s[i] in multiset(s);
    ISortElems(ActionLess, raw);
    assert s[i] in raw;
  }

  lemma AnswerIs(g: Grammar, d: Dims, raw: seq<Action>, dflt: int, x: nat)
    requires RawState(g, d, raw) && AllCovered(g, OnSymbol(ISort(ActionLess, raw), x))
    ensures AnswerMeans(g, d, raw, dflt, x, Answer(g, d, raw, dflt, x))
  {
    var l := OnSymbol(ISort(ActionLess, raw), x);
    forall a ensures a in l <==> On(raw, x, a) {
      SortedMembers(raw, x, a);
    }
    if l != [] {
      assert l[0] in l;
      ChampionChosen(g, raw, x);
      var a := Champion(g, l);
      assert On(raw, x, a) && a in raw;
      DecodeComputed(d, a);
    }
  }

  /**
   Builds the driver's tables for all states. For every state and every symbol the driver does what
   the state's actions call for; of a list with 2^30 actions or more, the first sort keeps only some.
   */
  method Generate(g: Grammar, d: Dims, raws: seq<seq<Action>>) returns (tab: Tables)
    requires d.Valid() && |raws| == d.nstate
    requires forall st :: 0 <= st < |raws| ==> RawState(g, d, raws[st])
    ensures Sized(tab, d)
    ensures forall st :: 0 <= st < d.nstate ==> AllCovered(g, Kept(raws[st])) && Compiled(g, d, Kept(raws[st]), tab, st)
  {
    var us: seq<seq<Action>> := [];
    ghost var ts: seq<seq<Action>> := [];
    while |us| < |raws|
      invariant |us| <= |raws| && |ts| == |us|
      invariant forall st :: 0 <= st < |us| ==> StateDone(g, d, Kept(raws[st]), ts[st], us[st])
      decreases |raws| - |us|
    {
      var t, u := CompileState(g, d, raws[|us|]);
      us, ts := us + [u], ts + [t];
    }
    SortSets(d, us);
    tab := ReportTable(d, us, ISort(Larger, AxSets(d, us)));
    forall st | 0 <= st < d.nstate ensures AllCovered(g, Kept(raws[st])) && Compiled(g, d, Kept(raws[st]), tab, st) {
      assert StateDone(g, d, Kept(raws[st]), ts[st], us[st]);
      KeptState(g, d, raws[st]);
      DoneMeans(g, d, Kept(raws[st]), ts[st], us[st]);
    }
  }

  lemma DoneMeans(g: Grammar, d: Dims, raw: seq<Action>, t: seq<Action>, u: seq<Action>)
    requires RawState(g, d, raw) && StateDone(g, d, raw, t, u)
    ensures DefaultMeans(g, d, raw, Default(d, u))
    ensures forall x :: 0 <= x < d.nsymbol ==> AnswerMeans(g, d, raw, Default(d, u), x, Meaning(d, u, x))
  {
    DefaultIs(g, d, raw, t, Default(d, u));
    forall x | 0 <= x < d.nsymbol ensures AnswerMeans(g, d, raw, Default(d, u), x, Meaning(d, u, x)) {
      AnswerIs(g, d, raw, Default(d, u), x);
    }
  }

  ghost predicate StateDone(g: Grammar, d: Dims, raw: seq<Action>, t: seq<Action>, u: seq<Action>) {
    && AllCovered(g, ISort(ActionLess, raw)) && Resolved(g, ISort(ActionLess, raw), t)
    && UniqueLive(u) && GoodDefault(d, t, Default(d, u))
    && forall x :: 0 <= x < d.nsymbol ==>
         AllCovered(g, OnSymbol(ISort(ActionLess, raw), x)) &&
         Meaning(d, u, x) == Answer(g, d, raw, Default(d, u), x)
  }
}
