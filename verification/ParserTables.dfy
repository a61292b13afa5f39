/**
 From action lists to the driver's tables and back: how the generator lays out all states'
 rows in one packed table, and what the generated driver finds there.
 */
module ParserTables {
  import opened Values
  import opened MergeSort
  import opened ConflictResolution
  import opened Compression
  import Packed = ActionTable

  /** Sizes that fix the numbering of actions and symbols. */
  datatype Dims = Dims(nstate: nat, nrule: nat, nterminal: nat, nsymbol: nat) {
    ghost predicate Valid() { nterminal <= nsymbol }

    function ErrorAction(): nat { nstate + nrule }

    function NoAction(): nat { nstate + nrule + 2 }

    function NoCode(): nat { nsymbol + 1 }
  }

  /** The integer that stands for an action in the tables; negative if there is none. */
  function ComputeAction(d: Dims, a: Action): int {
    match a.kind
    case SHIFT => a.arg
    case REDUCE => a.arg + d.nstate
    case ERROR => d.nstate + d.nrule
    case ACCEPT => d.nstate + d.nrule + 1
    case _ => -1
  }

  /** The action behind a table entry, read the way the driver reads it. */
  datatype Decoded = DoShift(state: nat) | DoReduce(rule: nat) | DoError | DoAccept | DoNothing

  function Decode(d: Dims, n: int): Decoded {
    if n < 0 then DoNothing
    else if n < d.nstate then DoShift(n)
    else if n < d.nstate + d.nrule then DoReduce(n - d.nstate)
    else if n == d.nstate + d.nrule then DoError
    else if n == d.nstate + d.nrule + 1 then DoAccept
    else DoNothing
  }

  /** What the driver does for an action. */
  function Doing(a: Action): Decoded {
    match a.kind
    case SHIFT => DoShift(a.arg)
    case REDUCE => DoReduce(a.arg)
    case ERROR => DoError
    case ACCEPT => DoAccept
    case _ => DoNothing
  }

  /** Action numbers are unambiguous: the driver recovers the very action that was encoded. */
  lemma DecodeComputed(d: Dims, a: Action)
    requires a.kind == SHIFT ==> a.arg < d.nstate
    requires a.kind == REDUCE ==> a.arg < d.nrule
    ensures Decode(d, ComputeAction(d, a)) == Doing(a)
  {
  }

  /** A state without a default of its own errs, and the driver takes no other number for an error, or for nothing. */
  lemma DecodeSpecial(d: Dims, n: int)
    ensures Decode(d, n) == DoError <==> n == d.ErrorAction()
    ensures Decode(d, d.NoAction()) == DoNothing
  {
  }

  /** The half of a state's list that belongs in the token or the nonterminal row. */
  predicate InHalf(d: Dims, a: Action, isTkn: bool) {
    Live(a) && if isTkn then a.sp < d.nterminal else d.nterminal <= a.sp < d.nsymbol
  }

  function Row(d: Dims, u: seq<Action>, isTkn: bool): seq<Packed.Entry> {
    if u == [] then []
    else if InHalf(d, u[0], isTkn) then [Packed.Entry(u[0].sp, ComputeAction(d, u[0]))] + Row(d, u[1..], isTkn)
    else Row(d, u[1..], isTkn)
  }

  lemma {:induction false} RowSnoc(d: Dims, u: seq<Action>, k: nat, isTkn: bool)
    requires k < |u|
    ensures Row(d, u[..k + 1], isTkn) == Row(d, u[..k], isTkn) +
              if InHalf(d, u[k], isTkn) then [Packed.Entry(u[k].sp, ComputeAction(d, u[k]))] else []
  {
    if k > 0 {
      assert u[1..][..k] == u[..k + 1][1..];
      assert u[1..][..k - 1] == u[..k][1..];
      RowSnoc(d, u[1..], k - 1, isTkn);
    } else {
      assert u[..1][1..] == [];
    }
  }

  lemma {:induction false} RowOrigin(d: Dims, u: seq<Action>, isTkn: bool, j: nat) returns (i: nat)
    requires j < |Row(d, u, isTkn)|
    ensures j <= i < |u| && InHalf(d, u[i], isTkn)
    ensures Row(d, u, isTkn)[j] == Packed.Entry(u[i].sp, ComputeAction(d, u[i]))
  {
    if InHalf(d, u[0], isTkn) && j == 0 {
      i := 0;
    } else {
      i := RowOrigin(d, u[1..], isTkn, if InHalf(d, u[0], isTkn) then j - 1 else j);
      i := i + 1;
    }
  }

  lemma {:induction false} RowDistinct(d: Dims, u: seq<Action>, isTkn: bool)
    requires UniqueLive(u)
    ensures Packed.DistinctLookaheads(Row(d, u, isTkn)) && Packed.NonNegative(Row(d, u, isTkn))
  {
    if u != [] {
      assert forall i, j :: 0 <= i < j < |u[1..]| ==> u[1..][i] == u[i + 1] && u[1..][j] == u[j + 1];
      RowDistinct(d, u[1..], isTkn);
      var rest := Row(d, u[1..], isTkn);
      if InHalf(d, u[0], isTkn) {
        forall j | 0 <= j < |rest| ensures rest[j].lookahead != u[0].sp {
          var i := RowOrigin(d, u[1..], isTkn, j);
          assert OneOfPair(u[0], u[i + 1]);
        }
      }
    }
  }

  /** A row answers like the list it was made from. */
  lemma {:induction false} RowMeaning(d: Dims, u: seq<Action>, isTkn: bool, x: nat)
    requires if isTkn then x < d.nterminal else d.nterminal <= x < d.nsymbol
    ensures Packed.RowAction(Row(d, u, isTkn), x) ==
            match ListAction(u, x) case None => None case Some(a) => Some(ComputeAction(d, a))
  {
    if u != [] {
      RowMeaning(d, u[1..], isTkn, x);
      if InHalf(d, u[0], isTkn) {
        assert ([Packed.Entry(u[0].sp, ComputeAction(d, u[0]))] + Row(d, u[1..], isTkn))[1..] == Row(d, u[1..], isTkn);
      }
    }
  }

  /** Hands one half of a state's list to the table as the current transaction set. */
  method CollectRow(p: Packed.ActTab, d: Dims, u: seq<Action>, isTkn: bool)
    requires p.Valid() && p.aLookahead == []
    modifies p`aLookahead, p`mnLookahead, p`mnAction, p`mxLookahead
    ensures p.Valid() && p.aLookahead == Row(d, u, isTkn)
  {
    var k := 0;
    while k < |u|
      invariant 0 <= k <= |u| && p.Valid()
      invariant p.aLookahead == Row(d, u[..k], isTkn)
    {
      RowSnoc(d, u, k, isTkn);
      if InHalf(d, u[k], isTkn) {
        p.Action(u[k].sp, ComputeAction(d, u[k]));
      }
      k := k + 1;
    }
    assert u[..k] == u;
  }

  /** The default of a state: the live action on the default symbol, else an error. */
  function Default(d: Dims, u: seq<Action>): int {
    match ListAction(u, d.nsymbol)
    case Some(a) => ComputeAction(d, a)
    case None => d.ErrorAction()
  }

  /** What a state's list says about a symbol, with its default for everything else. */
  function Meaning(d: Dims, u: seq<Action>, x: nat): int {
    match ListAction(u, x)
    case Some(a) => ComputeAction(d, a)
    case None => Default(d, u)
  }

  // ----- the driver

  datatype Tables = Tables(
    yyAction: seq<int>, yyLookahead: seq<int>,
    shiftOfst: seq<int>, shiftUseDflt: int,
    reduceOfst: seq<int>, reduceUseDflt: int,
    dflt: seq<int>)

  function Lookup(t: Tables, d: Dims, ofst: int, useDflt: int, dflt: int, x: nat): int
    requires |t.yyAction| == |t.yyLookahead|
  {
    if ofst == useDflt then dflt
    else if x == d.NoCode() then d.NoAction()
    else
      var i := ofst + x;
      if i < 0 || i >= |t.yyAction| || t.yyLookahead[i] != x then dflt else t.yyAction[i]
  }

  predicate Sized(t: Tables, d: Dims) {
    && |t.yyAction| == |t.yyLookahead|
    && |t.shiftOfst| == |t.reduceOfst| == |t.dflt| == d.nstate
  }

  /** yy_find_shift_action without fallback tokens. */
  function FindShiftAction(t: Tables, d: Dims, stateno: nat, x: nat): int
    requires Sized(t, d) && stateno < d.nstate
  {
    Lookup(t, d, t.shiftOfst[stateno], t.shiftUseDflt, t.dflt[stateno], x)
  }

  /** yy_find_reduce_action. */
  function FindReduceAction(t: Tables, d: Dims, stateno: nat, x: nat): int
    requires Sized(t, d) && stateno < d.nstate
  {
    Lookup(t, d, t.reduceOfst[stateno], t.reduceUseDflt, t.dflt[stateno], x)
  }

  // ----- laying out the rows

  /** One row to be placed: its state, which half, and how many actions it has. */
  datatype AxSet = AxSet(st: nat, isTkn: bool, nAction: nat)

  function AxSets(d: Dims, us: seq<seq<Action>>): seq<AxSet> {
    if us == [] then []
    else
      var n := |us| - 1;
      AxSets(d, us[..n]) + [AxSet(n, true, |Row(d, us[n], true)|), AxSet(n, false, |Row(d, us[n], false)|)]
  }

  /** The order that the library sort may leave: any permutation with larger rows first. */
  ghost predicate SortedSets(d: Dims, us: seq<seq<Action>>, ax: seq<AxSet>) {
    && multiset(ax) == multiset(AxSets(d, us))
    && forall i, j :: 0 <= i < j < |ax| ==> ax[i].nAction >= ax[j].nAction
  }

  lemma {:induction false} AxSetsMembers(d: Dims, us: seq<seq<Action>>, a: AxSet)
    ensures a in AxSets(d, us) <==> a.st < |us| && a.nAction == |Row(d, us[a.st], a.isTkn)|
  {
    if us != [] {
      var n := |us| - 1;
      AxSetsMembers(d, us[..n], a);
      if a.st == n {
        assert a in AxSets(d, us[..n]) ==> false;
      }
    }
  }

  lemma SetsCover(d: Dims, us: seq<seq<Action>>, ax: seq<AxSet>, a: AxSet)
    requires multiset(ax) == multiset(AxSets(d, us))
    ensures a in ax <==> a.st < |us| && a.nAction == |Row(d, us[a.st], a.isTkn)|
  {
    AxSetsMembers(d, us, a);
    assert a in multiset(ax) <==> a in multiset(AxSets(d, us));
  }

  /** Offsets handed out so far: each is above the running minimum and backed by a placement. */
  ghost predicate Laid(d: Dims, us: seq<seq<Action>>, isTkn: bool, ofst: seq<Option<int>>, mn: int,
                       ps: seq<Packed.Placement>) {
    && |ofst| == |us| && mn <= 0
    && forall st :: 0 <= st < |us| && ofst[st].Some? ==>
         && ofst[st].value >= mn && Row(d, us[st], isTkn) != []
         && Packed.Placement(ofst[st].value, Row(d, us[st], isTkn)) in ps
  }

  function Offset(a: AxSet, tkn: seq<Option<int>>, nt: seq<Option<int>>): Option<int>
    requires a.st < |tkn| == |nt|
  {
    if a.isTkn then tkn[a.st] else nt[a.st]
  }

  /** The rows before i have been given offsets. */
  ghost predicate Placed(ax: seq<AxSet>, i: nat, tkn: seq<Option<int>>, nt: seq<Option<int>>) {
    && i <= |ax| && |tkn| == |nt|
    && forall k :: 0 <= k < i ==> ax[k].st < |tkn| && Offset(ax[k], tkn, nt).Some?
  }

  /** Collects one row and inserts it. */
  method PlaceRow(p: Packed.ActTab, d: Dims, u: seq<Action>, isTkn: bool) returns (o: int)
    requires p.Valid() && p.aLookahead == [] && UniqueLive(u) && Row(d, u, isTkn) != []
    modifies p
    ensures p.Valid() && p.aLookahead == []
    ensures p.placements == old(p.placements) + [Packed.Placement(o, Row(d, u, isTkn))]
  {
    RowDistinct(d, u, isTkn);
    CollectRow(p, d, u, isTkn);
    o := p.Insert();
  }

  lemma LaidGrows(d: Dims, us: seq<seq<Action>>, isTkn: bool, ofst: seq<Option<int>>, mn: int,
                  ps: seq<Packed.Placement>, q: Packed.Placement)
    requires Laid(d, us, isTkn, ofst, mn, ps)
    ensures Laid(d, us, isTkn, ofst, mn, ps + [q])
  {
  }

  lemma LaidNew(d: Dims, us: seq<seq<Action>>, isTkn: bool, ofst: seq<Option<int>>, mn: int, ps: seq<Packed.Placement>,
                st: nat, o: int)
    requires Laid(d, us, isTkn, ofst, mn, ps) && st < |us| && Row(d, us[st], isTkn) != []
    ensures Laid(d, us, isTkn, ofst[st := Some(o)], if o < mn then o else mn,
                 ps + [Packed.Placement(o, Row(d, us[st], isTkn))])
  {
  }

  lemma PlacedNext(ax: seq<AxSet>, i: nat, tkn: seq<Option<int>>, nt: seq<Option<int>>, tkn': seq<Option<int>>,
                   nt': seq<Option<int>>, o: int)
    requires Placed(ax, i, tkn, nt) && i < |ax| && ax[i].st < |tkn|
    requires tkn' == if ax[i].isTkn then tkn[ax[i].st := Some(o)] else tkn
    requires nt' == if ax[i].isTkn then nt else nt[ax[i].st := Some(o)]
    ensures Placed(ax, i + 1, tkn', nt')
  {
    forall k | 0 <= k < i + 1 ensures Offset(ax[k], tkn', nt').Some? {
      if k < i { assert Offset(ax[k], tkn, nt).Some?; }
    }
  }

  /** Places the rows, largest first, until only empty ones are left. */
  method LayOut(d: Dims, us: seq<seq<Action>>, ax: seq<AxSet>)
    returns (tab: seq<Packed.Entry>, tkn: seq<Option<int>>, mnTkn: int, nt: seq<Option<int>>, mnNt: int)
    requires (forall st :: 0 <= st < |us| ==> UniqueLive(us[st])) && SortedSets(d, us, ax)
    ensures Serving(d, us, true, tkn, mnTkn, tab) && Serving(d, us, false, nt, mnNt, tab)
  {
    var p := new Packed.ActTab();
    tkn, nt := seq(|us|, _ => None), seq(|us|, _ => None);
    mnTkn, mnNt := 0, 0;
    var i := 0;
    while i < |ax| && ax[i].nAction > 0
      invariant 0 <= i <= |ax| && fresh(p) && p.Valid() && p.aLookahead == []
      invariant Laid(d, us, true, tkn, mnTkn, p.placements) && Laid(d, us, false, nt, mnNt, p.placements)
      invariant Placed(ax, i, tkn, nt)
    {
      SetsCover(d, us, ax, ax[i]);
      var st, isTkn := ax[i].st, ax[i].isTkn;
      ghost var ps, tkn0, nt0 := p.placements, tkn, nt;
      var o := PlaceRow(p, d, us[st], isTkn);
      if isTkn {
        LaidNew(d, us, true, tkn, mnTkn, ps, st, o);
        LaidGrows(d, us, false, nt, mnNt, ps, Packed.Placement(o, Row(d, us[st], isTkn)));
        tkn := tkn[st := Some(o)];
        if o < mnTkn { mnTkn := o; }
      } else {
        LaidNew(d, us, false, nt, mnNt, ps, st, o);
        LaidGrows(d, us, true, tkn, mnTkn, ps, Packed.Placement(o, Row(d, us[st], isTkn)));
        nt := nt[st := Some(o)];
        if o < mnNt { mnNt := o; }
      }
      PlacedNext(ax, i, tkn0, nt0, tkn, nt, o);
      i := i + 1;
    }
    AllPlaced(d, us, ax, i, tkn, nt);
    tab := p.aAction[..p.nAction];
    LaidServes(d, us, true, tkn, mnTkn, p.placements, tab);
    LaidServes(d, us, false, nt, mnNt, p.placements, tab);
  }

  lemma LaidServes(d: Dims, us: seq<seq<Action>>, isTkn: bool, ofst: seq<Option<int>>, mn: int,
                   ps: seq<Packed.Placement>, tab: seq<Packed.Entry>)
    requires Laid(d, us, isTkn, ofst, mn, ps) && Packed.AllServed(tab, ps)
    requires forall st :: 0 <= st < |us| && Row(d, us[st], isTkn) != [] ==> ofst[st].Some?
    ensures Serving(d, us, isTkn, ofst, mn, tab)
  {
  }

  /** Every non-empty row has an offset at which the table answers for it; empty rows have none. */
  ghost predicate Serving(d: Dims, us: seq<seq<Action>>, isTkn: bool, ofst: seq<Option<int>>, mn: int,
                          tab: seq<Packed.Entry>) {
    && |ofst| == |us|
    && forall st :: 0 <= st < |us| ==> ServingAt(d, us[st], isTkn, ofst[st], mn, tab)
  }

  ghost predicate ServingAt(d: Dims, u: seq<Action>, isTkn: bool, o: Option<int>, mn: int, tab: seq<Packed.Entry>) {
    match o
    case None => Row(d, u, isTkn) == []
    case Some(ofst) => Row(d, u, isTkn) != [] && ofst >= mn && Packed.Serves(tab, ofst, Row(d, u, isTkn))
  }

  /** When the loop stops, the rows not yet placed are empty. */
  lemma AllPlaced(d: Dims, us: seq<seq<Action>>, ax: seq<AxSet>, i: nat, tkn: seq<Option<int>>, nt: seq<Option<int>>)
    requires SortedSets(d, us, ax) && Placed(ax, i, tkn, nt) && |tkn| == |us|
    requires i == |ax| || ax[i].nAction == 0
    ensures forall st :: 0 <= st < |us| && Row(d, us[st], true) != [] ==> tkn[st].Some?
    ensures forall st :: 0 <= st < |us| && Row(d, us[st], false) != [] ==> nt[st].Some?
  {
    forall st, isTkn | 0 <= st < |us| && Row(d, us[st], isTkn) != []
      ensures isTkn ==> tkn[st].Some?
      ensures !isTkn ==> nt[st].Some?
    {
      var a := AxSet(st, isTkn, |Row(d, us[st], isTkn)|);
      SetsCover(d, us, ax, a);
      var k :| 0 <= k < |ax| && ax[k] == a;
      assert k < i;
      assert Offset(ax[k], tkn, nt).Some?;
    }
  }

  /** Emits the tables; free slots get numbers that no lookup can take for an answer. */
  method ReportTable(d: Dims, us: seq<seq<Action>>, ax: seq<AxSet>) returns (t: Tables)
    requires d.Valid() && |us| == d.nstate && (forall st :: 0 <= st < |us| ==> UniqueLive(us[st])) &&
      SortedSets(d, us, ax)
    ensures Sized(t, d)
    ensures forall st, x :: 0 <= st < d.nstate && 0 <= x < d.nterminal ==>
      FindShiftAction(t, d, st, x) == Meaning(d, us[st], x)
    ensures forall st, x :: 0 <= st < d.nstate && d.nterminal <= x < d.nsymbol ==>
      FindReduceAction(t, d, st, x) == Meaning(d, us[st], x)
    ensures forall st :: 0 <= st < d.nstate ==>
              t.dflt[st] == Default(d, us[st]) &&
              (ListAction(us[st], d.nsymbol) == None ==> Decode(d, t.dflt[st]) == DoError) &&
              FindShiftAction(t, d, st, d.NoCode()) ==
              if Row(d, us[st], true) == [] then Default(d, us[st]) else d.NoAction()
  {
    var tab, tkn, mnTkn, nt, mnNt := LayOut(d, us, ax);
    t := Tables(
      seq(|tab|, i requires 0 <= i < |tab| => if tab[i].action < 0 then d.nsymbol + d.nrule + 2 else tab[i].action),
      seq(|tab|, i requires 0 <= i < |tab| => if tab[i].lookahead < 0 then d.nsymbol else tab[i].lookahead),
      Offsets(tkn, mnTkn - 1), mnTkn - 1,
      Offsets(nt, mnNt - 1), mnNt - 1,
      seq(|us|, st requires 0 <= st < |us| => Default(d, us[st])));
    assert Emits(t, d, tab);
    forall st, x | 0 <= st < d.nstate && 0 <= x < d.nterminal
      ensures FindShiftAction(t, d, st, x) == Meaning(d, us[st], x)
    {
      LookupMeaning(t, d, us[st], true, tkn[st], mnTkn, tab, x);
    }
    forall st, x | 0 <= st < d.nstate && d.nterminal <= x < d.nsymbol
      ensures FindReduceAction(t, d, st, x) == Meaning(d, us[st], x)
    {
      LookupMeaning(t, d, us[st], false, nt[st], mnNt, tab, x);
    }
  }

  function Offsets(ofst: seq<Option<int>>, useDflt: int): (r: seq<int>)
    ensures |r| == |ofst|
    ensures forall st :: 0 <= st < |ofst| ==> r[st] == if ofst[st].None? then useDflt else ofst[st].value
  {
    seq(|ofst|, st requires 0 <= st < |ofst| => if ofst[st].None? then useDflt else ofst[st].value)
  }

  /** The emitted arrays agree with the packed table on every used slot. */
  ghost predicate Emits(t: Tables, d: Dims, tab: seq<Packed.Entry>) {
    && |t.yyAction| == |t.yyLookahead| == |tab|
    && forall i :: 0 <= i < |tab| ==>
         && t.yyLookahead[i] == (if tab[i].lookahead < 0 then d.nsymbol else tab[i].lookahead)
         && t.yyAction[i] == (if tab[i].action < 0 then d.nsymbol + d.nrule + 2 else tab[i].action)
  }

  /** Through its offset, or its absence, every state answers as its list says. */
  lemma LookupMeaning(t: Tables, d: Dims, u: seq<Action>, isTkn: bool, o: Option<int>, mn: int, tab: seq<Packed.Entry>,
                      x: nat)
    requires d.Valid() && Emits(t, d, tab) && ServingAt(d, u, isTkn, o, mn, tab)
    requires if isTkn then x < d.nterminal else d.nterminal <= x < d.nsymbol
    ensures Lookup(t, d, if o.None? then mn - 1 else o.value, mn - 1, Default(d, u), x) == Meaning(d, u, x)
  {
    RowMeaning(d, u, isTkn, x);
    if o.Some? {
      var row := Row(d, u, isTkn);
      assert Packed.Probe(tab, o.value, x) == Packed.RowAction(row, x);
      var i := o.value + x;
      if ListAction(u, x).Some? {
        var k := ListActionFrom(u, x);
      }
    }
  }
}
