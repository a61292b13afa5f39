/**
 The packed action table of the parser generator: sparse rows of (lookahead, action)
 pairs share one array, each row living at its own offset. A symbol x is looked up for
 the row at offset o by probing slot o + x and checking the lookahead stored there.
 */
module ActionTable {
  import opened Values

  /** One slot of the table; a negative lookahead marks the slot as free. */
  datatype Entry = Entry(lookahead: int, action: int)

  const FREE := Entry(-1, -1)

  /** What the generated driver does with an offset and a symbol. */
  function Probe(tab: seq<Entry>, ofst: int, x: int): Option<int> {
    var i := ofst + x;
    if 0 <= i < |tab| && tab[i].lookahead == x then Some(tab[i].action) else None
  }

  /** The meaning of a row: the action recorded for a symbol, if any. */
  function RowAction(row: seq<Entry>, x: int): Option<int> {
    if row == [] then None
    else if row[0].lookahead == x then Some(row[0].action)
    else RowAction(row[1..], x)
  }

  predicate DistinctLookaheads(row: seq<Entry>) {
    forall i, j :: 0 <= i < j < |row| ==> row[i].lookahead != row[j].lookahead
  }

  predicate NonNegative(row: seq<Entry>) {
    forall i :: 0 <= i < |row| ==> row[i].lookahead >= 0
  }

  /** A row that the table may be asked to hold. */
  predicate GoodRow(row: seq<Entry>) {
    row != [] && NonNegative(row) && DistinctLookaheads(row)
  }

  /** Through offset ofst, tab answers exactly like row: every hit and every miss. */
  ghost predicate Serves(tab: seq<Entry>, ofst: int, row: seq<Entry>) {
    forall x :: x >= 0 ==> Probe(tab, ofst, x) == RowAction(row, x)
  }

  lemma RowActionMember(row: seq<Entry>, j: int)
    requires 0 <= j < |row| && DistinctLookaheads(row)
    ensures RowAction(row, row[j].lookahead) == Some(row[j].action)
  {
    if j > 0 {
      assert row[0].lookahead != row[j].lookahead;
      RowActionMember(row[1..], j - 1);
    }
  }

  lemma RowActionWitness(row: seq<Entry>, x: int) returns (j: int)
    requires RowAction(row, x).Some?
    ensures 0 <= j < |row| && row[j].lookahead == x && RowAction(row, x) == Some(row[j].action)
  {
    if row[0].lookahead == x {
      j := 0;
    } else {
      var k := RowActionWitness(row[1..], x);
      j := k + 1;
    }
  }

  /** The slots of tab that answer through offset ofst. */
  ghost function Answering(tab: seq<Entry>, ofst: int): set<int> {
    set k | 0 <= k < |tab| && tab[k].lookahead >= 0 && tab[k].lookahead == k - ofst
  }

  /** The slots a row occupies when placed at offset ofst. */
  ghost function Slots(row: seq<Entry>, ofst: int): set<int> {
    set j | 0 <= j < |row| :: row[j].lookahead + ofst
  }

  lemma {:induction false} SlotsCount(row: seq<Entry>, ofst: int)
    requires DistinctLookaheads(row)
    ensures |Slots(row, ofst)| == |row|
  {
    if row != [] {
      var n := |row| - 1;
      SlotsCount(row[..n], ofst);
      assert Slots(row, ofst) == Slots(row[..n], ofst) + {row[n].lookahead + ofst};
    }
  }

  /** The row sits in the table at this offset. */
  predicate Placed(tab: seq<Entry>, ofst: int, row: seq<Entry>) {
    forall j :: 0 <= j < |row| ==> 0 <= row[j].lookahead + ofst < |tab| && tab[row[j].lookahead + ofst] == row[j]
  }

  /** A row that is in place, and alone in answering through its offset, is served. */
  lemma ServesWhenAlone(tab: seq<Entry>, ofst: int, row: seq<Entry>)
    requires GoodRow(row) && Placed(tab, ofst, row)
    requires Answering(tab, ofst) <= Slots(row, ofst)
    ensures Serves(tab, ofst, row)
  {
    forall x | x >= 0 ensures Probe(tab, ofst, x) == RowAction(row, x) {
      if Probe(tab, ofst, x).Some? {
        assert ofst + x in Answering(tab, ofst);
        assert ofst + x in Slots(row, ofst);
        var j :| 0 <= j < |row| && row[j].lookahead + ofst == ofst + x;
        RowActionMember(row, j);
      } else if RowAction(row, x).Some? {
        var j := RowActionWitness(row, x);
      }
    }
  }

  lemma ServesPlaces(tab: seq<Entry>, ofst: int, row: seq<Entry>, j: int)
    requires GoodRow(row) && Serves(tab, ofst, row) && 0 <= j < |row|
    ensures 0 <= row[j].lookahead + ofst < |tab| && tab[row[j].lookahead + ofst] == row[j]
  {
    RowActionMember(row, j);
    assert Probe(tab, ofst, row[j].lookahead) == RowAction(row, row[j].lookahead);
  }

  /** tab' results from writing a row at ofst over free slots (or over its own copy). */
  ghost predicate Extends(tab: seq<Entry>, tab': seq<Entry>, ofst: int) {
    && |tab| <= |tab'|
    && (forall k :: 0 <= k < |tab| && tab[k].lookahead >= 0 ==> tab'[k] == tab[k])
    && (forall k :: 0 <= k < |tab'| && tab'[k].lookahead >= 0 && (k < |tab| ==> tab'[k] != tab[k])
          ==> tab'[k].lookahead == k - ofst)
  }

  /**
   Overlapping rows never answer for each other: new slots answer only through their own
   offset, so a row at another offset (or an identical prior row) is still served.
   */
  lemma ExtendsKeepsRow(tab: seq<Entry>, tab': seq<Entry>, ofst: int, o: int, r: seq<Entry>)
    requires Extends(tab, tab', ofst) && GoodRow(r) && Serves(tab, o, r)
    requires o == ofst ==> Answering(tab', ofst) <= Slots(r, ofst)
    ensures Serves(tab', o, r)
  {
    forall j | 0 <= j < |r| ensures 0 <= r[j].lookahead + o < |tab'| && tab'[r[j].lookahead + o] == r[j] {
      ServesPlaces(tab, o, r, j);
    }
    forall k | k in Answering(tab', o) ensures k in Slots(r, o) {
      if o != ofst {
        assert k < |tab| && tab'[k] == tab[k];
        assert Probe(tab, o, k - o).Some?;
        var j := RowActionWitness(r, k - o);
      }
    }
    ServesWhenAlone(tab', o, r);
  }

  /** A transaction already present, with nothing else answering there, fills it exactly. */
  lemma PriorRowIsExact(tab: seq<Entry>, ofst: int, row: seq<Entry>)
    requires GoodRow(row) && Placed(tab, ofst, row)
    requires |Answering(tab, ofst)| == |row|
    ensures Answering(tab, ofst) == Slots(row, ofst)
  {
    SlotsCount(row, ofst);
    var s, a := Slots(row, ofst), Answering(tab, ofst);
    assert s <= a by {
      forall k | k in s ensures k in a {
        var j :| 0 <= j < |row| && row[j].lookahead + ofst == k;
        assert tab[row[j].lookahead + ofst] == row[j];
      }
    }
    assert |a - s| == |a| - |s|;
  }

  /**
   Offset ofst is a safe home for the row: its slots are free and nothing answers there yet,
   or exactly this row is already there.
   */
  ghost predicate Home(tab: seq<Entry>, ofst: int, row: seq<Entry>) {
    || (Answering(tab, ofst) == {} && forall j :: 0 <= j < |row| ==> FreeAt(tab, row[j].lookahead + ofst))
    || (Placed(tab, ofst, row) && Answering(tab, ofst) == Slots(row, ofst))
  }

  predicate FreeAt(tab: seq<Entry>, k: int) {
    0 <= k && (k < |tab| ==> tab[k].lookahead < 0)
  }

  datatype Placement = Placement(ofst: int, row: seq<Entry>)

  ghost predicate AllServed(tab: seq<Entry>, ps: seq<Placement>) {
    forall p :: p in ps ==> GoodRow(p.row) && Serves(tab, p.ofst, p.row)
  }

  /** tab' is tab with the row written over it, possibly past its end. */
  ghost predicate Written(tab: seq<Entry>, tab': seq<Entry>, ofst: int, row: seq<Entry>) {
    && |tab| <= |tab'|
    && Placed(tab', ofst, row)
    && forall k :: 0 <= k < |tab'| ==> k in Slots(row, ofst) || tab'[k] == (if k < |tab| then tab[k] else FREE)
  }

  lemma WrittenExtends(tab: seq<Entry>, tab': seq<Entry>, ofst: int, row: seq<Entry>)
    requires GoodRow(row) && Home(tab, ofst, row) && Written(tab, tab', ofst, row)
    ensures Extends(tab, tab', ofst)
    ensures Answering(tab', ofst) == Slots(row, ofst)
  {
    forall k | k in Slots(row, ofst)
      ensures 0 <= k < |tab'| && tab'[k].lookahead == k - ofst >= 0
      ensures k < |tab| && tab[k].lookahead >= 0 ==> tab'[k] == tab[k]
    {
      var m :| 0 <= m < |row| && row[m].lookahead + ofst == k;
      assert tab'[row[m].lookahead + ofst] == row[m];
    }
    assert Answering(tab', ofst) <= Slots(row, ofst) + Answering(tab, ofst);
  }

  /** Past the used slots there is always a home: nothing there answers through offset |tab|. */
  lemma EndIsHome(tab: seq<Entry>, row: seq<Entry>)
    requires GoodRow(row)
    ensures Home(tab, |tab|, row)
  {
    assert Answering(tab, |tab|) == {};
    forall j | 0 <= j < |row| ensures FreeAt(tab, row[j].lookahead + |tab|) {
    }
  }

  /** Writing a row in its home keeps every earlier row served and serves the new one. */
  lemma PlacementKeepsAll(tab: seq<Entry>, ofst: int, row: seq<Entry>, ps: seq<Placement>)
    requires AllServed(tab, ps) && GoodRow(row) && Home(tab, ofst, row)
    ensures forall tab' :: Written(tab, tab', ofst, row) ==> AllServed(tab', ps + [Placement(ofst, row)])
  {
    forall tab' | Written(tab, tab', ofst, row) ensures AllServed(tab', ps + [Placement(ofst, row)]) {
      WrittenExtends(tab, tab', ofst, row);
      ServesWhenAlone(tab', ofst, row);
      forall p | p in ps ensures Serves(tab', p.ofst, p.row) {
        if p.ofst == ofst {
          SameOffsetSameRow(tab, tab', ofst, p.row, row);
        }
        ExtendsKeepsRow(tab, tab', ofst, p.ofst, p.row);
      }
    }
  }

  /** Slots from n on are free. */
  predicate FreeFrom(whole: seq<Entry>, n: nat) {
    n <= |whole| && forall k :: n <= k < |whole| ==> whole[k] == FREE
  }

  /** The row, placed with its least lookahead at any slot up to the end, stays allocated. */
  predicate Roomy(whole: seq<Entry>, n: nat, row: seq<Entry>) {
    forall j :: 0 <= j < |row| ==> n + row[j].lookahead < |whole|
  }

  predicate IsLeast(row: seq<Entry>, mn: int) {
    forall j :: 0 <= j < |row| ==> mn <= row[j].lookahead
  }

  /** Whether the row, with its least lookahead at slot i, would land on free slots only. */
  method SlotsFree(whole: seq<Entry>, n: nat, row: seq<Entry>, mn: nat, i: nat) returns (free: bool)
    requires FreeFrom(whole, n) && Roomy(whole, n, row) && IsLeast(row, mn) && i <= n + mn
    ensures free <==> forall j :: 0 <= j < |row| ==> FreeAt(whole[..n], row[j].lookahead + (i - mn))
  {
    var j := 0;
    while j < |row|
      invariant 0 <= j <= |row|
      invariant forall m :: 0 <= m < j ==> FreeAt(whole[..n], row[m].lookahead + (i - mn))
    {
      var k := row[j].lookahead - mn + i;
      if k < 0 || whole[k].lookahead >= 0 { return false; }
      j := j + 1;
    }
    return true;
  }

  /** Whether no used slot already answers through offset o, nor a free one below it holds what would. */
  method NoneAnswers(whole: seq<Entry>, n: nat, o: int) returns (clear: bool)
    requires n <= |whole|
    ensures clear <==> Answering(whole[..n], o) == {} && forall m :: 0 <= m < n && m < o ==> whole[m].lookahead != m - o
  {
    var j := 0;
    while j < n
      invariant 0 <= j <= n
      invariant forall m :: 0 <= m < j ==> whole[m].lookahead != m - o
    {
      if whole[j].lookahead == j - o {
        assert j >= o ==> j in Answering(whole[..n], o);
        return false;
      }
      j := j + 1;
    }
    return true;
  }

  /** Whether the row is already in place at offset o, entry for entry. */
  method SameAsPrior(whole: seq<Entry>, n: nat, row: seq<Entry>, o: int) returns (same: bool)
    requires n <= |whole|
    ensures same <==> Placed(whole[..n], o, row)
  {
    var j := 0;
    while j < |row|
      invariant 0 <= j <= |row|
      invariant forall m :: 0 <= m < j ==> 0 <= row[m].lookahead + o < n && whole[row[m].lookahead + o] == row[m]
    {
      var k := row[j].lookahead + o;
      if k < 0 || k >= n { return false; }
      if row[j].lookahead != whole[k].lookahead { return false; }
      if row[j].action != whole[k].action { return false; }
      j := j + 1;
    }
    return true;
  }

  /** The number of used slots that answer through offset o. */
  method CountAnswering(whole: seq<Entry>, n: nat, o: int) returns (c: nat)
    requires n <= |whole|
    ensures c == |Answering(whole[..n], o)|
  {
    c := 0;
    var j := 0;
    while j < n
      invariant 0 <= j <= n
      invariant c == |Answering(whole[..j], o)|
    {
      ghost var before := Answering(whole[..j], o);
      if whole[j].lookahead >= 0 && whole[j].lookahead == j - o {
        c := c + 1;
        assert Answering(whole[..j + 1], o) == before + {j};
      } else {
        assert Answering(whole[..j + 1], o) == before;
      }
      j := j + 1;
    }
  }

  /**
   Where the generator takes the row to fit: on free slots, with nothing at that offset that could be taken
   for its own, or onto an equal row.
   */
  ghost predicate Fit(tab: seq<Entry>, ofst: int, row: seq<Entry>) {
    || ((forall j :: 0 <= j < |row| ==> FreeAt(tab, row[j].lookahead + ofst)) && Answering(tab, ofst) == {} &&
        forall m :: 0 <= m < |tab| && m < ofst ==> tab[m].lookahead != m - ofst)
    || (Placed(tab, ofst, row) && |Answering(tab, ofst)| == |row|)
  }

  /** The first offset where the row fits, with none of its slots negative; the end of the table at the latest. */
  ghost predicate FirstFit(tab: seq<Entry>, ofst: int, row: seq<Entry>, mn: int) {
    && -mn <= ofst <= |tab| && (ofst < |tab| ==> Fit(tab, ofst, row))
    && forall o :: 0 <= o + mn && o < ofst ==> !Fit(tab, o, row)
  }

  /** Whether the row may be placed with its least lookahead at slot i. */
  method Fits(whole: seq<Entry>, n: nat, row: seq<Entry>, mn: nat, mnAction: int, i: nat) returns (fits: bool)
    requires FreeFrom(whole, n) && Roomy(whole, n, row) && GoodRow(row) && IsLeast(row, mn) &&
      Entry(mn, mnAction) in row
    requires i < n + mn < |whole|
    ensures fits ==> Home(whole[..n], i - mn, row)
    ensures fits <==> Fit(whole[..n], i - mn, row)
  {
    fits := false;
    ghost var l :| 0 <= l < |row| && row[l] == Entry(mn, mnAction);
    assert FreeAt(whole[..n], row[l].lookahead + (i - mn)) <==> whole[i].lookahead < 0;
    if whole[i].lookahead < 0 {
      var free := SlotsFree(whole, n, row, mn, i);
      if free {
        fits := NoneAnswers(whole, n, i - mn);
      }
    } else if whole[i].lookahead == mn {
      if whole[i].action == mnAction {
        var same := SameAsPrior(whole, n, row, i - mn);
        if same {
          var c := CountAnswering(whole, n, i - mn);
          fits := c == |row|;
          if fits { PriorRowIsExact(whole[..n], i - mn, row); }
        }
      }
    }
  }

  /** Scans for the first slot at which the row can be placed, else appends it. */
  method FindIndex(whole: seq<Entry>, n: nat, row: seq<Entry>, mn: nat, mnAction: int) returns (i: nat)
    requires FreeFrom(whole, n) && Roomy(whole, n, row) && GoodRow(row) && IsLeast(row, mn) &&
      Entry(mn, mnAction) in row
    requires n + mn < |whole|
    ensures i <= n + mn && Home(whole[..n], i - mn, row) && FirstFit(whole[..n], i - mn, row, mn)
  {
    i := 0;
    while i < n + mn
      invariant 0 <= i <= n + mn && forall o :: 0 <= o + mn < i ==> !Fit(whole[..n], o, row)
    {
      var fits := Fits(whole, n, row, mn, mnAction, i);
      if fits { return; }
      i := i + 1;
    }
    EndIsHome(whole[..n], row);
  }

  /** Writes the row at offset o, extending the used part of the table over it. */
  method WriteRow(whole: seq<Entry>, n: nat, row: seq<Entry>, o: int) returns (whole': seq<Entry>, n': nat)
    requires FreeFrom(whole, n) && GoodRow(row)
    requires forall j :: 0 <= j < |row| ==> 0 <= row[j].lookahead + o < |whole|
    ensures |whole'| == |whole| && FreeFrom(whole', n')
    ensures Written(whole[..n], whole'[..n'], o, row)
  {
    whole', n' := whole, n;
    var j := 0;
    while j < |row|
      invariant 0 <= j <= |row|
      invariant |whole'| == |whole| && n <= n' && FreeFrom(whole', n')
      invariant forall m :: 0 <= m < j ==> row[m].lookahead + o < n' && whole'[row[m].lookahead + o] == row[m]
      invariant forall k :: 0 <= k < |whole| ==> whole'[k] == whole[k] || k in Slots(row, o)
    {
      var k := row[j].lookahead + o;
      assert forall m :: 0 <= m < j ==> row[m].lookahead != row[j].lookahead;
      assert k in Slots(row, o);
      whole' := whole'[k := row[j]];
      if k >= n' { n' := k + 1; }
      j := j + 1;
    }
  }

  /** Finds a home for the row and writes it there; every row stays served. */
  method Place(whole: seq<Entry>, n: nat, row: seq<Entry>, mn: nat, mnAction: int, ghost ps: seq<Placement>)
    returns (whole': seq<Entry>, n': nat, ofst: int)
    requires FreeFrom(whole, n) && Roomy(whole, n, row) && GoodRow(row) && IsLeast(row, mn) &&
      Entry(mn, mnAction) in row
    requires n + mn < |whole| && AllServed(whole[..n], ps)
    ensures |whole'| == |whole| && FreeFrom(whole', n')
    ensures FirstFit(whole[..n], ofst, row, mn) && Written(whole[..n], whole'[..n'], ofst, row)
    ensures AllServed(whole'[..n'], ps + [Placement(ofst, row)])
  {
    var i := FindIndex(whole, n, row, mn, mnAction);
    ofst := i - mn;
    PlacementKeepsAll(whole[..n], ofst, row, ps);
    whole', n' := WriteRow(whole, n, row, ofst);
  }

  /** The table under construction, with the transaction set being collected. */
  class ActTab {
    var nAction: nat
    var nActionAlloc: nat
    var aAction: seq<Entry>
    var aLookahead: seq<Entry>
    var mnLookahead: int
    var mnAction: int
    var mxLookahead: int
    ghost var placements: seq<Placement>

    ghost function Table(): seq<Entry>
      requires nAction <= |aAction|
      reads this
    {
      aAction[..nAction]
    }

    ghost predicate Valid()
      reads this
    {
      && Shape()
      && ValidTransaction()
      && AllServed(Table(), placements)
    }

    /** Every slot from nAction on is free. */
    ghost predicate Shape()
      reads this
    {
      |aAction| == nActionAlloc && FreeFrom(aAction, nAction)
    }

    ghost predicate ValidTransaction()
      reads this
    {
      && NonNegative(aLookahead)
      && (aLookahead != [] ==>
            && Entry(mnLookahead, mnAction) in aLookahead
            && (exists j :: 0 <= j < |aLookahead| && aLookahead[j].lookahead == mxLookahead)
            && (forall j :: 0 <= j < |aLookahead| ==> mnLookahead <= aLookahead[j].lookahead <= mxLookahead))
    }

    constructor ()
      ensures Valid() && placements == [] && aLookahead == [] && Table() == []
    {
      nAction, nActionAlloc, aAction, aLookahead := 0, 0, [], [];
      mnLookahead, mnAction, mxLookahead := 0, 0, 0;
      placements := [];
    }

    /** Adds one pair to the transaction set, tracking its least and greatest lookahead. */
    method Action(lookahead: int, action: int)
      requires Valid() && lookahead >= 0
      modifies this`aLookahead, this`mnLookahead, this`mnAction, this`mxLookahead
      ensures Valid()
      ensures aLookahead == old(aLookahead) + [Entry(lookahead, action)]
    {
      if aLookahead == [] {
        mxLookahead := lookahead;
        mnLookahead := lookahead;
        mnAction := action;
      } else {
        if mxLookahead < lookahead { mxLookahead := lookahead; }
        if mnLookahead > lookahead {
          mnLookahead := lookahead;
          mnAction := action;
        }
      }
      aLookahead := aLookahead + [Entry(lookahead, action)];
      ghost var n := |aLookahead| - 1;
      assert aLookahead[n] == Entry(lookahead, action);
      assert forall j :: 0 <= j < n ==> aLookahead[j] == old(aLookahead)[j];
    }

    /** Makes room for the worst case, in which the row is appended after slot nAction. */
    method Grow()
      requires Valid() && aLookahead != []
      modifies this`aAction, this`nActionAlloc
      ensures Valid() && Table() == old(Table())
      ensures nAction + mxLookahead + 1 < nActionAlloc
    {
      var n := mxLookahead + 1;
      if nAction + n >= nActionAlloc {
        var oldAlloc := nActionAlloc;
        nActionAlloc := nAction + n + nActionAlloc + 20;
        aAction := aAction + seq(nActionAlloc - oldAlloc, _ => FREE);
        assert Table() == old(Table());
      }
    }

    /**
     Places the transaction set and returns the offset to add to a lookahead. Every row
     ever placed, this one included, answers through its own offset exactly as recorded.
     */
    method Insert() returns (ofst: int)
      requires Valid() && GoodRow(aLookahead)
      modifies this
      ensures Valid() && aLookahead == []
      ensures placements == old(placements) + [Placement(ofst, old(aLookahead))]
      ensures FirstFit(old(Table()), ofst, old(aLookahead), old(mnLookahead))
      ensures Written(old(Table()), Table(), ofst, old(aLookahead))
    {
      Grow();
      ghost var before := Table();
      aAction, nAction, ofst := Place(aAction, nAction, aLookahead, mnLookahead, mnAction, placements);
      placements := placements + [Placement(ofst, aLookahead)];
      aLookahead := [];
      assert before == old(Table());
    }
  }

  /** Two rows share an offset only if they are the same set of slots. */
  lemma SameOffsetSameRow(tab: seq<Entry>, tab': seq<Entry>, ofst: int, r: seq<Entry>, row: seq<Entry>)
    requires GoodRow(r) && GoodRow(row) && Serves(tab, ofst, r) && Extends(tab, tab', ofst)
    requires Answering(tab', ofst) == Slots(row, ofst)
    requires Answering(tab, ofst) == {} || Answering(tab, ofst) == Slots(row, ofst)
    ensures Answering(tab', ofst) <= Slots(r, ofst)
  {
    ServesPlaces(tab, ofst, r, 0);
    assert r[0].lookahead + ofst in Answering(tab, ofst);
    forall k | k in Answering(tab', ofst) ensures k in Slots(r, ofst) {
      assert k in Answering(tab, ofst);
      assert Probe(tab, ofst, k - ofst).Some?;
      var j := RowActionWitness(r, k - ofst);
    }
  }
}
